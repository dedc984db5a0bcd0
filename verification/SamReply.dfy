/** Converting a logon token to the NETLOGON validation structures and back
    (auth/auth_sam_reply.c). */
module SamReply {
  import opened Wire
  import opened Wrappers

  const MAX_SUB_AUTHS := 15
  const GUEST := 0x1
  const EXTRA_SIDS := 0x20
  const GROUP_ATTRIBUTES: uint32 := 7  // mandatory, enabled by default, enabled
  const KEY_SIZE := 16
  const LM_KEY_SIZE := 8
  const MAX_COUNT := 65535

  /** A security identifier; only the sub-authorities in use are kept. */
  datatype Sid = Sid(revision: byte, idAuth: seq<byte>, subAuths: seq<uint32>)
  {
    predicate Valid()
    {
      |idAuth| == 6 && |subAuths| <= MAX_SUB_AUTHS
    }
  }

  // ----- helpers of libcli/security/dom_sid.c

  /** dom_sid_split_rid. */
  function Domain(sid: Sid): (d: Sid)
    requires |sid.subAuths| > 0
  {
    sid.(subAuths := sid.subAuths[..|sid.subAuths| - 1])
  }

  function Rid(sid: Sid): uint32
    requires |sid.subAuths| > 0
  {
    sid.subAuths[|sid.subAuths| - 1]
  }

  /** sid_append_rid, when there is room. */
  function Append(domain: Sid, rid: uint32): (sid: Sid)
    ensures |sid.subAuths| == |domain.subAuths| + 1
    ensures Domain(sid) == domain && Rid(sid) == rid
  {
    var sid := domain.(subAuths := domain.subAuths + [rid]);
    assert sid.subAuths[..|sid.subAuths| - 1] == domain.subAuths;
    sid
  }

  lemma SplitAppend(sid: Sid)
    requires |sid.subAuths| > 0
    ensures Append(Domain(sid), Rid(sid)) == sid
  {
    assert sid.subAuths == sid.subAuths[..|sid.subAuths| - 1] + [Rid(sid)];
  }

  /** dom_sid_in_domain. */
  predicate InDomain(domain: Sid, sid: Sid)
  {
    |sid.subAuths| >= 2 && Domain(sid) == domain
  }

  // ----- the structures

  /** auth_user_info. */
  datatype Info = Info(accountName: Option<string>, userPrincipal: Option<string>, domainName: Option<string>,
                       dnsDomain: Option<string>, fullName: Option<string>, logonScript: Option<string>,
                       profilePath: Option<string>, homeDirectory: Option<string>, homeDrive: Option<string>,
                       logonServer: Option<string>, times: Times, logonCount: nat, badPasswordCount: nat,
                       acctFlags: uint32, authenticated: bool)

  datatype Times = Times(lastLogon: nat, lastLogoff: nat, acctExpiry: nat, lastPasswordChange: nat,
                         allowPasswordChange: nat, forcePasswordChange: nat)

  /** auth_user_info_dc: the user's SID, the primary group's, then all other groups. */
  datatype Token = Token(sids: seq<Sid>, info: Info, sessionKey: seq<byte>, lmSessionKey: seq<byte>)

  datatype RidAttr = RidAttr(rid: uint32, attributes: uint32)
  datatype SidAttr = SidAttr(sid: Option<Sid>, attributes: uint32)

  /** netr_SamBaseInfo. */
  datatype Base = Base(domainSid: Option<Sid>, rid: uint32, primaryGid: uint32, groups: seq<RidAttr>,
                       accountName: Option<string>, fullName: Option<string>, logonScript: Option<string>,
                       profilePath: Option<string>, homeDirectory: Option<string>, homeDrive: Option<string>,
                       logonServer: Option<string>, logonDomain: Option<string>, times: Times,
                       logonCount: nat, badPasswordCount: nat, userFlags: uint32, acctFlags: uint32,
                       key: seq<byte>, lmKey: seq<byte>)

  datatype Validation =
    | Sam2(base: Base)
    | Sam3(base: Base, sids: seq<SidAttr>)
    | Sam6(base: Base, sids: seq<SidAttr>, dnsDomain: Option<string>, principal: Option<string>)
    | OtherLevel

  datatype Result<T> = Ok(value: T) | InvalidParameter | InvalidLevel | NoMemory

  function Zeros(n: nat): (z: seq<byte>)
    ensures |z| == n && forall i :: 0 <= i < n ==> z[i] == 0
  {
    seq(n, _ => 0)
  }

  /** A key of the wrong length is sent as zeros. */
  function KeyField(key: seq<byte>, size: nat): (f: seq<byte>)
    ensures |f| == size
  {
    if |key| == size then key else Zeros(size)
  }

  function KeyFromField(field: seq<byte>): seq<byte>
  {
    if field == Zeros(|field|) then [] else field
  }

  // ----- what the conversions mean

  function InDomainOnly(domain: Sid, sids: seq<Sid>): seq<Sid>
  {
    if sids == [] then []
    else (if InDomain(domain, sids[0]) then [sids[0]] else []) + InDomainOnly(domain, sids[1..])
  }

  function ForeignOnly(domain: Sid, sids: seq<Sid>): seq<Sid>
  {
    if sids == [] then []
    else (if InDomain(domain, sids[0]) then [] else [sids[0]]) + ForeignOnly(domain, sids[1..])
  }

  /** The groups in the user's domain, as relative identifiers. */
  function Rids(domain: Sid, sids: seq<Sid>): seq<RidAttr>
  {
    if sids == [] then []
    else (if InDomain(domain, sids[0]) then [RidAttr(Rid(sids[0]), GROUP_ATTRIBUTES)] else []) + Rids(domain, sids[1..])
  }

  /** The groups of other domains, in full. */
  function Extras(domain: Sid, sids: seq<Sid>): seq<SidAttr>
  {
    if sids == [] then []
    else
      (if InDomain(domain, sids[0]) then [] else [SidAttr(Some(sids[0]), GROUP_ATTRIBUTES)])
      + Extras(domain, sids[1..])
  }

  function Others(sids: seq<Sid>): seq<Sid>
  {
    if |sids| > 2 then sids[2..] else []
  }

  predicate Convertible(t: Token)
  {
    && |t.sids| > 0 && |t.sids[0].subAuths| > 0
    && (|t.sids| > 1 ==> |t.sids[1].subAuths| > 0)
  }

  /** The converted token, field by field. */
  function Converted(t: Token): Validation
    requires Convertible(t)
  {
    var domain := Domain(t.sids[0]);
    var extras := Extras(domain, Others(t.sids));
    Sam6(Base(Some(domain), Rid(t.sids[0]), if |t.sids| > 1 then Rid(t.sids[1]) else Rid(t.sids[0]),
              Rids(domain, Others(t.sids)),
              t.info.accountName, t.info.fullName, t.info.logonScript, t.info.profilePath, t.info.homeDirectory,
              t.info.homeDrive, t.info.logonServer, t.info.domainName, t.info.times,
              t.info.logonCount, t.info.badPasswordCount,
              (if t.info.authenticated then 0 else GUEST) + (if extras == [] then 0 else EXTRA_SIDS),
              t.info.acctFlags, KeyField(t.sessionKey, KEY_SIZE), KeyField(t.lmSessionKey, LM_KEY_SIZE)),
         extras, t.info.dnsDomain, t.info.userPrincipal)
  }

  function FromRids(domain: Sid, rids: seq<RidAttr>): (sids: seq<Sid>)
    ensures |sids| == |rids|
  {
    if rids == [] then [] else [Append(domain, rids[0].rid)] + FromRids(domain, rids[1..])
  }

  function FromExtras(extras: seq<SidAttr>): seq<Sid>
  {
    if extras == [] then []
    else (if extras[0].sid.Some? then [extras[0].sid.value] else []) + FromExtras(extras[1..])
  }

  function ExtrasOf(v: Validation): seq<SidAttr>
  {
    if v.Sam3? || v.Sam6? then v.sids else []
  }

  function AccountName(base: Base, name: Option<string>): Option<string>
  {
    if base.accountName.Some? then base.accountName else name
  }

  /** When and how a validation is refused. */
  function Refusal(v: Validation, name: Option<string>): Option<Result<Token>>
  {
    if v.OtherLevel? then Some(InvalidLevel)
    else if v.base.domainSid.None? || |v.base.groups| > MAX_COUNT
            || |v.base.domainSid.value.subAuths| >= MAX_SUB_AUTHS
            || |ExtrasOf(v)| > MAX_COUNT then Some(InvalidParameter)
    else if AccountName(v.base, name).None? then Some(NoMemory)
    else None
  }

  function RebuiltInfo(base: Base, name: Option<string>, dns: Option<string>, principal: Option<string>,
                       authenticated: bool): Info
  {
    Info(AccountName(base, name), principal, base.logonDomain, dns, base.fullName, base.logonScript, base.profilePath,
         base.homeDirectory, base.homeDrive, base.logonServer, base.times, base.logonCount, base.badPasswordCount,
         base.acctFlags, authenticated && !HasBit(base.userFlags, GUEST))
  }

  /** The token made from a validation. */
  function Rebuilt(v: Validation, name: Option<string>, authenticated: bool): Token
    requires Refusal(v, name).None?
  {
    var domain := v.base.domainSid.value;
    Token([Append(domain, v.base.rid), Append(domain, v.base.primaryGid)]
          + FromRids(domain, v.base.groups) + FromExtras(ExtrasOf(v)),
          RebuiltInfo(v.base, name, if v.Sam6? then v.dnsDomain else None,
                      if v.Sam6? then v.principal else None, authenticated),
          KeyFromField(v.base.key), KeyFromField(v.base.lmKey))
  }

  // ----- the same, told field by field

  /** `sid` is `domain` with one more sub-authority, `rid`. */
  predicate Extends(domain: Sid, rid: uint32, sid: Sid)
  {
    sid.revision == domain.revision && sid.idAuth == domain.idAuth && sid.subAuths == domain.subAuths + [rid]
  }

  /** `sid` belongs to `domain`: all of it but a last sub-authority, which is not the first. */
  ghost predicate Belongs(domain: Sid, sid: Sid)
  {
    |sid.subAuths| >= 2 && Extends(domain, sid.subAuths[|sid.subAuths| - 1], sid)
  }

  /** Positions in increasing order. */
  predicate Climbing(at: seq<nat>, n: nat)
  {
    && (forall k {:trigger at[k]} :: 0 <= k < |at| ==> at[k] < n)
    && (forall k, l {:trigger at[k], at[l]} :: 0 <= k < l < |at| ==> at[k] < at[l])
  }

  /** The SIDs that are there, in their order; `at` says where. */
  ghost predicate PresentSids(extras: seq<SidAttr>, sids: seq<Sid>, at: seq<nat>)
  {
    && |at| == |sids| && Climbing(at, |extras|)
    && (forall k {:trigger at[k]} :: 0 <= k < |at| ==> extras[at[k]].sid == Some(sids[k]))
    && (forall i {:trigger extras[i]} :: 0 <= i < |extras| && extras[i].sid.Some? ==> i in at)
  }

  /** The groups of the domain, each as its last sub-authority with attributes 7. */
  ghost predicate DomainGroupsOf(domain: Sid, sids: seq<Sid>, groups: seq<RidAttr>, at: seq<nat>)
  {
    && |at| == |groups| && Climbing(at, |sids|)
    && (forall k {:trigger at[k]} :: 0 <= k < |at| ==>
      groups[k].attributes == 7 && Belongs(domain, sids[at[k]]) && Extends(domain, groups[k].rid, sids[at[k]]))
    && (forall i {:trigger sids[i]} :: 0 <= i < |sids| && Belongs(domain, sids[i]) ==> i in at)
  }

  /** The groups of other domains, each in full with attributes 7. */
  ghost predicate ForeignGroupsOf(domain: Sid, sids: seq<Sid>, extras: seq<SidAttr>, at: seq<nat>)
  {
    && |at| == |extras| && Climbing(at, |sids|)
    && (forall k {:trigger at[k]} :: 0 <= k < |at| ==>
      !Belongs(domain, sids[at[k]]) && extras[k] == SidAttr(Some(sids[at[k]]), 7))
    && (forall i {:trigger sids[i]} :: 0 <= i < |sids| && !Belongs(domain, sids[i]) ==> i in at)
  }

  lemma BelongsIs(domain: Sid, sid: Sid)
    ensures Belongs(domain, sid) <==> InDomain(domain, sid)
  {
    if |sid.subAuths| >= 2 {
      SplitAppend(sid);
    }
  }

  /** `out` holds what `f` makes of the elements of `s` that it takes, in order; `at` says
      which they are. */
  ghost predicate Selects<T, U>(s: seq<T>, out: seq<U>, at: seq<nat>, f: T -> Option<U>)
  {
    && |at| == |out| && Climbing(at, |s|)
    && (forall k {:trigger at[k]} :: 0 <= k < |at| ==> f(s[at[k]]) == Some(out[k]))
    && (forall i {:trigger s[i]} :: 0 <= i < |s| && f(s[i]).Some? ==> i in at)
  }

  function FilterMap<T, U>(s: seq<T>, f: T -> Option<U>): seq<U>
  {
    if s == [] then [] else (if f(s[0]).Some? then [f(s[0]).value] else []) + FilterMap(s[1..], f)
  }

  function Up(at: seq<nat>): (r: seq<nat>)
    ensures |r| == |at| && forall k {:trigger r[k]} :: 0 <= k < |at| ==> r[k] == at[k] + 1
  {
    seq(|at|, k requires 0 <= k < |at| => at[k] + 1)
  }

  /** An element in front moves the others on. */
  lemma SelectsUp<T, U>(s: seq<T>, out: seq<U>, at: seq<nat>, f: T -> Option<U>)
    requires s != [] && Selects(s[1..], out, at, f) && f(s[0]).None?
    ensures Selects(s, out, Up(at), f)
  {
    var r := Up(at);
    forall k | 0 <= k < |r|
      ensures r[k] < |s| && f(s[r[k]]) == Some(out[k])
    {
      assert s[1..][at[k]] == s[r[k]];
    }
    forall k, l | 0 <= k < l < |r|
      ensures r[k] < r[l]
    {
      assert at[k] < at[l];
    }
    forall i | 0 <= i < |s| && f(s[i]).Some?
      ensures i in r
    {
      UpHas(s, at, f, i, out);
    }
  }

  lemma UpHas<T, U>(s: seq<T>, at: seq<nat>, f: T -> Option<U>, i: nat, out: seq<U>)
    requires s != [] && Selects(s[1..], out, at, f) && 0 < i < |s| && f(s[i]).Some?
    ensures i in Up(at)
  {
    assert s[1..][i - 1] == s[i];
    var k :| 0 <= k < |at| && at[k] == i - 1;
    assert Up(at)[k] == i;
  }

  lemma SelectsFront<T, U>(s: seq<T>, out: seq<U>, at: seq<nat>, f: T -> Option<U>)
    requires s != [] && Selects(s[1..], out, at, f) && f(s[0]).Some?
    ensures Selects(s, [f(s[0]).value] + out, [0] + Up(at), f)
  {
    var (r, out') := ([0] + Up(at), [f(s[0]).value] + out);
    forall k | 0 <= k < |r|
      ensures r[k] < |s| && f(s[r[k]]) == Some(out'[k])
    {
      if k > 0 {
        assert r[k] == at[k - 1] + 1 && s[1..][at[k - 1]] == s[r[k]];
      }
    }
    forall k, l | 0 <= k < l < |r|
      ensures r[k] < r[l]
    {
      assert r[l] == at[l - 1] + 1;
      assert k > 0 ==> r[k] == at[k - 1] + 1 && at[k - 1] < at[l - 1];
    }
    forall i | 0 <= i < |s| && f(s[i]).Some?
      ensures i in r
    {
      if i > 0 {
        UpHas(s, at, f, i, out);
      }
    }
  }

  lemma {:induction false} FilterMapSelects<T, U>(s: seq<T>, f: T -> Option<U>) returns (at: seq<nat>)
    ensures Selects(s, FilterMap(s, f), at, f)
  {
    if s == [] {
      at := [];
    } else {
      var tail := FilterMapSelects(s[1..], f);
      if f(s[0]).Some? {
        SelectsFront(s, FilterMap(s[1..], f), tail, f);
        at := [0] + Up(tail);
      } else {
        SelectsUp(s, FilterMap(s[1..], f), tail, f);
        assert [] + FilterMap(s[1..], f) == FilterMap(s[1..], f);
        at := Up(tail);
      }
    }
  }

  function SidIn(): SidAttr -> Option<Sid>
  {
    (e: SidAttr) => e.sid
  }

  function MineIn(domain: Sid): Sid -> Option<RidAttr>
  {
    (sid: Sid) => if InDomain(domain, sid) then Some(RidAttr(Rid(sid), GROUP_ATTRIBUTES)) else None
  }

  function ForeignIn(domain: Sid): Sid -> Option<SidAttr>
  {
    (sid: Sid) => if InDomain(domain, sid) then None else Some(SidAttr(Some(sid), GROUP_ATTRIBUTES))
  }

  lemma {:induction false} FiltersAre(domain: Sid, sids: seq<Sid>)
    ensures Rids(domain, sids) == FilterMap(sids, MineIn(domain))
    ensures Extras(domain, sids) == FilterMap(sids, ForeignIn(domain))
  {
    if sids != [] {
      FiltersAre(domain, sids[1..]);
    }
  }

  lemma {:induction false} PresentAre(extras: seq<SidAttr>)
    ensures FromExtras(extras) == FilterMap(extras, SidIn())
  {
    if extras != [] {
      PresentAre(extras[1..]);
    }
  }

  lemma PresentIs(extras: seq<SidAttr>) returns (at: seq<nat>)
    ensures PresentSids(extras, FromExtras(extras), at)
  {
    PresentAre(extras);
    at := FilterMapSelects(extras, SidIn());
  }

  lemma DomainGroupsAre(domain: Sid, sids: seq<Sid>) returns (at: seq<nat>)
    ensures DomainGroupsOf(domain, sids, Rids(domain, sids), at)
  {
    FiltersAre(domain, sids);
    var groups := Rids(domain, sids);
    at := FilterMapSelects(sids, MineIn(domain));
    forall k | 0 <= k < |at|
      ensures groups[k].attributes == 7 && Belongs(domain, sids[at[k]])
      ensures Extends(domain, groups[k].rid, sids[at[k]])
    {
      assert MineIn(domain)(sids[at[k]]) == Some(groups[k]);
      BelongsIs(domain, sids[at[k]]);
    }
    forall i | 0 <= i < |sids|
      ensures Belongs(domain, sids[i]) <==> InDomain(domain, sids[i])
    {
      BelongsIs(domain, sids[i]);
    }
  }

  lemma ForeignGroupsAre(domain: Sid, sids: seq<Sid>) returns (at: seq<nat>)
    ensures ForeignGroupsOf(domain, sids, Extras(domain, sids), at)
  {
    FiltersAre(domain, sids);
    var extras := Extras(domain, sids);
    at := FilterMapSelects(sids, ForeignIn(domain));
    forall k | 0 <= k < |at|
      ensures !Belongs(domain, sids[at[k]]) && extras[k] == SidAttr(Some(sids[at[k]]), 7)
    {
      assert ForeignIn(domain)(sids[at[k]]) == Some(extras[k]);
      BelongsIs(domain, sids[at[k]]);
    }
    forall i | 0 <= i < |sids|
      ensures Belongs(domain, sids[i]) <==> InDomain(domain, sids[i])
    {
      BelongsIs(domain, sids[i]);
    }
  }

  /** Where the pieces of a conversion come from. */
  datatype Origins = Origins(groups: seq<nat>, extras: seq<nat>)

  /** What a converted token holds: the user's domain and relative ids, the groups of the
      domain, the other groups, the account information, and keys of the right length. */
  ghost predicate ConvertedFrom(t: Token, v: Validation, from: Origins)
  {
    && |t.sids| > 0 && v.Sam6? && v.base.domainSid.Some?
    && var (domain, others) := (v.base.domainSid.value, if |t.sids| > 2 then t.sids[2..] else []);
    && Extends(domain, v.base.rid, t.sids[0])
    && (if |t.sids| > 1 then
          t.sids[1].subAuths != [] && v.base.primaryGid == t.sids[1].subAuths[|t.sids[1].subAuths| - 1]
        else v.base.primaryGid == v.base.rid)
    && DomainGroupsOf(domain, others, v.base.groups, from.groups)
    && ForeignGroupsOf(domain, others, v.sids, from.extras)
    && v.base.userFlags == (if t.info.authenticated then 0 else 1) + (if v.sids == [] then 0 else 0x20)
    && v.base.key == (if |t.sessionKey| == 16 then t.sessionKey else Zeros(16))
    && v.base.lmKey == (if |t.lmSessionKey| == 8 then t.lmSessionKey else Zeros(8))
    && CarriesInfo(v, t.info)
  }

  /** The account information in a validation. */
  predicate CarriesInfo(v: Validation, info: Info)
    requires v.Sam6?
  {
    && v.dnsDomain == info.dnsDomain && v.principal == info.userPrincipal
    && v.base.accountName == info.accountName && v.base.fullName == info.fullName
    && v.base.logonScript == info.logonScript && v.base.profilePath == info.profilePath
    && v.base.homeDirectory == info.homeDirectory && v.base.homeDrive == info.homeDrive
    && v.base.logonServer == info.logonServer && v.base.logonDomain == info.domainName
    && v.base.times == info.times && v.base.logonCount == info.logonCount
    && v.base.badPasswordCount == info.badPasswordCount && v.base.acctFlags == info.acctFlags
  }

  lemma ConversionTold(t: Token) returns (from: Origins)
    requires Convertible(t)
    ensures ConvertedFrom(t, Converted(t), from)
  {
    var domain := Domain(t.sids[0]);
    SplitAppend(t.sids[0]);
    var groups := DomainGroupsAre(domain, Others(t.sids));
    var extras := ForeignGroupsAre(domain, Others(t.sids));
    from := Origins(groups, extras);
  }

  /** The extra SIDs a validation has: none at level 2. */
  function ListedSids(v: Validation): seq<SidAttr>
    requires !v.OtherLevel?
  {
    match v
    case Sam2(_) => []
    case Sam3(_, sids) => sids
    case Sam6(_, sids, _, _) => sids
  }

  /** What a token made from a validation holds: the user, the primary group and the groups
      in the validation's domain, then its other SIDs as far as they are there. */
  ghost predicate RebuiltSids(v: Validation, sids: seq<Sid>, at: seq<nat>)
  {
    && !v.OtherLevel? && v.base.domainSid.Some?
    && var (domain, n) := (v.base.domainSid.value, 2 + |v.base.groups|);
    && |sids| >= n && Extends(domain, v.base.rid, sids[0]) && Extends(domain, v.base.primaryGid, sids[1])
    && (forall i {:trigger v.base.groups[i]} :: 0 <= i < |v.base.groups| ==>
      Extends(domain, v.base.groups[i].rid, sids[2 + i]))
    && PresentSids(ListedSids(v), sids[n..], at)
  }

  /** The rest of it: the account information, the DNS domain and the principal of level 6
      only, and keys that are not all zero. */
  ghost predicate RebuiltRest(v: Validation, name: Option<string>, authenticated: bool, t: Token)
    requires !v.OtherLevel?
  {
    var (base, info) := (v.base, t.info);
    && info.accountName == (if base.accountName.Some? then base.accountName else name)
    && (if v.Sam6? then info.dnsDomain == v.dnsDomain && info.userPrincipal == v.principal
        else info.dnsDomain == None && info.userPrincipal == None)
    && info.domainName == base.logonDomain && info.fullName == base.fullName
    && info.logonScript == base.logonScript && info.profilePath == base.profilePath
    && info.homeDirectory == base.homeDirectory && info.homeDrive == base.homeDrive
    && info.logonServer == base.logonServer && info.times == base.times
    && info.logonCount == base.logonCount && info.badPasswordCount == base.badPasswordCount
    && info.acctFlags == base.acctFlags
    && info.authenticated == (authenticated && base.userFlags % 2 == 0)
    && t.sessionKey == (if forall i :: 0 <= i < |base.key| ==> base.key[i] == 0 then [] else base.key)
    && t.lmSessionKey == (if forall i :: 0 <= i < |base.lmKey| ==> base.lmKey[i] == 0 then [] else base.lmKey)
  }

  lemma {:induction false} FromRidsAre(domain: Sid, rids: seq<RidAttr>, i: nat)
    requires i < |rids|
    ensures Extends(domain, rids[i].rid, FromRids(domain, rids)[i])
  {
    if i > 0 {
      FromRidsAre(domain, rids[1..], i - 1);
    }
  }

  lemma RebuiltSidsTold(v: Validation, name: Option<string>, authenticated: bool) returns (at: seq<nat>)
    requires Refusal(v, name).None?
    ensures RebuiltSids(v, Rebuilt(v, name, authenticated).sids, at)
  {
    var (domain, groups) := (v.base.domainSid.value, v.base.groups);
    at := PresentIs(ExtrasOf(v));
    var sids := Rebuilt(v, name, authenticated).sids;
    var (mine, extras) := (FromRids(domain, groups), FromExtras(ExtrasOf(v)));
    forall i | 0 <= i < |groups|
      ensures Extends(domain, groups[i].rid, sids[2 + i])
    {
      FromRidsAre(domain, groups, i);
      assert sids[2 + i] == mine[i];
    }
    assert sids[2 + |groups|..] == extras;
    assert ListedSids(v) == ExtrasOf(v);
  }

  lemma RebuiltRestTold(v: Validation, name: Option<string>, authenticated: bool)
    requires Refusal(v, name).None?
    ensures RebuiltRest(v, name, authenticated, Rebuilt(v, name, authenticated))
  {
    BitsInUse(v.base.userFlags);
    ZeroKey(v.base.key);
    ZeroKey(v.base.lmKey);
  }

  lemma ZeroKey(key: seq<byte>)
    ensures KeyFromField(key) == if forall i :: 0 <= i < |key| ==> key[i] == 0 then [] else key
  {
    var zeros := Zeros(|key|);
    if forall i :: 0 <= i < |key| ==> key[i] == 0 {
      assert key == zeros;
    }
  }

  // ----- the code

  /** The loop over the groups that are in the user's domain. */
  method DomainGroups(domain: Sid, sids: seq<Sid>) returns (groups: seq<RidAttr>)
    requires |sids| > 2
    ensures groups == Rids(domain, Others(sids))
  {
    groups := [];
    var i := 2;
    while i < |sids|
      invariant 2 <= i <= |sids|
      invariant groups + Rids(domain, sids[i..]) == Rids(domain, sids[2..])
    {
      var sid := sids[i];
      RidsStep(domain, sids, i, groups);
      i := i + 1;
      if !InDomain(domain, sid) {
        continue;
      }
      groups := groups + [RidAttr(sid.subAuths[|sid.subAuths| - 1], GROUP_ATTRIBUTES)];
    }
  }

  /** The loop over the groups that are not. */
  method ForeignGroups(domain: Sid, sids: seq<Sid>) returns (extras: seq<SidAttr>)
    ensures extras == Extras(domain, Others(sids))
  {
    extras := [];
    var i := 2;
    while i < |sids|
      invariant 2 <= i && (i <= |sids| || (i == 2 && |sids| < 2))
      invariant |sids| > 2 ==> extras + Extras(domain, sids[i..]) == Extras(domain, sids[2..])
      invariant |sids| <= 2 ==> extras == []
    {
      var sid := sids[i];
      ExtrasStep(domain, sids, i, extras);
      i := i + 1;
      if InDomain(domain, sid) {
        continue;
      }
      extras := extras + [SidAttr(Some(sid), GROUP_ATTRIBUTES)];
    }
  }

  /** auth_convert_user_info_dc_sambaseinfo. */
  method ConvertBase(t: Token) returns (r: Result<Base>)
    ensures r.Ok? <==> Convertible(t)
    ensures r.Ok? ==> r.value == Converted(t).base.(userFlags := if t.info.authenticated then 0 else GUEST)
    ensures !r.Ok? ==> r == InvalidParameter
  {
    if |t.sids| == 0 || |t.sids[0].subAuths| == 0 {
      return InvalidParameter;
    }
    var (domain, rid) := (Domain(t.sids[0]), Rid(t.sids[0]));
    var primaryGid := rid;
    if |t.sids| > 1 {
      if |t.sids[1].subAuths| == 0 {
        return InvalidParameter;
      }
      primaryGid := Rid(t.sids[1]);
    }
    var groups: seq<RidAttr> := [];
    if |t.sids| > 2 {
      groups := DomainGroups(domain, t.sids);
    }
    var userFlags: uint32 := 0;
    if !t.info.authenticated {
      userFlags := GUEST;
    }
    var (key, lmKey) := (Zeros(KEY_SIZE), Zeros(LM_KEY_SIZE));
    if |t.sessionKey| == KEY_SIZE {
      key := t.sessionKey;
    }
    if |t.lmSessionKey| == LM_KEY_SIZE {
      lmKey := t.lmSessionKey;
    }
    r := Ok(Base(Some(domain), rid, primaryGid, groups,
                 t.info.accountName, t.info.fullName, t.info.logonScript, t.info.profilePath, t.info.homeDirectory,
                 t.info.homeDrive, t.info.logonServer, t.info.domainName, t.info.times,
                 t.info.logonCount, t.info.badPasswordCount, userFlags, t.info.acctFlags, key, lmKey));
  }

  lemma RidsStep(domain: Sid, sids: seq<Sid>, i: nat, done: seq<RidAttr>)
    requires i < |sids|
    ensures done + Rids(domain, sids[i..]) ==
      (if InDomain(domain, sids[i]) then done + [RidAttr(Rid(sids[i]), GROUP_ATTRIBUTES)] else done)
      + Rids(domain, sids[i + 1..])
  {
    var rest := Rids(domain, sids[i + 1..]);
    assert sids[i..][1..] == sids[i + 1..];
    assert [] + rest == rest;
  }

  lemma ExtrasStep(domain: Sid, sids: seq<Sid>, i: nat, done: seq<SidAttr>)
    requires i < |sids|
    ensures done + Extras(domain, sids[i..]) ==
      (if InDomain(domain, sids[i]) then done else done + [SidAttr(Some(sids[i]), GROUP_ATTRIBUTES)])
      + Extras(domain, sids[i + 1..])
  {
    assert sids[i..][1..] == sids[i + 1..];
  }

  /** auth_convert_user_info_dc_saminfo6. */
  method ConvertSam6(t: Token) returns (r: Result<Validation>, ghost from: Origins)
    ensures r.Ok? <==> |t.sids| > 0 && t.sids[0].subAuths != [] && (|t.sids| > 1 ==> t.sids[1].subAuths != [])
    ensures r.Ok? ==> r.value == Converted(t) && ConvertedFrom(t, r.value, from)
    ensures !r.Ok? ==> r == InvalidParameter
  {
    from := Origins([], []);
    var b := ConvertBase(t);
    if !b.Ok? {
      return InvalidParameter, from;
    }
    from := ConversionTold(t);
    var base, domain := b.value, b.value.domainSid.value;
    var extras := ForeignGroups(domain, t.sids);
    if extras != [] {
      base := base.(userFlags := base.userFlags + EXTRA_SIDS);
    }
    r := Ok(Sam6(base, extras, t.info.dnsDomain, t.info.userPrincipal));
  }

  /** The first half of make_user_info_dc_netlogon_validation: the SIDs. */
  method RebuildSids(base: Base, domain: Sid, extras: seq<SidAttr>) returns (r: Option<seq<Sid>>)
    requires base.domainSid == Some(domain)
    ensures r == if |base.groups| > MAX_COUNT || |domain.subAuths| >= MAX_SUB_AUTHS || |extras| > MAX_COUNT then None
                 else Some([Append(domain, base.rid), Append(domain, base.primaryGid)]
                           + FromRids(domain, base.groups) + FromExtras(extras))
  {
    if |base.groups| > MAX_COUNT {
      return None;
    }
    if |domain.subAuths| >= MAX_SUB_AUTHS {
      return None;
    }
    var sids := [Append(domain, base.rid), Append(domain, base.primaryGid)];
    sids := AddGroups(domain, base.groups, sids);
    if |extras| > MAX_COUNT {
      return None;
    }
    sids := AddExtras(extras, sids);
    r := Some(sids);
  }

  method AddGroups(domain: Sid, groups: seq<RidAttr>, head: seq<Sid>) returns (sids: seq<Sid>)
    ensures sids == head + FromRids(domain, groups)
  {
    sids := head;
    assert groups[0..] == groups;
    for i := 0 to |groups|
      invariant sids + FromRids(domain, groups[i..]) == head + FromRids(domain, groups)
    {
      FromRidsStep(domain, groups, i, sids);
      sids := sids + [Append(domain, groups[i].rid)];
    }
    assert sids + [] == sids;
  }

  /** Entries without a SID are skipped. */
  method AddExtras(extras: seq<SidAttr>, head: seq<Sid>) returns (sids: seq<Sid>)
    ensures sids == head + FromExtras(extras)
  {
    sids := head;
    assert extras[0..] == extras;
    for i := 0 to |extras|
      invariant sids + FromExtras(extras[i..]) == head + FromExtras(extras)
    {
      FromExtrasStep(extras, i, sids);
      if extras[i].sid.Some? {
        sids := sids + [extras[i].sid.value];
      }
    }
    assert sids + [] == sids;
  }

  lemma FromRidsStep(domain: Sid, rids: seq<RidAttr>, i: nat, done: seq<Sid>)
    requires i < |rids|
    ensures done + FromRids(domain, rids[i..]) == done + [Append(domain, rids[i].rid)] + FromRids(domain, rids[i + 1..])
  {
    assert rids[i..][1..] == rids[i + 1..];
  }

  lemma FromExtrasStep(extras: seq<SidAttr>, i: nat, done: seq<Sid>)
    requires i < |extras|
    ensures done + FromExtras(extras[i..]) ==
      done + (if extras[i].sid.Some? then [extras[i].sid.value] else []) + FromExtras(extras[i + 1..])
  {
    assert extras[i..][1..] == extras[i + 1..];
  }

  /** make_user_info_dc_netlogon_validation, with make_user_info_SamBaseInfo. */
  method Rebuild(v: Validation, name: Option<string>, authenticated: bool)
    returns (r: Result<Token>, ghost at: seq<nat>)
    ensures r == InvalidLevel <==> v.OtherLevel?
    ensures r == InvalidParameter <==>
      && !v.OtherLevel?
      && (v.base.domainSid.None? || |v.base.domainSid.value.subAuths| >= 15 || |v.base.groups| > 0xffff
          || |ListedSids(v)| > 0xffff)
    ensures r == NoMemory ==> v.base.accountName.None? && name.None?
    ensures r.Ok? ==>
      && (v.base.accountName.Some? || name.Some?)
      && RebuiltSids(v, r.value.sids, at) && RebuiltRest(v, name, authenticated, r.value)
    ensures if Refusal(v, name).Some? then r == Refusal(v, name).value else r == Ok(Rebuilt(v, name, authenticated))
  {
    at := [];
    if Refusal(v, name).None? {
      at := RebuiltSidsTold(v, name, authenticated);
      RebuiltRestTold(v, name, authenticated);
    }
    var extras, dns, principal := [], None, None;
    match v {
      case Sam2(_) =>
      case Sam3(_, sids) => extras := sids;
      case Sam6(_, sids, d, p) => extras, dns, principal := sids, d, p;
      case OtherLevel => return InvalidLevel, at;
    }
    if v.base.domainSid.None? {
      return InvalidParameter, at;
    }
    var sids := RebuildSids(v.base, v.base.domainSid.value, extras);
    if sids.None? {
      return InvalidParameter, at;
    }
    var accountName := if v.base.accountName.Some? then v.base.accountName else name;
    if accountName.None? {
      return NoMemory, at;
    }
    var info := Info(accountName, principal, v.base.logonDomain, dns, v.base.fullName, v.base.logonScript,
                     v.base.profilePath, v.base.homeDirectory, v.base.homeDrive, v.base.logonServer, v.base.times,
                     v.base.logonCount, v.base.badPasswordCount, v.base.acctFlags,
                     authenticated && !HasBit(v.base.userFlags, GUEST));
    r := Ok(Token(sids.value, info, KeyFromField(v.base.key), KeyFromField(v.base.lmKey)));
  }

  // ----- there and back

  lemma {:induction false} RidsBack(domain: Sid, sids: seq<Sid>)
    ensures FromRids(domain, Rids(domain, sids)) == InDomainOnly(domain, sids)
    ensures |Rids(domain, sids)| <= |sids|
  {
    if sids != [] {
      RidsBack(domain, sids[1..]);
      if InDomain(domain, sids[0]) {
        SplitAppend(sids[0]);
        assert Rids(domain, sids)[1..] == Rids(domain, sids[1..]);
      } else {
        assert Rids(domain, sids) == Rids(domain, sids[1..]);
      }
    }
  }

  lemma {:induction false} ExtrasBack(domain: Sid, sids: seq<Sid>)
    ensures FromExtras(Extras(domain, sids)) == ForeignOnly(domain, sids)
  {
    if sids != [] {
      ExtrasBack(domain, sids[1..]);
      if InDomain(domain, sids[0]) {
        assert Extras(domain, sids) == Extras(domain, sids[1..]);
      } else {
        assert Extras(domain, sids)[1..] == Extras(domain, sids[1..]);
      }
    }
  }

  /** Splitting by domain loses nothing. */
  lemma {:induction false} PartitionKeepsAll(domain: Sid, sids: seq<Sid>)
    ensures multiset(InDomainOnly(domain, sids)) + multiset(ForeignOnly(domain, sids)) == multiset(sids)
  {
    if sids != [] {
      PartitionKeepsAll(domain, sids[1..]);
      assert sids == [sids[0]] + sids[1..];
    }
  }

  /** Splitting what has already been split and joined gives the same two parts. */
  lemma {:induction false} RidsAgain(domain: Sid, a: seq<Sid>, b: seq<Sid>)
    requires forall i :: 0 <= i < |b| ==> !InDomain(domain, b[i])
    ensures Rids(domain, InDomainOnly(domain, a) + b) == Rids(domain, a)
  {
    if a == [] {
      assert [] + b == b;
      NoRids(domain, b);
    } else {
      RidsAgain(domain, a[1..], b);
      var rest := InDomainOnly(domain, a[1..]);
      if InDomain(domain, a[0]) {
        assert InDomainOnly(domain, a) + b == [a[0]] + (rest + b);
        assert ([a[0]] + (rest + b))[1..] == rest + b;
      } else {
        assert InDomainOnly(domain, a) == rest;
      }
    }
  }

  lemma {:induction false} NoRids(domain: Sid, b: seq<Sid>)
    requires forall i :: 0 <= i < |b| ==> !InDomain(domain, b[i])
    ensures Rids(domain, b) == []
  {
    if b != [] {
      NoRids(domain, b[1..]);
    }
  }

  lemma {:induction false} ExtrasAgain(domain: Sid, a: seq<Sid>, c: seq<Sid>)
    requires forall i :: 0 <= i < |a| ==> InDomain(domain, a[i])
    ensures Extras(domain, a + c) == Extras(domain, c)
  {
    if a == [] {
      assert [] + c == c;
    } else {
      assert (a + c)[1..] == a[1..] + c;
      ExtrasAgain(domain, a[1..], c);
    }
  }

  lemma {:induction false} ForeignAgain(domain: Sid, sids: seq<Sid>)
    ensures Extras(domain, ForeignOnly(domain, sids)) == Extras(domain, sids)
    ensures forall i :: 0 <= i < |ForeignOnly(domain, sids)| ==> !InDomain(domain, ForeignOnly(domain, sids)[i])
  {
    if sids != [] {
      ForeignAgain(domain, sids[1..]);
      if !InDomain(domain, sids[0]) {
        assert ForeignOnly(domain, sids)[1..] == ForeignOnly(domain, sids[1..]);
      } else {
        assert ForeignOnly(domain, sids) == ForeignOnly(domain, sids[1..]);
      }
    }
  }

  lemma {:induction false} DomainPart(domain: Sid, sids: seq<Sid>)
    ensures forall i :: 0 <= i < |InDomainOnly(domain, sids)| ==> InDomain(domain, InDomainOnly(domain, sids)[i])
  {
    if sids != [] {
      DomainPart(domain, sids[1..]);
    }
  }

  /** What the protocol's counters and the size of a SID allow. */
  predicate WithinLimits(t: Token)
    requires Convertible(t)
  {
    var domain := Domain(t.sids[0]);
    && |t.sids[0].subAuths| <= MAX_SUB_AUTHS
    && |InDomainOnly(domain, Others(t.sids))| <= MAX_COUNT
    && |ForeignOnly(domain, Others(t.sids))| <= MAX_COUNT
  }

  lemma {:induction false} SameCounts(domain: Sid, sids: seq<Sid>)
    ensures |Rids(domain, sids)| == |InDomainOnly(domain, sids)|
    ensures |Extras(domain, sids)| == |ForeignOnly(domain, sids)|
  {
    if sids != [] {
      SameCounts(domain, sids[1..]);
    }
  }

  /** A convertible token is accepted back exactly when it is within the limits and an
      account name is known. */
  lemma AcceptedBack(t: Token, name: Option<string>)
    requires Convertible(t)
    ensures Refusal(Converted(t), name).None? <==> WithinLimits(t) && (t.info.accountName.Some? || name.Some?)
  {
    SameCounts(Domain(t.sids[0]), Others(t.sids));
  }

  /** The SIDs after a round trip: the user; the primary group, moved into the user's
      domain; then the groups of the domain and then the others, each in their order. */
  function SidsBack(t: Token): seq<Sid>
    requires Convertible(t)
  {
    var domain := Domain(t.sids[0]);
    [t.sids[0], Append(domain, if |t.sids| > 1 then Rid(t.sids[1]) else Rid(t.sids[0]))]
    + InDomainOnly(domain, Others(t.sids)) + ForeignOnly(domain, Others(t.sids))
  }

  lemma SidsRoundTrip(t: Token, name: Option<string>)
    requires Convertible(t) && Refusal(Converted(t), name).None?
    ensures Rebuilt(Converted(t), name, true).sids == SidsBack(t)
  {
    var domain := Domain(t.sids[0]);
    SplitAppend(t.sids[0]);
    RidsBack(domain, Others(t.sids));
    ExtrasBack(domain, Others(t.sids));
  }

  /** No SID is lost, added or changed by a round trip if and only if the token has a
      primary group and it is in the user's domain. */
  lemma RoundTripKeepsSids(t: Token, name: Option<string>)
    requires Convertible(t) && Refusal(Converted(t), name).None?
    ensures multiset(Rebuilt(Converted(t), name, true).sids) == multiset(t.sids)
      <==> |t.sids| >= 2 && Domain(t.sids[1]) == Domain(t.sids[0])
  {
    SidsRoundTrip(t, name);
    var domain, others := Domain(t.sids[0]), Others(t.sids);
    var second := Append(domain, if |t.sids| > 1 then Rid(t.sids[1]) else Rid(t.sids[0]));
    var (mine, foreign) := (InDomainOnly(domain, others), ForeignOnly(domain, others));
    PartitionKeepsAll(domain, others);
    if |t.sids| >= 2 {
      SplitAppend(t.sids[1]);
      SecondDecides(t.sids[0], second, t.sids[1], mine, foreign, others);
      FirstTwo(t.sids);
    } else {
      assert |multiset(SidsBack(t))| >= 2;
    }
  }

  lemma FirstTwo(sids: seq<Sid>)
    requires |sids| >= 2
    ensures sids == [sids[0], sids[1]] + Others(sids)
  {
  }

  lemma SecondDecides<T>(a: T, b: T, c: T, x: seq<T>, y: seq<T>, z: seq<T>)
    requires multiset(x) + multiset(y) == multiset(z)
    ensures multiset([a, b] + x + y) == multiset([a, c] + z) <==> b == c
  {
    PairMultiset(a, b, x, y);
    PairMultiset(a, c, z, []);
    assert [a, c] + z + [] == [a, c] + z;
    var (m, n) := (multiset([a, b] + x + y), multiset([a, c] + z));
    if b != c {
      assert m[b] == n[b] + 1;
    }
  }

  lemma PairMultiset<T>(a: T, b: T, x: seq<T>, y: seq<T>)
    ensures multiset([a, b] + x + y) == multiset{a} + multiset{b} + (multiset(x) + multiset(y))
  {
    assert multiset([a, b]) == multiset{a} + multiset{b};
    assert multiset([a, b] + x + y) == multiset([a, b]) + multiset(x) + multiset(y);
  }

  /** Everything else a round trip keeps: the whole account information once an account
      name is there, and session keys of the right length that are not all zero. */
  lemma RoundTripKeepsInfo(t: Token, name: Option<string>)
    requires Convertible(t) && Refusal(Converted(t), name).None?
    ensures var back := Rebuilt(Converted(t), name, true);
      && back.info == t.info.(accountName := if t.info.accountName.Some? then t.info.accountName else name)
      && back.sessionKey == (if |t.sessionKey| == KEY_SIZE && t.sessionKey != Zeros(KEY_SIZE) then t.sessionKey else [])
      && back.lmSessionKey ==
         (if |t.lmSessionKey| == LM_KEY_SIZE && t.lmSessionKey != Zeros(LM_KEY_SIZE) then t.lmSessionKey else [])
  {
  }

  lemma KeyAgain(key: seq<byte>, size: nat)
    ensures KeyField(KeyFromField(KeyField(key, size)), size) == KeyField(key, size)
  {
  }

  /** The groups of a token that has been there and back convert as before. */
  lemma GroupsAgain(t: Token)
    requires Convertible(t)
    ensures var domain := Domain(t.sids[0]);
      && Others(SidsBack(t)) == InDomainOnly(domain, Others(t.sids)) + ForeignOnly(domain, Others(t.sids))
      && Rids(domain, Others(SidsBack(t))) == Rids(domain, Others(t.sids))
      && Extras(domain, Others(SidsBack(t))) == Extras(domain, Others(t.sids))
  {
    var domain, others := Domain(t.sids[0]), Others(t.sids);
    var (a, b) := (InDomainOnly(domain, others), ForeignOnly(domain, others));
    assert Others(SidsBack(t)) == a + b;
    ForeignAgain(domain, others);
    DomainPart(domain, others);
    RidsAgain(domain, others, b);
    ExtrasAgain(domain, a, b);
  }

  /** Converting again after a round trip gives the same structure, if and only if the
      account name was set in the first place. */
  lemma ConvertTwice(t: Token, name: Option<string>)
    requires Convertible(t) && Refusal(Converted(t), name).None?
    ensures var back := Rebuilt(Converted(t), name, true);
      Convertible(back) && (Converted(back) == Converted(t) <==> t.info.accountName.Some?)
  {
    SidsRoundTrip(t, name);
    RoundTripKeepsInfo(t, name);
    GroupsAgain(t);
    KeyAgain(t.sessionKey, KEY_SIZE);
    KeyAgain(t.lmSessionKey, LM_KEY_SIZE);
  }
}
