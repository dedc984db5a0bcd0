/** The list of Group Policy Objects that apply to an account, in the order of their
    application (libgpo/gpo_ldap.c): Local, Site, Domain, Organizational Unit, the
    enforced ones last. */
module GpoList {
  import opened Wire
  import opened GpoSec
  import opened Wrappers

  const LINK_DISABLED := 1
  const LINK_ENFORCED := 2
  const BLOCK_INHERITANCE := 1
  const LIST_MACHINE := 1
  const LIST_SITEONLY := 2

  // ----- what the directory holds

  datatype Link = Link(name: string, opts: uint32)
  datatype GpLink = GpLink(opts: uint32, links: seq<Link>)
  datatype Gpo = Gpo(name: string, displayName: string, dacl: Option<seq<Ace>>)

  /** Fetching a policy object gives it, or says that it is empty (an attribute is
      missing), or fails with some other error. */
  datatype GpoResult = Found(gpo: Gpo) | Empty | Failing(code: int)

  /** Containers without a readable link attribute are not in `links`. */
  datatype Directory = Directory(links: map<string, GpLink>, gpos: map<string, GpoResult>,
                                 siteDn: Option<string>, bindPath: string)
  {
    function GetGpo(name: string): GpoResult
    {
      if name in gpos then gpos[name] else Failing(NO_SUCH_OBJECT)
    }
  }

  const NO_SUCH_OBJECT := 32

  datatype LinkType = Site | Domain | Ou | Local
  datatype Applied = Applied(gpo: Gpo, link: string, linkType: LinkType)
  datatype Container = Container(dn: string, linkType: LinkType)

  datatype Status = Ok | InvalidParameter | InvalidCredentials | NoSite | Ldap(code: int)

  const LOCAL_POLICY := Applied(Gpo("Local Policy", "Local Policy", None), "", Local)

  // ----- distinguished names

  function IndexOf(s: string, c: char): (i: nat)
    ensures i <= |s|
    ensures c !in s[..i]
    ensures i < |s| ==> s[i] == c
  {
    if s == [] || s[0] == c then 0 else
      var i := IndexOf(s[1..], c);
      assert s[..i + 1] == [s[0]] + s[1..][..i];
      i + 1
  }

  /** ads_parent_dn: what follows the first comma. */
  function Parent(dn: string): (p: Option<string>)
    ensures p.Some? <==> ',' in dn
    ensures p.Some? ==> |p.value| < |dn|
  {
    var i := IndexOf(dn, ',');
    if i < |dn| then Some(dn[i + 1..]) else None
  }

  /** It follows the first comma, and exists exactly when there is one. */
  lemma ParentIs(dn: string)
    ensures Parent(dn).Some? <==> ',' in dn
    ensures Parent(dn).Some? ==>
      exists first :: ',' !in first && dn == first + [','] + Parent(dn).value
  {
    if Parent(dn).Some? {
      var i := IndexOf(dn, ',');
      var first := dn[..i];
      assert ',' !in first && dn == first + [','] + Parent(dn).value;
    }
  }

  /** Two characters have the same lower case if they are the same, or an ASCII letter and
      its capital. */
  lemma SameLetter(c: char, d: char)
    ensures LowerChar(c) == LowerChar(d) <==>
      || c == d
      || ('A' <= c <= 'Z' && d as int == c as int + 32)
      || ('A' <= d <= 'Z' && c as int == d as int + 32)
  {
  }

  function LowerChar(c: char): char
  {
    if 'A' <= c <= 'Z' then c - 'A' + 'a' else c
  }

  predicate EqualNoCase(a: string, b: string)
  {
    |a| == |b| && forall i :: 0 <= i < |a| ==> LowerChar(a[i]) == LowerChar(b[i])
  }

  /** The walk up from an account ends at the parent of the directory's base. */
  predicate AtTop(dn: string, bindPath: string)
  {
    Parent(bindPath).Some? && EqualNoCase(dn, Parent(bindPath).value)
  }

  /** The containers above `dn`, innermost first. */
  function Above(dn: string, bindPath: string): seq<string>
    decreases |dn|
  {
    var p := Parent(dn);
    if p.None? || AtTop(p.value, bindPath) then [] else [p.value] + Above(p.value, bindPath)
  }

  /** Those of a kind, told from the first component of their names. */
  function Named(dns: seq<string>, prefix: string, linkType: LinkType): (cs: seq<Container>)
    ensures forall c :: c in cs ==> c.linkType == linkType && prefix <= c.dn && c.dn in dns
    ensures forall dn :: dn in dns && prefix <= dn ==> Container(dn, linkType) in cs
  {
    if dns == [] then []
    else (if prefix <= dns[0] then [Container(dns[0], linkType)] else []) + Named(dns[1..], prefix, linkType)
  }

  lemma {:induction false} NamedAppend(a: seq<string>, b: seq<string>, prefix: string, linkType: LinkType)
    ensures Named(a + b, prefix, linkType) == Named(a, prefix, linkType) + Named(b, prefix, linkType)
  {
    if a == [] {
      assert a + b == b;
    } else {
      assert (a + b)[1..] == a[1..] + b;
      NamedAppend(a[1..], b, prefix, linkType);
    }
  }

  // ----- the declarative form

  /** One link as met on some container; `blocked` says that a container between it
      and the account blocks inheritance. */
  datatype Occurrence = Occurrence(link: Link, container: Container, blocked: bool)
  {
    predicate Enforced()
    {
      HasBit(link.opts, LINK_ENFORCED)
    }

    /** Disabled links are out, and blocked ones unless they are enforced. */
    predicate InForce()
    {
      !HasBit(link.opts, LINK_DISABLED) && (Enforced() || !blocked)
    }

    /** What it adds to the enforced or to the ordinary policies. */
    function Contribution(dir: Directory, token: Option<set<string>>, enforced: bool): seq<Applied>
    {
      if InForce() && Enforced() == enforced && dir.GetGpo(link.name).Found?
         && Filter(dir.GetGpo(link.name).gpo.dacl, token) == Apply
      then [Applied(dir.GetGpo(link.name).gpo, container.dn, container.linkType)]
      else []
    }

    /** Its policy object is needed and cannot be fetched. */
    predicate Fails(dir: Directory)
    {
      InForce() && dir.GetGpo(link.name).Failing?
    }
  }

  /** The container's links can be read and it blocks inheritance from further out. */
  predicate Blocks(dir: Directory, c: Container)
  {
    c.dn in dir.links && HasBit(dir.links[c.dn].opts, BLOCK_INHERITANCE)
  }

  predicate SomeBlocks(dir: Directory, cs: seq<Container>)
  {
    exists i :: 0 <= i < |cs| && Blocks(dir, cs[i])
  }

  function LinksOf(gpLink: GpLink, c: Container, blocked: bool): (os: seq<Occurrence>)
    ensures |os| == |gpLink.links|
  {
    seq(|gpLink.links|, i requires 0 <= i < |gpLink.links| => Occurrence(gpLink.links[i], c, blocked))
  }

  function Readable(dir: Directory, c: Container, blocked: bool): seq<Occurrence>
  {
    if c.dn in dir.links then LinksOf(dir.links[c.dn], c, blocked) else []
  }

  /** The links of the containers `cs`, listed from the last container to the first:
      the outermost first, each container's links in their own order.  A container is
      blocked when any container before it in `cs` blocks. */
  function Occurrences(dir: Directory, cs: seq<Container>): seq<Occurrence>
  {
    if cs == [] then []
    else
      var inner := cs[..|cs| - 1];
      Readable(dir, cs[|cs| - 1], SomeBlocks(dir, inner)) + Occurrences(dir, inner)
  }

  function Select(dir: Directory, token: Option<set<string>>, os: seq<Occurrence>, enforced: bool): seq<Applied>
  {
    if os == [] then [] else os[0].Contribution(dir, token, enforced) + Select(dir, token, os[1..], enforced)
  }

  predicate NoneFails(dir: Directory, os: seq<Occurrence>)
  {
    forall i :: 0 <= i < |os| ==> !os[i].Fails(dir)
  }

  lemma {:induction false} SelectAppend(dir: Directory, token: Option<set<string>>, a: seq<Occurrence>,
                                        b: seq<Occurrence>, enforced: bool)
    ensures Select(dir, token, a + b, enforced) == Select(dir, token, a, enforced) + Select(dir, token, b, enforced)
  {
    if a == [] {
      assert a + b == b;
    } else {
      assert (a + b)[1..] == a[1..] + b;
      SelectAppend(dir, token, a[1..], b, enforced);
    }
  }

  /** The organizational units above the account and then its domains, innermost first. */
  function Walked(dir: Directory, dn: string): seq<Container>
  {
    var above := Above(dn, dir.bindPath);
    Named(above, "OU=", Ou) + Named(above, "DC=", Domain)
  }

  /** All containers in the order they are met: the site comes last. */
  function Met(dir: Directory, dn: string, flags: uint32): seq<Container>
  {
    Walked(dir, dn)
    + (if HasBit(flags, LIST_MACHINE) && dir.siteDn.Some? then [Container(dir.siteDn.value, Site)] else [])
  }

  /** Asking for the site only drops nothing but the local policy, and only when the
      site's links could be read. */
  predicate WithLocal(dir: Directory, flags: uint32)
  {
    !(HasBit(flags, LIST_MACHINE) && HasBit(flags, LIST_SITEONLY)
      && dir.siteDn.Some? && dir.siteDn.value in dir.links)
  }

  function PolicyList(dir: Directory, dn: string, flags: uint32, token: Option<set<string>>): seq<Applied>
  {
    var os := Occurrences(dir, Met(dir, dn, flags));
    (if WithLocal(dir, flags) then [LOCAL_POLICY] else [])
    + Select(dir, token, os, false)
    + Select(dir, token, os, true)
  }

  predicate Succeeds(dir: Directory, dn: string, flags: uint32)
  {
    && (HasBit(flags, LIST_MACHINE) ==> dir.siteDn.Some?)
    && NoneFails(dir, Occurrences(dir, Met(dir, dn, flags)))
  }

  // ----- what the listing means

  /** Where the occurrence at position `p` of the listing comes from: the number of its
      container in `cs` and the number of the link there. */
  function Where(dir: Directory, cs: seq<Container>, p: nat): (ij: (nat, nat))
    requires p < |Occurrences(dir, cs)|
    ensures ij.0 < |cs|
  {
    var last := |cs| - 1;
    var n := |Readable(dir, cs[last], SomeBlocks(dir, cs[..last]))|;
    if p < n then (last, p) else Where(dir, cs[..last], p - n)
  }

  /** `o` is link `j` of container `i`, blocked exactly when some container nearer to
      the account blocks inheritance. */
  predicate IsLink(dir: Directory, cs: seq<Container>, o: Occurrence, i: nat, j: nat)
  {
    && i < |cs| && cs[i].dn in dir.links && j < |dir.links[cs[i].dn].links|
    && o == Occurrence(dir.links[cs[i].dn].links[j], cs[i], SomeBlocks(dir, cs[..i]))
  }

  /** Every entry of the listing is a link of some container, and the listing runs
      from the outermost container to the innermost, each in link order. */
  lemma {:induction false} ListingIsOrdered(dir: Directory, cs: seq<Container>, p: nat, q: nat)
    requires p <= q < |Occurrences(dir, cs)|
    ensures var ((i, j), (k, l)) := (Where(dir, cs, p), Where(dir, cs, q));
      && IsLink(dir, cs, Occurrences(dir, cs)[p], i, j)
      && IsLink(dir, cs, Occurrences(dir, cs)[q], k, l)
      && (p < q ==> k < i || (k == i && j < l))
    decreases |cs|
  {
    var last := |cs| - 1;
    var inner := cs[..last];
    var n := |Readable(dir, cs[last], SomeBlocks(dir, inner))|;
    if q >= n {
      var p' := if p < n then q - n else p - n;
      ListingIsOrdered(dir, inner, p', q - n);
      WherePrefix(dir, cs, p', last);
      WherePrefix(dir, cs, q - n, last);
    }
  }

  lemma WherePrefix(dir: Directory, cs: seq<Container>, p: nat, last: nat)
    requires last == |cs| - 1 && p < |Occurrences(dir, cs[..last])|
    ensures var i := Where(dir, cs[..last], p).0;
      i < last && cs[..last][..i] == cs[..i] && cs[..last][i] == cs[i]
  {
  }

  /** Every link of every readable container is in the listing. */
  lemma {:induction false} ListingIsComplete(dir: Directory, cs: seq<Container>, i: nat, j: nat) returns (p: nat)
    requires i < |cs| && cs[i].dn in dir.links && j < |dir.links[cs[i].dn].links|
    ensures p < |Occurrences(dir, cs)| && Where(dir, cs, p) == (i, j)
    decreases |cs|
  {
    var last := |cs| - 1;
    if i == last {
      p := j;
    } else {
      p := ListingIsComplete(dir, cs[..last], i, j);
      p := p + |Readable(dir, cs[last], SomeBlocks(dir, cs[..last]))|;
    }
  }

  /** What is selected; that the selection keeps the order of the listing is
      SelectAppend. */
  lemma {:induction false} SelectedExactly(dir: Directory, token: Option<set<string>>, os: seq<Occurrence>,
                                           enforced: bool, a: Applied)
    ensures a in Select(dir, token, os, enforced) <==>
      exists p :: 0 <= p < |os| && os[p].Contribution(dir, token, enforced) == [a]
  {
    if os != [] {
      SelectedExactly(dir, token, os[1..], enforced, a);
      var head := os[0].Contribution(dir, token, enforced);
      if a in Select(dir, token, os[1..], enforced) {
        var p :| 0 <= p < |os[1..]| && os[1..][p].Contribution(dir, token, enforced) == [a];
        assert os[p + 1].Contribution(dir, token, enforced) == [a];
      }
      if exists p :: 0 <= p < |os| && os[p].Contribution(dir, token, enforced) == [a] {
        var p :| 0 <= p < |os| && os[p].Contribution(dir, token, enforced) == [a];
        if p > 0 {
          assert os[1..][p - 1].Contribution(dir, token, enforced) == [a];
        }
      }
    }
  }

  // ----- the list by the directory alone

  /** Link `j` of container `i`. */
  predicate HasLink(dir: Directory, cs: seq<Container>, i: nat, j: nat)
  {
    i < |cs| && cs[i].dn in dir.links && j < |dir.links[cs[i].dn].links|
  }

  function LinkAt(dir: Directory, cs: seq<Container>, i: nat, j: nat): Link
    requires HasLink(dir, cs, i, j)
  {
    dir.links[cs[i].dn].links[j]
  }

  /** The container's links can be read, and the lowest bit of its options is set. */
  predicate Bars(dir: Directory, c: Container)
  {
    c.dn in dir.links && dir.links[c.dn].opts % 2 == 1
  }

  /** A link counts unless it is disabled, or not enforced and barred by a container met
      before its own. */
  predicate Counts(dir: Directory, cs: seq<Container>, i: nat, j: nat)
    requires HasLink(dir, cs, i, j)
  {
    var opts := LinkAt(dir, cs, i, j).opts;
    opts % 2 == 0 && (opts % 4 >= 2 || forall k :: 0 <= k < i ==> !Bars(dir, cs[k]))
  }

  /** And it is chosen if its policy object is there and the token may apply it. */
  predicate Chosen(dir: Directory, cs: seq<Container>, token: Option<set<string>>, i: nat, j: nat)
  {
    && HasLink(dir, cs, i, j) && Counts(dir, cs, i, j)
    && var r := dir.GetGpo(LinkAt(dir, cs, i, j).name); r.Found? && Filter(r.gpo.dacl, token) == Apply
  }

  /** Ordinary links come before enforced ones, then outer containers before inner ones,
      then links in their order. */
  predicate Precedes(dir: Directory, cs: seq<Container>, a: (nat, nat), b: (nat, nat))
    requires HasLink(dir, cs, a.0, a.1) && HasLink(dir, cs, b.0, b.1)
  {
    var (first, second) := (LinkAt(dir, cs, a.0, a.1).opts % 4 >= 2, LinkAt(dir, cs, b.0, b.1).opts % 4 >= 2);
    if first != second then second else b.0 < a.0 || (a.0 == b.0 && a.1 < b.1)
  }

  /** Entry `a` of the list is for the link at `ij`. */
  predicate IsFor(dir: Directory, cs: seq<Container>, token: Option<set<string>>, a: Applied, ij: (nat, nat))
  {
    && Chosen(dir, cs, token, ij.0, ij.1)
    && a == Applied(dir.GetGpo(LinkAt(dir, cs, ij.0, ij.1).name).gpo, cs[ij.0].dn, cs[ij.0].linkType)
  }

  /** The list has one entry for each chosen link, in the order of precedence; `from` says
      which is for which. */
  ghost predicate Explained(dir: Directory, cs: seq<Container>, token: Option<set<string>>, list: seq<Applied>,
                            from: seq<(nat, nat)>)
  {
    && |from| == |list|
    && (forall p {:trigger from[p]} :: 0 <= p < |from| ==> IsFor(dir, cs, token, list[p], from[p]))
    && (forall p, q {:trigger from[p], from[q]} :: 0 <= p < q < |from| ==> Precedes(dir, cs, from[p], from[q]))
    && (forall i: nat, j: nat {:trigger Chosen(dir, cs, token, i, j)} :: Chosen(dir, cs, token, i, j) ==>
      (i, j) in from)
  }

  /** The positions of the listing that contribute. */
  function Picks(dir: Directory, token: Option<set<string>>, os: seq<Occurrence>, enforced: bool): (ps: seq<nat>)
    ensures forall k :: 0 <= k < |ps| ==> ps[k] < |os| && os[ps[k]].Contribution(dir, token, enforced) != []
    ensures forall k, l :: 0 <= k < l < |ps| ==> ps[k] < ps[l]
    ensures forall p :: 0 <= p < |os| && os[p].Contribution(dir, token, enforced) != [] ==> p in ps
  {
    if os == [] then []
    else
      var n := |os| - 1;
      Picks(dir, token, os[..n], enforced) + if os[n].Contribution(dir, token, enforced) != [] then [n] else []
  }

  /** The entries of `list` are the contributions at the positions `ps`. */
  predicate Picked(dir: Directory, token: Option<set<string>>, os: seq<Occurrence>, enforced: bool, ps: seq<nat>,
                   list: seq<Applied>)
  {
    && |list| == |ps|
    && forall k {:trigger ps[k]} :: 0 <= k < |ps| ==>
      ps[k] < |os| && os[ps[k]].Contribution(dir, token, enforced) == [list[k]]
  }

  lemma SelectOne(dir: Directory, token: Option<set<string>>, o: Occurrence, enforced: bool)
    ensures Select(dir, token, [o], enforced) == o.Contribution(dir, token, enforced)
  {
    assert [o][1..] == [];
  }

  lemma PickedNext(dir: Directory, token: Option<set<string>>, os: seq<Occurrence>, enforced: bool, ps: seq<nat>,
                   list: seq<Applied>, o: Occurrence)
    requires Picked(dir, token, os, enforced, ps, list)
    ensures var c := o.Contribution(dir, token, enforced);
      Picked(dir, token, os + [o], enforced, ps + (if c != [] then [|os|] else []), list + c)
  {
    var c := o.Contribution(dir, token, enforced);
    var (os', ps', list') := (os + [o], ps + (if c != [] then [|os|] else []), list + c);
    forall k | 0 <= k < |ps'|
      ensures ps'[k] < |os'| && os'[ps'[k]].Contribution(dir, token, enforced) == [list'[k]]
    {
      if k < |ps| {
        assert ps'[k] == ps[k] && list'[k] == list[k] && os'[ps[k]] == os[ps[k]];
      }
    }
  }

  lemma {:induction false} SelectIsPicked(dir: Directory, token: Option<set<string>>, os: seq<Occurrence>,
                                          enforced: bool)
    ensures Picked(dir, token, os, enforced, Picks(dir, token, os, enforced), Select(dir, token, os, enforced))
    decreases |os|
  {
    if os != [] {
      var n := |os| - 1;
      var (init, o) := (os[..n], os[n]);
      SelectIsPicked(dir, token, init, enforced);
      PickedNext(dir, token, init, enforced, Picks(dir, token, init, enforced), Select(dir, token, init, enforced), o);
      assert os == init + [o];
      SelectAppend(dir, token, init, [o], enforced);
      SelectOne(dir, token, o, enforced);
    }
  }

  /** What the link behind an occurrence contributes, told by the directory. */
  lemma OccurrenceCounts(dir: Directory, cs: seq<Container>, token: Option<set<string>>, o: Occurrence, i: nat, j: nat,
                         enforced: bool)
    requires IsLink(dir, cs, o, i, j)
    ensures HasLink(dir, cs, i, j)
    ensures o.InForce() <==> Counts(dir, cs, i, j)
    ensures o.Contribution(dir, token, enforced) != [] <==>
      Chosen(dir, cs, token, i, j) && (LinkAt(dir, cs, i, j).opts % 4 >= 2) == enforced
    ensures forall a :: o.Contribution(dir, token, enforced) == [a] ==> IsFor(dir, cs, token, a, (i, j))
  {
    BitsInUse(o.link.opts);
    forall k | 0 <= k < i
      ensures Blocks(dir, cs[..i][k]) <==> Bars(dir, cs[k])
    {
      if cs[k].dn in dir.links {
        BitsInUse(dir.links[cs[k].dn].opts);
      }
    }
    assert o.blocked <==> exists k :: 0 <= k < i && Blocks(dir, cs[..i][k]);
  }

  function Sources(dir: Directory, cs: seq<Container>, ps: seq<nat>): (from: seq<(nat, nat)>)
    requires forall k :: 0 <= k < |ps| ==> ps[k] < |Occurrences(dir, cs)|
    ensures |from| == |ps|
  {
    seq(|ps|, k requires 0 <= k < |ps| => Where(dir, cs, ps[k]))
  }

  predicate IsEnforced(dir: Directory, cs: seq<Container>, ij: (nat, nat))
    requires HasLink(dir, cs, ij.0, ij.1)
  {
    LinkAt(dir, cs, ij.0, ij.1).opts % 4 >= 2
  }

  /** Each entry of one half of the list is for a chosen link of that half. */
  ghost predicate AllFor(dir: Directory, cs: seq<Container>, token: Option<set<string>>, enforced: bool,
                         list: seq<Applied>, from: seq<(nat, nat)>)
  {
    && |from| == |list|
    && forall p {:trigger from[p]} :: 0 <= p < |from| ==>
      IsFor(dir, cs, token, list[p], from[p]) && IsEnforced(dir, cs, from[p]) == enforced
  }

  ghost predicate InTurn(dir: Directory, cs: seq<Container>, from: seq<(nat, nat)>)
  {
    forall p, q {:trigger from[p], from[q]} :: 0 <= p < q < |from| ==>
      from[q].0 < from[p].0 || (from[p].0 == from[q].0 && from[p].1 < from[q].1)
  }

  ghost predicate NoneLeft(dir: Directory, cs: seq<Container>, token: Option<set<string>>, enforced: bool,
                           from: seq<(nat, nat)>)
  {
    forall i: nat, j: nat {:trigger Chosen(dir, cs, token, i, j)} ::
      Chosen(dir, cs, token, i, j) && IsEnforced(dir, cs, (i, j)) == enforced ==> (i, j) in from
  }

  /** One half of the list. */
  lemma HalfExplained(dir: Directory, cs: seq<Container>, token: Option<set<string>>, enforced: bool)
    returns (from: seq<(nat, nat)>)
    ensures AllFor(dir, cs, token, enforced, Select(dir, token, Occurrences(dir, cs), enforced), from)
    ensures InTurn(dir, cs, from) && NoneLeft(dir, cs, token, enforced, from)
  {
    var ps := Picks(dir, token, Occurrences(dir, cs), enforced);
    from := Sources(dir, cs, ps);
    EachFor(dir, cs, token, enforced, ps, from);
    forall p, q | 0 <= p < q < |from|
      ensures from[q].0 < from[p].0 || (from[p].0 == from[q].0 && from[p].1 < from[q].1)
    {
      ListingIsOrdered(dir, cs, ps[p], ps[q]);
    }
    forall i: nat, j: nat | Chosen(dir, cs, token, i, j) && IsEnforced(dir, cs, (i, j)) == enforced
      ensures (i, j) in from
    {
      var p := ChosenContributes(dir, cs, token, i, j, enforced);
      var k :| 0 <= k < |ps| && ps[k] == p;
      assert from[k] == (i, j);
    }
  }

  lemma EachFor(dir: Directory, cs: seq<Container>, token: Option<set<string>>, enforced: bool, ps: seq<nat>,
                from: seq<(nat, nat)>)
    requires ps == Picks(dir, token, Occurrences(dir, cs), enforced) && from == Sources(dir, cs, ps)
    ensures AllFor(dir, cs, token, enforced, Select(dir, token, Occurrences(dir, cs), enforced), from)
  {
    SelectIsPicked(dir, token, Occurrences(dir, cs), enforced);
    var list := Select(dir, token, Occurrences(dir, cs), enforced);
    forall p | 0 <= p < |from|
      ensures IsFor(dir, cs, token, list[p], from[p]) && IsEnforced(dir, cs, from[p]) == enforced
    {
      assert from[p] == Where(dir, cs, ps[p]);
      SourceIs(dir, cs, token, ps[p], enforced, list[p]);
    }
  }

  lemma SourceIs(dir: Directory, cs: seq<Container>, token: Option<set<string>>, p: nat, enforced: bool, a: Applied)
    requires p < |Occurrences(dir, cs)| && Occurrences(dir, cs)[p].Contribution(dir, token, enforced) == [a]
    ensures var ij := Where(dir, cs, p);
      IsFor(dir, cs, token, a, ij) && IsEnforced(dir, cs, ij) == enforced
  {
    ListingIsOrdered(dir, cs, p, p);
    var (i, j) := Where(dir, cs, p);
    OccurrenceCounts(dir, cs, token, Occurrences(dir, cs)[p], i, j, enforced);
  }

  lemma ChosenContributes(dir: Directory, cs: seq<Container>, token: Option<set<string>>, i: nat, j: nat,
                          enforced: bool)
    returns (p: nat)
    requires Chosen(dir, cs, token, i, j) && IsEnforced(dir, cs, (i, j)) == enforced
    ensures p < |Occurrences(dir, cs)| && Where(dir, cs, p) == (i, j)
    ensures Occurrences(dir, cs)[p].Contribution(dir, token, enforced) != []
  {
    p := ListingIsComplete(dir, cs, i, j);
    ListingIsOrdered(dir, cs, p, p);
    OccurrenceCounts(dir, cs, token, Occurrences(dir, cs)[p], i, j, enforced);
  }

  lemma ListExplained(dir: Directory, cs: seq<Container>, token: Option<set<string>>) returns (from: seq<(nat, nat)>)
    ensures Explained(dir, cs, token, Rest(dir, cs, token), from)
  {
    var os := Occurrences(dir, cs);
    var a := HalfExplained(dir, cs, token, false);
    var b := HalfExplained(dir, cs, token, true);
    from := a + b;
    var (x, y) := (Select(dir, token, os, false), Select(dir, token, os, true));
    forall p | 0 <= p < |from|
      ensures IsFor(dir, cs, token, (x + y)[p], from[p])
    {
      assert from[p] == if p < |a| then a[p] else b[p - |a|];
    }
    forall p, q | 0 <= p < q < |from|
      ensures Precedes(dir, cs, from[p], from[q])
    {
      assert from[p] == if p < |a| then a[p] else b[p - |a|];
      assert from[q] == if q < |a| then a[q] else b[q - |a|];
    }
  }

  /** Every policy object that is needed can be fetched. */
  ghost predicate NoneMissing(dir: Directory, cs: seq<Container>)
  {
    forall i: nat, j: nat {:trigger LinkAt(dir, cs, i, j)} :: HasLink(dir, cs, i, j) && Counts(dir, cs, i, j) ==>
      !dir.GetGpo(LinkAt(dir, cs, i, j).name).Failing?
  }

  lemma NoneMissingIs(dir: Directory, cs: seq<Container>)
    ensures NoneFails(dir, Occurrences(dir, cs)) <==> NoneMissing(dir, cs)
  {
    var os := Occurrences(dir, cs);
    if NoneFails(dir, os) {
      forall i: nat, j: nat | HasLink(dir, cs, i, j) && Counts(dir, cs, i, j)
        ensures !dir.GetGpo(LinkAt(dir, cs, i, j).name).Failing?
      {
        var p := ListingIsComplete(dir, cs, i, j);
        ListingIsOrdered(dir, cs, p, p);
        OccurrenceCounts(dir, cs, None, os[p], i, j, false);
      }
    }
    if NoneMissing(dir, cs) {
      forall p | 0 <= p < |os|
        ensures !os[p].Fails(dir)
      {
        ListingIsOrdered(dir, cs, p, p);
        var (i, j) := Where(dir, cs, p);
        OccurrenceCounts(dir, cs, None, os[p], i, j, false);
        assert LinkAt(dir, cs, i, j) == os[p].link;
      }
    }
  }

  // ----- the containers by the name alone

  /** `a` is what follows a comma of `dn`, and neither it nor anything longer that follows
      one is the parent of the directory's base. */
  predicate Ancestor(dn: string, bindPath: string, a: string)
  {
    exists k :: 0 <= k < |dn| && AfterComma(dn, k, a)
                && forall m :: 0 <= m <= k && dn[m] == ',' ==> !AtTop(dn[m + 1..], bindPath)
  }

  predicate AfterComma(dn: string, k: nat, a: string)
    requires k < |dn|
  {
    dn[k] == ',' && a == dn[k + 1..]
  }

  /** The containers of one kind: the ancestors whose names start with `prefix`, the longest
      name first. */
  ghost predicate Level(cs: seq<Container>, dn: string, bindPath: string, prefix: string, linkType: LinkType)
  {
    && (forall i {:trigger cs[i]} :: 0 <= i < |cs| ==> cs[i].linkType == linkType)
    && Narrowing(cs)
    && (forall a :: Container(a, linkType) in cs <==> prefix <= a && Ancestor(dn, bindPath, a))
  }

  lemma {:induction false} AboveIs(dn: string, bindPath: string, a: string)
    ensures a in Above(dn, bindPath) <==> Ancestor(dn, bindPath, a)
    ensures forall b :: b in Above(dn, bindPath) ==> |b| < |dn|
    decreases |dn|
  {
    var (p, i) := (Parent(dn), IndexOf(dn, ','));
    if p.Some? {
      AboveIs(p.value, bindPath, a);
      AncestorUp(dn, bindPath, a, i);
    } else {
      assert ',' !in dn[..i] && i == |dn|;
    }
  }

  /** An ancestor is the parent or one of the parent's. */
  lemma AncestorUp(dn: string, bindPath: string, a: string, i: nat)
    requires i < |dn| && dn[i] == ',' && ',' !in dn[..i]
    ensures var p := dn[i + 1..];
      Ancestor(dn, bindPath, a) <==> !AtTop(p, bindPath) && (a == p || Ancestor(p, bindPath, a))
  {
    var p := dn[i + 1..];
    forall m | 0 <= m < i
      ensures dn[m] != ','
    {
      assert dn[m] == dn[..i][m];
    }
    forall m | 0 <= m < |p|
      ensures p[m] == dn[i + 1 + m] && p[m + 1..] == dn[i + 1 + m + 1..]
    {
    }
    if Ancestor(dn, bindPath, a) {
      var k :| 0 <= k < |dn| && AfterComma(dn, k, a)
               && forall m :: 0 <= m <= k && dn[m] == ',' ==> !AtTop(dn[m + 1..], bindPath);
      if k > i {
        assert AfterComma(p, k - i - 1, a);
      }
    }
    if !AtTop(p, bindPath) && a == p {
      assert AfterComma(dn, i, a);
    } else if !AtTop(p, bindPath) && Ancestor(p, bindPath, a) {
      var k :| 0 <= k < |p| && AfterComma(p, k, a)
               && forall m :: 0 <= m <= k && p[m] == ',' ==> !AtTop(p[m + 1..], bindPath);
      assert AfterComma(dn, i + 1 + k, a);
      forall m | 0 <= m <= i + 1 + k && dn[m] == ','
        ensures !AtTop(dn[m + 1..], bindPath)
      {
        if m > i {
          assert p[m - i - 1] == ',';
        }
      }
    }
  }

  lemma {:induction false} AboveShrinks(dn: string, bindPath: string, i: nat, j: nat)
    requires i < j < |Above(dn, bindPath)|
    ensures |Above(dn, bindPath)[i]| > |Above(dn, bindPath)[j]|
    decreases |dn|
  {
    var p := Parent(dn).value;
    if i > 0 {
      AboveShrinks(p, bindPath, i - 1, j - 1);
    } else {
      AboveIs(p, bindPath, "");
      assert Above(dn, bindPath)[j] == Above(p, bindPath)[j - 1];
    }
  }

  predicate Shrinking(dns: seq<string>)
  {
    forall i, j {:trigger dns[i], dns[j]} :: 0 <= i < j < |dns| ==> |dns[i]| > |dns[j]|
  }

  predicate Narrowing(cs: seq<Container>)
  {
    forall i, j {:trigger cs[i], cs[j]} :: 0 <= i < j < |cs| ==> |cs[i].dn| > |cs[j].dn|
  }

  lemma OneNarrower(c: Container, cs: seq<Container>)
    requires Narrowing(cs) && forall d :: d in cs ==> |c.dn| > |d.dn|
    ensures Narrowing([c] + cs)
  {
    var all := [c] + cs;
    forall i, j | 0 <= i < j < |all|
      ensures |all[i].dn| > |all[j].dn|
    {
      assert all[j] == cs[j - 1] && cs[j - 1] in cs;
      assert i > 0 ==> all[i] == cs[i - 1];
    }
  }

  lemma {:induction false} NamedShrinks(dns: seq<string>, prefix: string, linkType: LinkType)
    requires Shrinking(dns)
    ensures Narrowing(Named(dns, prefix, linkType))
  {
    if dns != [] {
      var rest := dns[1..];
      assert forall i :: 0 <= i < |rest| ==> rest[i] == dns[i + 1];
      NamedShrinks(rest, prefix, linkType);
      var tail := Named(rest, prefix, linkType);
      forall d | d in tail
        ensures |dns[0]| > |d.dn|
      {
        var k :| 0 <= k < |rest| && rest[k] == d.dn;
        assert dns[k + 1] == d.dn;
      }
      OneNarrower(Container(dns[0], linkType), tail);
      assert [] + tail == tail;
    }
  }

  lemma LevelIs(dn: string, bindPath: string, prefix: string, linkType: LinkType)
    ensures Level(Named(Above(dn, bindPath), prefix, linkType), dn, bindPath, prefix, linkType)
  {
    var (above, cs) := (Above(dn, bindPath), Named(Above(dn, bindPath), prefix, linkType));
    forall i, j | 0 <= i < j < |above|
      ensures |above[i]| > |above[j]|
    {
      AboveShrinks(dn, bindPath, i, j);
    }
    NamedShrinks(above, prefix, linkType);
    forall a
      ensures Container(a, linkType) in cs <==> prefix <= a && Ancestor(dn, bindPath, a)
    {
      AboveIs(dn, bindPath, a);
    }
  }

  /** All containers in the order they are met: organizational units, domains, and for a
      machine its site. */
  ghost predicate Containers(dir: Directory, dn: string, flags: uint32, ous: seq<Container>, domains: seq<Container>,
                             site: seq<Container>)
  {
    && Level(ous, dn, dir.bindPath, "OU=", Ou)
    && Level(domains, dn, dir.bindPath, "DC=", Domain)
    && site == if flags % 2 == 1 && dir.siteDn.Some? then [Container(dir.siteDn.value, Site)] else []
  }

  lemma MetIs(dir: Directory, dn: string, flags: uint32)
    returns (ous: seq<Container>, domains: seq<Container>, site: seq<Container>)
    ensures Met(dir, dn, flags) == ous + domains + site
    ensures Containers(dir, dn, flags, ous, domains, site)
  {
    var above := Above(dn, dir.bindPath);
    ous, domains := Named(above, "OU=", Ou), Named(above, "DC=", Domain);
    site := if HasBit(flags, LIST_MACHINE) && dir.siteDn.Some? then [Container(dir.siteDn.value, Site)] else [];
    BitsInUse(flags);
    LevelIs(dn, dir.bindPath, "OU=", Ou);
    LevelIs(dn, dir.bindPath, "DC=", Domain);
  }

  // ----- the code

  class Walk {
    const dir: Directory
    const token: Option<set<string>>
    var gpoList: seq<Applied>
    var forcedGpoList: seq<Applied>
    var onlyForced: bool

    constructor (dir: Directory, token: Option<set<string>>)
      ensures this.dir == dir && this.token == token
      ensures gpoList == [] && forcedGpoList == [] && !onlyForced
    {
      this.dir, this.token := dir, token;
      gpoList, forcedGpoList, onlyForced := [], [], false;
    }

    /** Both lists hold what the links `os` contribute. */
    ghost predicate Holds(os: seq<Occurrence>)
      reads this
    {
      gpoList == Select(dir, token, os, false) && forcedGpoList == Select(dir, token, os, true)
    }

    /** One round of the loop below: the link goes in front of one of the lists, or is left
        out. */
    method AddLink(c: Container, link: Link, ghost os: seq<Occurrence>) returns (status: Status)
      requires Holds(os)
      modifies this`gpoList, this`forcedGpoList
      ensures status.Ok? <==> !Occurrence(link, c, onlyForced).Fails(dir)
      ensures status.Ok? ==> Holds([Occurrence(link, c, onlyForced)] + os)
    {
      status := Ok;
      ghost var o := Occurrence(link, c, onlyForced);
      assert ([o] + os)[1..] == os && [] + gpoList == gpoList && [] + forcedGpoList == forcedGpoList;
      var forced := HasBit(link.opts, LINK_ENFORCED);
      if HasBit(link.opts, LINK_DISABLED) {
        return;
      }
      if onlyForced && !forced {
        return;
      }
      var r := dir.GetGpo(link.name);
      if r.Failing? {
        return Ldap(r.code);
      }
      if r.Empty? {
        return;
      }
      var verdict := ApplySecurityFiltering(r.gpo.dacl, token);
      if verdict != Apply {
        return;
      }
      var entry := Applied(r.gpo, c.dn, c.linkType);
      if forced {
        forcedGpoList := [entry] + forcedGpoList;
      } else {
        gpoList := [entry] + gpoList;
      }
    }

    /** add_gplink_to_gpo_list: push a container's links onto the front of the lists,
        from the last to the first. */
    method AddGpLink(c: Container, gpLink: GpLink, ghost os: seq<Occurrence>) returns (status: Status)
      requires Holds(os)
      modifies this`gpoList, this`forcedGpoList
      ensures status.Ok? <==> NoneFails(dir, LinksOf(gpLink, c, onlyForced))
      ensures status.Ok? ==> Holds(LinksOf(gpLink, c, onlyForced) + os)
    {
      ghost var mine := LinksOf(gpLink, c, onlyForced);
      var count := |gpLink.links|;
      assert mine[count..] + os == os;
      while count > 0
        invariant 0 <= count <= |gpLink.links|
        invariant Holds(mine[count..] + os)
        invariant forall j :: count <= j < |mine| ==> !mine[j].Fails(dir)
      {
        var i := count - 1;
        count := i;
        OneFrom(mine, i, os);
        status := AddLink(c, gpLink.links[i], mine[i + 1..] + os);
        if !status.Ok? {
          assert mine[i].Fails(dir);
          return;
        }
      }
      assert mine[0..] == mine;
      status := Ok;
    }

    /** Where the walk stands after meeting the containers `met` without failure. */
    ghost predicate At(met: seq<Container>)
      reads this
    {
      && Holds(Occurrences(dir, met))
      && onlyForced == SomeBlocks(dir, met)
      && NoneFails(dir, Occurrences(dir, met))
    }

    /** What one container met on the way adds, and whether it blocks the next. */
    method VisitContainer(c: Container, ghost met: seq<Container>) returns (status: Status)
      requires At(met)
      modifies this
      ensures if status.Ok? then At(met + [c]) else !NoneFails(dir, Occurrences(dir, met + [c]))
    {
      OccurrencesNext(dir, met, c);
      if c.dn !in dir.links {
        assert Readable(dir, c, SomeBlocks(dir, met)) + Occurrences(dir, met) == Occurrences(dir, met);
        return Ok;
      }
      status := AddGpLink(c, dir.links[c.dn], Occurrences(dir, met));
      if !status.Ok? {
        return;
      }
      if HasBit(dir.links[c.dn].opts, BLOCK_INHERITANCE) {
        onlyForced := true;
      }
    }

    /** Either of the two loops up the tree, over the containers of one kind. */
    method VisitKind(dn: string, prefix: string, linkType: LinkType, ghost met: seq<Container>)
      returns (status: Status)
      requires At(met)
      modifies this
      ensures var all := met + Named(Above(dn, dir.bindPath), prefix, linkType);
        if status.Ok? then At(all) else !NoneFails(dir, Occurrences(dir, all))
    {
      ghost var done: seq<string> := [];
      var tmpDn := dn;
      ghost var now := met;
      assert met + Named(done, prefix, linkType) == met;
      while true
        invariant Above(dn, dir.bindPath) == done + Above(tmpDn, dir.bindPath)
        invariant now == met + Named(done, prefix, linkType)
        invariant At(now)
        decreases |tmpDn|
      {
        var parent := Parent(tmpDn);
        if parent.None? || AtTop(parent.value, dir.bindPath) {
          assert done + [] == done;
          return Ok;
        }
        OneUp(dn, dir.bindPath, done, tmpDn, met, prefix, linkType);
        if prefix <= parent.value {
          var c := Container(parent.value, linkType);
          status := VisitContainer(c, now);
          now := now + [c];
          if !status.Ok? {
            FailsLater(dir, now, met + Named(Above(dn, dir.bindPath), prefix, linkType));
            return;
          }
        }
        done := done + [parent.value];
        tmpDn := parent.value;
      }
    }

    /** The site, met last; it blocks nothing. */
    method VisitSite(ghost met: seq<Container>) returns (status: Status)
      requires At(met) && dir.siteDn.Some?
      modifies this`gpoList, this`forcedGpoList
      ensures var all := met + [Container(dir.siteDn.value, Site)];
        && (status.Ok? <==> NoneFails(dir, Occurrences(dir, all)))
        && (status.Ok? ==> Holds(Occurrences(dir, all)))
    {
      var c := Container(dir.siteDn.value, Site);
      OccurrencesNext(dir, met, c);
      if c.dn !in dir.links {
        assert Readable(dir, c, SomeBlocks(dir, met)) + Occurrences(dir, met) == Occurrences(dir, met);
        return Ok;
      }
      status := AddGpLink(c, dir.links[c.dn], Occurrences(dir, met));
    }
  }

  lemma OneFrom<T>(s: seq<T>, i: nat, t: seq<T>)
    requires i < |s|
    ensures s[i..] + t == [s[i]] + (s[i + 1..] + t)
  {
  }

  /** One step up the tree. */
  lemma OneUp(dn: string, bindPath: string, done: seq<string>, tmpDn: string,
              met: seq<Container>, prefix: string, linkType: LinkType)
    requires Above(dn, bindPath) == done + Above(tmpDn, bindPath)
    requires Parent(tmpDn).Some? && !AtTop(Parent(tmpDn).value, bindPath)
    ensures var p := Parent(tmpDn).value;
      var next := met + Named(done, prefix, linkType) + (if prefix <= p then [Container(p, linkType)] else []);
      && Above(dn, bindPath) == done + [p] + Above(p, bindPath)
      && met + Named(done + [p], prefix, linkType) == next
      && next <= met + Named(Above(dn, bindPath), prefix, linkType)
  {
    var p := Parent(tmpDn).value;
    NextAbove(done, p, Above(p, bindPath));
    NamedNext(done, p, prefix, linkType);
    NamedAppend(done + [p], Above(p, bindPath), prefix, linkType);
    MetPrefix(met, Named(done, prefix, linkType), if prefix <= p then [Container(p, linkType)] else [],
              Named(Above(p, bindPath), prefix, linkType));
  }

  lemma NextAbove(done: seq<string>, dn: string, rest: seq<string>)
    ensures done + ([dn] + rest) == done + [dn] + rest
  {
  }

  lemma MetPrefix(met: seq<Container>, a: seq<Container>, b: seq<Container>, c: seq<Container>)
    ensures met + (a + b) == met + a + b
    ensures met + a + b <= met + (a + b + c)
  {
  }

  lemma NamedNext(done: seq<string>, dn: string, prefix: string, linkType: LinkType)
    ensures Named(done + [dn], prefix, linkType)
      == Named(done, prefix, linkType) + (if prefix <= dn then [Container(dn, linkType)] else [])
  {
    NamedAppend(done, [dn], prefix, linkType);
    assert Named([], prefix, linkType) == [];
    assert [dn][1..] == [];
  }

  lemma OccurrencesNext(dir: Directory, met: seq<Container>, c: Container)
    ensures Occurrences(dir, met + [c]) == Readable(dir, c, SomeBlocks(dir, met)) + Occurrences(dir, met)
    ensures SomeBlocks(dir, met + [c]) <==> SomeBlocks(dir, met) || Blocks(dir, c)
    ensures NoneFails(dir, Occurrences(dir, met + [c])) <==>
      NoneFails(dir, Readable(dir, c, SomeBlocks(dir, met))) && NoneFails(dir, Occurrences(dir, met))
  {
    var all := met + [c];
    assert all[..|all| - 1] == met;
    if SomeBlocks(dir, met) {
      var i :| 0 <= i < |met| && Blocks(dir, met[i]);
      assert all[i] == met[i];
    }
    if Blocks(dir, c) {
      assert all[|met|] == c;
    }
    NoneFailsAppend(dir, Readable(dir, c, SomeBlocks(dir, met)), Occurrences(dir, met));
  }

  lemma NoneFailsAppend(dir: Directory, a: seq<Occurrence>, b: seq<Occurrence>)
    ensures NoneFails(dir, a + b) <==> NoneFails(dir, a) && NoneFails(dir, b)
  {
    if NoneFails(dir, a + b) {
      forall i | 0 <= i < |a|
        ensures !a[i].Fails(dir)
      {
        assert (a + b)[i] == a[i];
      }
      forall i | 0 <= i < |b|
        ensures !b[i].Fails(dir)
      {
        assert (a + b)[|a| + i] == b[i];
      }
    }
  }

  /** A failure among the inner containers is a failure of the whole. */
  lemma {:induction false} FailsLater(dir: Directory, inner: seq<Container>, all: seq<Container>)
    requires inner <= all && !NoneFails(dir, Occurrences(dir, inner))
    ensures !NoneFails(dir, Occurrences(dir, all))
    decreases |all|
  {
    if |inner| < |all| {
      var shorter := all[..|all| - 1];
      FailsLater(dir, inner, shorter);
      OccurrencesNext(dir, shorter, all[|all| - 1]);
      assert shorter + [all[|all| - 1]] == all;
    } else {
      assert inner == all;
    }
  }

  /** How a list comes about: the containers met, and which entry is for which of their
      links. */
  datatype Story = Story(ous: seq<Container>, domains: seq<Container>, site: seq<Container>, from: seq<(nat, nat)>)
  {
    function Met(): seq<Container>
    {
      ous + domains + site
    }
  }

  /** The list is Local, unless only the site was asked for and could be read, and then one
      entry for each chosen link of the containers in the order of precedence. */
  ghost predicate Tells(story: Story, dir: Directory, dn: string, flags: uint32, token: Option<set<string>>,
                        list: seq<Applied>)
  {
    && Containers(dir, dn, flags, story.ous, story.domains, story.site)
    && var siteOnly := flags % 2 == 1 && flags % 4 >= 2 && dir.siteDn.Some? && dir.siteDn.value in dir.links;
    && (if siteOnly then Explained(dir, story.Met(), token, list, story.from)
        else list != [] && list[0] == LOCAL_POLICY && Explained(dir, story.Met(), token, list[1..], story.from))
  }

  lemma PolicyListTold(dir: Directory, dn: string, flags: uint32, token: Option<set<string>>) returns (story: Story)
    ensures Containers(dir, dn, flags, story.ous, story.domains, story.site)
    ensures Tells(story, dir, dn, flags, token, PolicyList(dir, dn, flags, token))
    ensures Succeeds(dir, dn, flags) <==>
      (flags % 2 == 1 ==> dir.siteDn.Some?) && NoneMissing(dir, story.Met())
  {
    var ous, domains, site := MetIs(dir, dn, flags);
    var cs := Met(dir, dn, flags);
    var from := ListExplained(dir, cs, token);
    story := Story(ous, domains, site, from);
    BitsInUse(flags);
    NoneMissingIs(dir, cs);
    LocalInFront(dir, dn, flags, token);
    assert story.Met() == cs;
  }

  function Rest(dir: Directory, cs: seq<Container>, token: Option<set<string>>): seq<Applied>
  {
    Select(dir, token, Occurrences(dir, cs), false) + Select(dir, token, Occurrences(dir, cs), true)
  }

  lemma LocalInFront(dir: Directory, dn: string, flags: uint32, token: Option<set<string>>)
    ensures var (list, rest) := (PolicyList(dir, dn, flags, token), Rest(dir, Met(dir, dn, flags), token));
      if WithLocal(dir, flags) then list != [] && list[0] == LOCAL_POLICY && list[1..] == rest else list == rest
  {
    var os := Occurrences(dir, Met(dir, dn, flags));
    InFront(LOCAL_POLICY, Select(dir, token, os, false), Select(dir, token, os, true));
  }

  lemma InFront<T>(x: T, a: seq<T>, b: seq<T>)
    ensures ([x] + a + b)[0] == x && ([x] + a + b)[1..] == a + b
    ensures [] + a + b == a + b
  {
  }

  /** ads_get_gpo_list and ads_get_gpo_list_internal. */
  method GetGpoList(dir: Directory, dn: Option<string>, flags: uint32, token: Option<set<string>>, wrapped: bool)
    returns (status: Status, list: seq<Applied>, ghost story: Story)
    ensures dn.None? ==> status == InvalidParameter
    ensures dn.Some? && !wrapped ==> status == InvalidCredentials
    ensures dn.Some? ==> Containers(dir, dn.value, flags, story.ous, story.domains, story.site)
    ensures dn.Some? && wrapped ==>
      (status.Ok? <==> (flags % 2 == 1 ==> dir.siteDn.Some?) && NoneMissing(dir, story.Met()))
    ensures dn.Some? && status.Ok? ==> Tells(story, dir, dn.value, flags, token, list)
    ensures dn.Some? && status.Ok? ==> list == PolicyList(dir, dn.value, flags, token)
  {
    list := [];
    story := Story([], [], [], []);
    if dn.None? {
      return InvalidParameter, [], story;
    }
    story := PolicyListTold(dir, dn.value, flags, token);
    if !wrapped {
      return InvalidCredentials, [], story;
    }
    var walk := new Walk(dir, token);
    status, list := Resolve(walk, dn.value, flags);
  }

  /** The two loops up the tree. */
  method WalkUp(walk: Walk, dn: string) returns (status: Status)
    requires walk.At([])
    modifies walk
    ensures var walked := Walked(walk.dir, dn);
      if status.Ok? then walk.At(walked) else !NoneFails(walk.dir, Occurrences(walk.dir, walked))
  {
    var dir := walk.dir;
    ghost var ous := Named(Above(dn, dir.bindPath), "OU=", Ou);
    status := walk.VisitKind(dn, "OU=", Ou, []);
    assert [] + ous == ous;
    if !status.Ok? {
      FailsLater(dir, ous, Walked(dir, dn));
      return;
    }
    status := walk.VisitKind(dn, "DC=", Domain, ous);
  }

  /** The part of ads_get_gpo_list after its arguments have been checked. */
  method Resolve(walk: Walk, dn: string, flags: uint32) returns (status: Status, list: seq<Applied>)
    requires walk.gpoList == [] && walk.forcedGpoList == [] && !walk.onlyForced
    modifies walk
    ensures status.Ok? <==> Succeeds(walk.dir, dn, flags)
    ensures status.Ok? ==> list == PolicyList(walk.dir, dn, flags, walk.token)
  {
    list := [];
    var dir := walk.dir;
    ghost var walked, met := Walked(dir, dn), Met(dir, dn, flags);
    status := WalkUp(walk, dn);
    if !status.Ok? {
      FailsLater(dir, walked, met);
      return;
    }
    if HasBit(flags, LIST_MACHINE) {
      if dir.siteDn.None? {
        return NoSite, [];
      }
      status := walk.VisitSite(walked);
      if !status.Ok? {
        return;
      }
      if dir.siteDn.value in dir.links && HasBit(flags, LIST_SITEONLY) {
        list := walk.gpoList + walk.forcedGpoList;
        assert [] + walk.gpoList == walk.gpoList;
        return;
      }
    } else {
      assert met == walked;
    }
    walk.gpoList := [LOCAL_POLICY] + walk.gpoList;
    list := walk.gpoList + walk.forcedGpoList;
  }
}
