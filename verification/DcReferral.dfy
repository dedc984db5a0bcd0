/** The order in which domain controllers are referred to (dfs_server/dfs_server_ad.c):
    shuffled within a group, those of the client's site first. */
module DcReferral {
  import opened Wire
  import opened Wrappers

  // ----- shuffling

  function Swap<T>(s: seq<T>, i: nat, j: nat): (r: seq<T>)
    requires i < |s| && j < |s|
    ensures |r| == |s| && r[i] == s[j] && r[j] == s[i]
    ensures forall k :: 0 <= k < |s| && k != i && k != j ==> r[k] == s[k]
  {
    s[i := s[j]][j := s[i]]
  }

  lemma SwapPermutes<T>(s: seq<T>, i: nat, j: nat)
    requires i < |s| && j < |s|
    ensures multiset(Swap(s, i, j)) == multiset(s)
  {
  }

  /** The draw for step `i` is entry `i - 1`, and names one of the first `i` places. */
  predicate ValidDraws(d: seq<nat>, n: nat)
  {
    |d| == n && forall i :: 0 <= i < n ==> d[i] <= i
  }

  /** The steps from `i` down to 2: exchange place `i - 1` with the one drawn. */
  function ShuffleFrom<T>(s: seq<T>, d: seq<nat>, i: nat): (r: seq<T>)
    requires ValidDraws(d, |s|) && i <= |s|
    ensures |r| == |s|
    decreases i
  {
    if i <= 1 then s else ShuffleFrom(Swap(s, i - 1, d[i - 1]), d, i - 1)
  }

  lemma {:induction false} ShuffleKeepsRest<T>(s: seq<T>, d: seq<nat>, i: nat, k: nat)
    requires ValidDraws(d, |s|) && i <= k < |s|
    ensures ShuffleFrom(s, d, i)[k] == s[k]
    decreases i
  {
    if i > 1 {
      ShuffleKeepsRest(Swap(s, i - 1, d[i - 1]), d, i - 1, k);
    }
  }

  /** Whatever is drawn, the names stay the same. */
  lemma {:induction false} ShufflePermutes<T>(s: seq<T>, d: seq<nat>, i: nat)
    requires ValidDraws(d, |s|) && i <= |s|
    ensures multiset(ShuffleFrom(s, d, i)) == multiset(s)
    decreases i
  {
    if i > 1 {
      SwapPermutes(s, i - 1, d[i - 1]);
      ShufflePermutes(Swap(s, i - 1, d[i - 1]), d, i - 1);
    }
  }

  function Shuffled<T>(s: seq<T>, d: seq<nat>): seq<T>
    requires ValidDraws(d, |s|)
  {
    ShuffleFrom(s, d, |s|)
  }

  predicate Distinct<T(==)>(s: seq<T>)
  {
    forall i, j :: 0 <= i < j < |s| ==> s[i] != s[j]
  }

  /** The places drawn when `random[i - 1]` is the number drawn at step `i`. */
  function Draws(random: seq<nat>): (d: seq<nat>)
    ensures ValidDraws(d, |random|)
    ensures forall i :: 0 <= i < |random| ==> d[i] == random[i] % (i + 1)
  {
    seq(|random|, i requires 0 <= i < |random| => random[i] % (i + 1))
  }

  /** shuffle_dc_set. */
  method Shuffle(a: array<string>, count: nat, random: seq<nat>)
    requires count <= a.Length && |random| == count
    modifies a
    ensures a[..count] == Shuffled(old(a[..count]), Draws(random))
    ensures a[count..] == old(a[count..])
  {
    var i := count;
    while i > 1
      invariant 0 <= i <= count
      invariant ShuffleFrom(a[..count], Draws(random), i) == Shuffled(old(a[..count]), Draws(random))
      invariant a[count..] == old(a[count..])
    {
      var r := random[i - 1] % i;
      SwapInPlace(a, count, i - 1, r);
      i := i - 1;
    }
  }

  /** The exchange of two names. */
  method SwapInPlace(a: array<string>, ghost count: nat, i: nat, r: nat)
    requires i < count <= a.Length && r < count
    modifies a
    ensures a[..count] == Swap(old(a[..count]), i, r)
    ensures a[count..] == old(a[count..])
  {
    var tmp := a[i];
    a[i] := a[r];
    a[r] := tmp;
  }

  /** Different draws give different orders. */
  lemma {:induction false} DrawsAreRecoverable<T>(s: seq<T>, d: seq<nat>, e: seq<nat>, i: nat)
    requires Distinct(s) && ValidDraws(d, |s|) && ValidDraws(e, |s|) && i <= |s|
    requires ShuffleFrom(s, d, i) == ShuffleFrom(s, e, i)
    ensures forall j :: 0 <= j < i ==> d[j] == e[j]
    decreases i
  {
    if i > 1 {
      LastIsDrawn(s, d, i);
      LastIsDrawn(s, e, i);
      SameDraw(s, d[i - 1], e[i - 1]);
      SwapDistinct(s, i - 1, d[i - 1]);
      DrawsAreRecoverable(Swap(s, i - 1, d[i - 1]), d, e, i - 1);
    }
  }

  lemma SameDraw<T>(s: seq<T>, i: nat, j: nat)
    requires Distinct(s) && i < |s| && j < |s| && s[i] == s[j]
    ensures i == j
  {
  }

  lemma LastIsDrawn<T>(s: seq<T>, d: seq<nat>, i: nat)
    requires ValidDraws(d, |s|) && 1 < i <= |s|
    ensures ShuffleFrom(s, d, i)[i - 1] == s[d[i - 1]]
  {
    ShuffleKeepsRest(Swap(s, i - 1, d[i - 1]), d, i - 1, i - 1);
  }

  lemma SwapDistinct<T>(s: seq<T>, i: nat, j: nat)
    requires Distinct(s) && i < |s| && j < |s|
    ensures Distinct(Swap(s, i, j))
  {
  }

  /** Every order comes from some draws. */
  lemma {:induction false} DrawsFor<T>(s: seq<T>, p: seq<T>, i: nat) returns (d: seq<nat>)
    requires |s| == |p| && i <= |s|
    requires multiset(s) == multiset(p) && s[i..] == p[i..]
    ensures ValidDraws(d, |s|) && ShuffleFrom(s, d, i) == p
    decreases i
  {
    if i <= 1 {
      d := LastDraws(s, p, i);
    } else {
      var r := PlaceName(s, p, i);
      var rest := DrawsFor(Swap(s, i - 1, r), p, i - 1);
      d := DrawOneMore(s, p, i, r, rest);
    }
  }

  lemma LastDraws<T>(s: seq<T>, p: seq<T>, i: nat) returns (d: seq<nat>)
    requires |s| == |p| && i <= |s| && i <= 1
    requires multiset(s) == multiset(p) && s[i..] == p[i..]
    ensures ValidDraws(d, |s|) && ShuffleFrom(s, d, i) == p
  {
    LastPlace(s, p, i);
    d := NoDraws(|s|);
  }

  /** Which name to put at place `i - 1`. */
  lemma PlaceName<T>(s: seq<T>, p: seq<T>, i: nat) returns (r: nat)
    requires |s| == |p| && 0 < i <= |s|
    requires multiset(s) == multiset(p) && s[i..] == p[i..]
    ensures r < i && multiset(Swap(s, i - 1, r)) == multiset(p) && Swap(s, i - 1, r)[i - 1..] == p[i - 1..]
  {
    r := FindName(s, p, i);
    SwapPermutes(s, i - 1, r);
    OnePlaceMore(s, p, i, r);
  }

  lemma DrawOneMore<T>(s: seq<T>, p: seq<T>, i: nat, r: nat, rest: seq<nat>) returns (d: seq<nat>)
    requires 1 < i <= |s| && r < i && ValidDraws(rest, |s|)
    requires ShuffleFrom(Swap(s, i - 1, r), rest, i - 1) == p
    ensures ValidDraws(d, |s|) && ShuffleFrom(s, d, i) == p
  {
    d := rest[i - 1 := r];
    DrawsAbove(Swap(s, i - 1, r), rest, d, i - 1);
  }

  function NoDraws(n: nat): (d: seq<nat>)
    ensures ValidDraws(d, n)
  {
    seq(n, _ => 0)
  }

  lemma OnePlaceMore<T>(s: seq<T>, p: seq<T>, i: nat, r: nat)
    requires |s| == |p| && 0 < i <= |s| && r < i && s[i..] == p[i..] && s[r] == p[i - 1]
    ensures Swap(s, i - 1, r)[i - 1..] == p[i - 1..]
  {
    var t := Swap(s, i - 1, r);
    forall k | i - 1 <= k < |s|
      ensures t[k] == p[k]
    {
      if k >= i {
        assert s[i..][k - i] == p[i..][k - i];
      }
    }
  }

  lemma LastPlace<T>(s: seq<T>, p: seq<T>, i: nat)
    requires |s| == |p| && i <= |s| && i <= 1
    requires multiset(s) == multiset(p) && s[i..] == p[i..]
    ensures s == p
  {
    PrefixMultiset(s, p, i);
    assert s == s[..i] + s[i..] && p == p[..i] + p[i..];
    if i == 1 {
      assert s[..1] == [s[0]] && p[..1] == [p[0]];
      assert multiset([s[0]])[s[0]] == multiset([p[0]])[s[0]];
    }
  }

  lemma FindName<T>(s: seq<T>, p: seq<T>, i: nat) returns (r: nat)
    requires |s| == |p| && 0 < i <= |s|
    requires multiset(s) == multiset(p) && s[i..] == p[i..]
    ensures r < i && s[r] == p[i - 1]
  {
    PrefixMultiset(s, p, i);
    assert p[..i][i - 1] in multiset(p[..i]);
    assert p[i - 1] in multiset(s[..i]);
    r :| 0 <= r < |s[..i]| && s[..i][r] == p[i - 1];
  }

  lemma PrefixMultiset<T>(s: seq<T>, p: seq<T>, i: nat)
    requires |s| == |p| && i <= |s|
    requires multiset(s) == multiset(p) && s[i..] == p[i..]
    ensures multiset(s[..i]) == multiset(p[..i])
  {
    assert s == s[..i] + s[i..] && p == p[..i] + p[i..];
    Cancel(multiset(s[..i]), multiset(p[..i]), multiset(s[i..]));
  }

  lemma Cancel<T>(a: multiset<T>, b: multiset<T>, c: multiset<T>)
    requires a + c == b + c
    ensures a == b
  {
    assert forall x :: a[x] + c[x] == (a + c)[x] && b[x] + c[x] == (b + c)[x];
  }

  /** The steps below `i` look at no draw from `i` on. */
  lemma {:induction false} DrawsAbove<T>(s: seq<T>, d: seq<nat>, e: seq<nat>, i: nat)
    requires ValidDraws(d, |s|) && ValidDraws(e, |s|) && i <= |s|
    requires forall j :: 0 <= j < i ==> d[j] == e[j]
    ensures ShuffleFrom(s, d, i) == ShuffleFrom(s, e, i)
    decreases i
  {
    if i > 1 {
      DrawsAbove(Swap(s, i - 1, d[i - 1]), d, e, i - 1);
    }
  }

  /** Of distinct names every order results from exactly one sequence of draws, and
      every sequence of draws gives an order. */
  lemma ShuffleIsBijective<T>(s: seq<T>, p: seq<T>)
    requires Distinct(s)
    ensures multiset(p) == multiset(s) <==> exists d: seq<nat> :: ValidDraws(d, |s|) && Shuffled(s, d) == p
    ensures forall d: seq<nat>, e: seq<nat> ::
      ValidDraws(d, |s|) && ValidDraws(e, |s|) && Shuffled(s, d) == Shuffled(s, e) ==> d == e
  {
    forall d: seq<nat> | ValidDraws(d, |s|)
      ensures multiset(Shuffled(s, d)) == multiset(s)
    {
      ShufflePermutes(s, d, |s|);
    }
    if multiset(p) == multiset(s) {
      assert |multiset(p)| == |p| && |multiset(s)| == |s|;
      var d := DrawsFor(s, p, |s|);
      assert Shuffled(s, d) == p;
    }
    forall d: seq<nat>, e: seq<nat> | ValidDraws(d, |s|) && ValidDraws(e, |s|) && Shuffled(s, d) == Shuffled(s, e)
      ensures d == e
    {
      DrawsAreRecoverable(s, d, e, |s|);
    }
  }

  // ----- collecting

  /** How a function ends. The last three are ends the code does not survive by any rule
      of C: it writes before a string, follows a null list, or writes behind an array. */
  datatype Status =
    | Ok | InternalError | SiteNotUnique | Corruption | Unsuccessful | InvalidLevel
    | Underrun | NullList | Overrun

  /** A server object and what following its reference to the computer object gives. */
  datatype Server = Server(reference: bool, computer: bool, dnsHostName: Option<string>, accountName: Option<string>)

  /** A site; the search for its servers may fail. */
  datatype Site = Site(name: Option<string>, servers: Option<seq<Server>>)

  /** The name a server is listed under: the account name without the dollar sign it ends
      in, or the DNS name. */
  function NameOf(s: Server, fqdn: bool): (name: Option<string>)
    ensures name.Some? ==> s.reference && s.computer
    ensures name.Some? && fqdn ==> s.dnsHostName == name
    ensures name.Some? && !fqdn ==> ShortOf(s.accountName, name.value)
  {
    if !s.reference || !s.computer then None
    else if fqdn then s.dnsHostName
    else if s.accountName.Some? && s.accountName.value != "" then Some(s.accountName.value[..|s.accountName.value| - 1])
    else None
  }

  /** `name` is the account name without its last character. */
  predicate ShortOf(accountName: Option<string>, name: string)
  {
    accountName.Some? && |accountName.value| == |name| + 1 && name < accountName.value
  }

  /** A server has a name exactly when its computer object is found with the attribute. */
  lemma NamedWhen(s: Server, fqdn: bool)
    ensures NameOf(s, fqdn).Some? <==>
      && s.reference && s.computer
      && (if fqdn then s.dnsHostName.Some? else s.accountName.Some? && s.accountName.value != "")
  {
  }

  /** What naming a server ends with. The last character of an empty account name does
      not exist. */
  function ServerStatus(s: Server, fqdn: bool): (status: Status)
    ensures status.Ok? <==> NameOf(s, fqdn).Some?
  {
    if NameOf(s, fqdn).Some? then Ok
    else if s.reference && s.computer && !fqdn && s.accountName == Some("") then Underrun
    else InternalError
  }

  /** The first server that cannot be named decides. */
  function ServersStatus(servers: seq<Server>, fqdn: bool): (status: Status)
    ensures status.Ok? <==> AllNamed(servers, fqdn)
  {
    if servers == [] then Ok
    else if ServerStatus(servers[0], fqdn).Ok? then ServersStatus(servers[1..], fqdn)
    else ServerStatus(servers[0], fqdn)
  }

  function SiteStatus(site: Site, fqdn: bool): (status: Status)
    ensures status.Ok? <==> Listable(site, fqdn)
  {
    if site.servers.None? then InternalError else ServersStatus(site.servers.value, fqdn)
  }

  predicate AllNamed(servers: seq<Server>, fqdn: bool)
  {
    forall i :: 0 <= i < |servers| ==> NameOf(servers[i], fqdn).Some?
  }

  function Names(servers: seq<Server>, fqdn: bool): (ns: seq<string>)
    requires AllNamed(servers, fqdn)
    ensures |ns| == |servers| && forall i :: 0 <= i < |ns| ==> NameOf(servers[i], fqdn) == Some(ns[i])
  {
    seq(|servers|, i requires 0 <= i < |servers| => NameOf(servers[i], fqdn).value)
  }

  /** The lookups within the site succeed. */
  predicate Listable(site: Site, fqdn: bool)
  {
    site.servers.Some? && AllNamed(site.servers.value, fqdn)
  }

  function SiteNames(site: Site, fqdn: bool): seq<string>
  {
    if Listable(site, fqdn) then Names(site.servers.value, fqdn) else []
  }

  /** One round of the loop in get_dcs_insite. */
  method NameServer(s: Server, fqdn: bool) returns (status: Status, name: string)
    ensures status == ServerStatus(s, fqdn)
    ensures status.Ok? ==> Some(name) == NameOf(s, fqdn)
    ensures status.Ok? ==> if fqdn then s.dnsHostName == Some(name) else ShortOf(s.accountName, name)
  {
    name := "";
    if !s.reference || !s.computer {
      return InternalError, name;
    }
    if fqdn {
      if s.dnsHostName.None? {
        return InternalError, name;
      }
      name := s.dnsHostName.value;
    } else {
      if s.accountName.None? {
        return InternalError, name;
      }
      var tmp := s.accountName.value;
      if tmp == "" {
        return Underrun, name;
      }
      name := tmp[..|tmp| - 1];
    }
    status := Ok;
  }

  /** The random numbers: the one drawn for place `i` in shuffle number `c`. */
  type Random = (nat, nat) -> nat

  function Numbers(random: Random, c: nat, n: nat): (r: seq<nat>)
    ensures |r| == n && forall i :: 0 <= i < n ==> r[i] == random(c, i)
  {
    seq(n, i requires 0 <= i < n => random(c, i))
  }

  /** The group with a site's names behind it, shuffled as a whole; a site without servers
      changes nothing. */
  function Grown(list: seq<string>, site: Site, fqdn: bool, random: Random, c: nat): seq<string>
  {
    var names := SiteNames(site, fqdn);
    if names == [] then list
    else
      var all := list + names;
      Shuffled(all, Draws(Numbers(random, c, |all|)))
  }

  lemma GrownPermutes(list: seq<string>, site: Site, fqdn: bool, random: Random, c: nat)
    ensures multiset(Grown(list, site, fqdn, random, c)) == multiset(list) + multiset(SiteNames(site, fqdn))
  {
    var all := list + SiteNames(site, fqdn);
    ShufflePermutes(all, Draws(Numbers(random, c, |all|)), |all|);
  }

  /** The loop of get_dcs_insite: the old names and then one for each server. */
  method NameServers(list: seq<string>, servers: seq<Server>, fqdn: bool)
    returns (status: Status, names: array<string>)
    ensures fresh(names) && status == ServersStatus(servers, fqdn)
    ensures status.Ok? ==> names[..] == list + Names(servers, fqdn)
  {
    names := new string[|list| + |servers|];
    forall i | 0 <= i < |list| {
      names[i] := list[i];
    }
    var count := |list|;
    assert servers[0..] == servers;
    for i := 0 to |servers|
      invariant count == |list| + i
      invariant ServersStatus(servers[i..], fqdn) == ServersStatus(servers, fqdn)
      invariant forall j :: 0 <= j < i ==>
        NameOf(servers[j], fqdn).Some? && names[|list| + j] == NameOf(servers[j], fqdn).value
      invariant forall j :: 0 <= j < |list| ==> names[j] == list[j]
    {
      assert servers[i..][1..] == servers[i + 1..];
      var name;
      status, name := NameServer(servers[i], fqdn);
      if !status.Ok? {
        return;
      }
      names[count] := name;
      count := count + 1;
    }
    status := Ok;
  }

  /** get_dcs_insite: append the site's names to the group and shuffle the whole group. */
  method GetDcsInSite(list: seq<string>, site: Site, fqdn: bool, random: Random, c: nat)
    returns (status: Status, list': seq<string>)
    ensures status == SiteStatus(site, fqdn)
    ensures status.Ok? ==> list' == Grown(list, site, fqdn, random, c)
    ensures status.Ok? ==> multiset(list') == multiset(list) + multiset(SiteNames(site, fqdn))
  {
    GrownPermutes(list, site, fqdn, random, c);
    list' := list;
    if site.servers.None? {
      return InternalError, list;
    }
    var servers := site.servers.value;
    if |servers| == 0 {
      return Ok, list;
    }
    var names;
    status, names := NameServers(list, servers, fqdn);
    if !status.Ok? {
      return;
    }
    var count := names.Length;
    assert names[..count] == names[..];
    Shuffle(names, count, Numbers(random, c, count));
    list' := names[..count];
  }

  /** What a site adds when those called `skip` are left out. */
  function OtherOf(site: Site, skip: Option<string>, fqdn: bool): seq<string>
  {
    if skip.Some? && site.name == skip then [] else SiteNames(site, fqdn)
  }

  /** The names of all sites but those called `skip`. */
  function OtherNames(sites: seq<Site>, skip: Option<string>, fqdn: bool): seq<string>
  {
    if sites == [] then [] else OtherOf(sites[0], skip, fqdn) + OtherNames(sites[1..], skip, fqdn)
  }

  /** The names of the sites called `name`. */
  function NamesAt(sites: seq<Site>, name: Option<string>, fqdn: bool): seq<string>
  {
    if sites == [] then []
    else
      var first := if name.Some? && sites[0].name == name then SiteNames(sites[0], fqdn) else [];
      first + NamesAt(sites[1..], name, fqdn)
  }

  predicate OtherListable(site: Site, skip: Option<string>, fqdn: bool)
  {
    site.name.Some? && (skip.None? || site.name != skip ==> Listable(site, fqdn))
  }

  predicate OthersListable(sites: seq<Site>, skip: Option<string>, fqdn: bool)
  {
    forall i {:trigger OtherListable(sites[i], skip, fqdn)} :: 0 <= i < |sites| ==> OtherListable(sites[i], skip, fqdn)
  }

  /** A site is asked for. */
  predicate Sought(searched: Option<string>)
  {
    searched.Some? && searched.value != ""
  }

  /** What one site makes of the group, unless it is to be skipped. */
  function Joined(list: seq<string>, site: Site, skip: Option<string>, fqdn: bool, random: Random, c: nat): seq<string>
  {
    if skip.Some? && site.name == skip then list else Grown(list, site, fqdn, random, c)
  }

  /** How a group takes up a site, which is number `c`. */
  type Join = (seq<string>, Site, nat) -> seq<string>

  function JoinedBy(skip: Option<string>, fqdn: bool, random: Random): Join
  {
    (list: seq<string>, site: Site, c: nat) => Joined(list, site, skip, fqdn, random, c)
  }

  ghost predicate IsJoin(join: Join, skip: Option<string>, fqdn: bool, random: Random)
  {
    forall list, site, c: nat {:trigger Joined(list, site, skip, fqdn, random, c)} ::
      join(list, site, c) == Joined(list, site, skip, fqdn, random, c)
  }

  /** The group after the first `n` sites. */
  function Gathered(sites: seq<Site>, join: Join, n: nat): seq<string>
    requires n <= |sites|
  {
    if n == 0 then [] else join(Gathered(sites, join, n - 1), sites[n - 1], n)
  }

  /** The group of the other sites: it is shuffled again with each site that is added. */
  function OthersShuffled(sites: seq<Site>, skip: Option<string>, fqdn: bool, random: Random): seq<string>
  {
    Gathered(sites, JoinedBy(skip, fqdn, random), |sites|)
  }

  /** One round of the loop through all sites. */
  method CollectSite(list: seq<string>, site: Site, searched: Option<string>, fqdn: bool, random: Random, c: nat,
                     ghost join: Join)
    returns (status: Status, list': seq<string>)
    requires IsJoin(join, searched, fqdn, random)
    ensures status == if site.name.None? then Corruption
                      else if searched.Some? && site.name == searched then Ok
                      else SiteStatus(site, fqdn)
    ensures status.Ok? <==> OtherListable(site, searched, fqdn)
    ensures status.Ok? ==> list' == join(list, site, c)
  {
    assert join(list, site, c) == Joined(list, site, searched, fqdn, random, c);
    if site.name.None? {
      return Corruption, list;
    }
    if searched.None? || searched != site.name {
      status, list' := GetDcsInSite(list, site, fqdn, random, c);
    } else {
      status, list' := Ok, list;
    }
  }

  /** The loop of get_dcs through all sites. */
  method CollectAll(sites: seq<Site>, searched: Option<string>, fqdn: bool, random: Random, ghost join: Join)
    returns (status: Status, list: seq<string>)
    requires IsJoin(join, searched, fqdn, random)
    ensures status.Ok? <==> OthersListable(sites, searched, fqdn)
    ensures status.Ok? ==> list == Gathered(sites, join, |sites|)
  {
    list := [];
    for i := 0 to |sites|
      invariant list == Gathered(sites, join, i)
      invariant forall j {:trigger OtherListable(sites[j], searched, fqdn)} :: 0 <= j < i ==>
        OtherListable(sites[j], searched, fqdn)
    {
      status, list := CollectSite(list, sites[i], searched, fqdn, random, i + 1, join);
      if !status.Ok? {
        return;
      }
    }
    status := Ok;
  }

  /** The part of get_dcs that goes through all sites but the client's. */
  method CollectOthers(sites: seq<Site>, searched: Option<string>, fqdn: bool, random: Random)
    returns (status: Status, list: seq<string>)
    ensures status.Ok? <==> OthersListable(sites, searched, fqdn)
    ensures status.Ok? ==> list == OthersShuffled(sites, searched, fqdn, random)
    ensures status.Ok? ==> multiset(list) == multiset(OtherNames(sites, searched, fqdn))
  {
    status, list := CollectAll(sites, searched, fqdn, random, JoinedBy(searched, fqdn, random));
    AllOthers(sites, searched, fqdn, random);
  }

  lemma AllOthers(sites: seq<Site>, skip: Option<string>, fqdn: bool, random: Random)
    ensures multiset(OthersShuffled(sites, skip, fqdn, random)) == multiset(OtherNames(sites, skip, fqdn))
  {
    var join := JoinedBy(skip, fqdn, random);
    forall list, site, c: nat
      ensures multiset(join(list, site, c)) == multiset(list) + multiset(OtherOf(site, skip, fqdn))
    {
      GrownPermutes(list, site, fqdn, random, c);
    }
    GatheredPermute(sites, skip, fqdn, join, |sites|);
    assert sites[|sites|..] == [];
  }

  /** A join that only adds the names of the site. */
  ghost predicate Adds(join: Join, skip: Option<string>, fqdn: bool)
  {
    forall list, site, c: nat {:trigger join(list, site, c)} ::
      multiset(join(list, site, c)) == multiset(list) + multiset(OtherOf(site, skip, fqdn))
  }

  /** Whatever is drawn, the group holds the names of the sites gone through. */
  lemma {:induction false} GatheredPermute(sites: seq<Site>, skip: Option<string>, fqdn: bool, join: Join, n: nat)
    requires n <= |sites| && Adds(join, skip, fqdn)
    ensures Collected(Gathered(sites, join, n), sites, skip, fqdn, n)
  {
    if n == 0 {
      assert sites[0..] == sites;
    } else {
      GatheredPermute(sites, skip, fqdn, join, n - 1);
      CollectedNext(Gathered(sites, join, n - 1), Gathered(sites, join, n), sites, skip, fqdn, n - 1);
    }
  }

  /** The names of the first `i` sites are collected. */
  ghost predicate Collected(list: seq<string>, sites: seq<Site>, skip: Option<string>, fqdn: bool, i: nat)
  {
    i <= |sites| &&
    multiset(list) + multiset(OtherNames(sites[i..], skip, fqdn)) == multiset(OtherNames(sites, skip, fqdn))
  }

  lemma CollectedNext(before: seq<string>, after: seq<string>, sites: seq<Site>, skip: Option<string>, fqdn: bool,
                      i: nat)
    requires i < |sites| && Collected(before, sites, skip, fqdn, i)
    requires multiset(after) == multiset(before) + multiset(OtherOf(sites[i], skip, fqdn))
    ensures Collected(after, sites, skip, fqdn, i + 1)
  {
    OtherNamesStep(sites, skip, fqdn, i);
  }

  lemma OtherNamesStep(sites: seq<Site>, skip: Option<string>, fqdn: bool, i: nat)
    requires i < |sites|
    ensures multiset(OtherNames(sites[i..], skip, fqdn)) ==
      multiset(OtherOf(sites[i], skip, fqdn)) + multiset(OtherNames(sites[i + 1..], skip, fqdn))
  {
    assert sites[i..][1..] == sites[i + 1..];
  }

  /** get_dcs: `matches` are the sites the search for the client's site name found. */
  method GetDcs(searched: Option<string>, matches: Option<seq<nat>>, sites: seq<Site>, fqdn: bool, random: Random)
    returns (status: Status, sets: seq<seq<string>>)
    requires matches.Some? ==> forall i :: 0 <= i < |matches.value| ==> matches.value[i] < |sites|
    ensures status.Ok? <==>
      && (Sought(searched) ==> matches.Some? && |matches.value| == 1 && Listable(sites[matches.value[0]], fqdn))
      && OthersListable(sites, searched, fqdn)
    ensures status.Ok? ==>
      var groups := (if Sought(searched) then 1 else 0) + (if sites == [] then 0 else 1);
      && |sets| == groups
      && (Sought(searched) ==> sets[0] == Grown([], sites[matches.value[0]], fqdn, random, 0))
      && (sites != [] ==> sets[groups - 1] == OthersShuffled(sites, searched, fqdn, random))
      && (Sought(searched) ==> multiset(sets[0]) == multiset(SiteNames(sites[matches.value[0]], fqdn)))
      && (sites != [] ==> multiset(sets[groups - 1]) == multiset(OtherNames(sites, searched, fqdn)))
  {
    sets := [];
    if Sought(searched) {
      if matches.None? || |matches.value| != 1 {
        return SiteNotUnique, [];
      }
      var client;
      status, client := GetDcsInSite([], sites[matches.value[0]], fqdn, random, 0);
      if !status.Ok? {
        return;
      }
      sets := [client];
    }
    var others;
    status, others := CollectOthers(sites, searched, fqdn, random);
    if status.Ok? && |sites| > 0 {
      sets := sets + [others];
    }
  }

  // ----- the referral

  /** A referral entry; `boundary` is the flag that marks the start of a target set. */
  datatype Entry = Entry(version: nat, path: string, boundary: bool, ttl: nat)

  const BLANK := Entry(0, "", false, 0)
  const COUNT_LIMIT := 0x1_0000

  function Path(name: string, share: string): string
  {
    "\\" + name + "\\" + share
  }

  /** The entry for the name at place `i`; only version 4 marks the first one. */
  function EntryFor(name: string, share: string, level: nat, i: nat): Entry
  {
    Entry(level, Path(name, share), level == 4 && i == 0, if level == 4 then 900 else 600)
  }

  /** The first entries are those for the names, in order: the path of the share on the
      server, 600 seconds to live at level 3 and 900 at level 4, and at level 4 the first
      entry marked as the start of a target set. */
  predicate Refers(entries: seq<Entry>, names: seq<string>, share: string, level: nat)
  {
    && |names| <= |entries|
    && forall i {:trigger RefersTo(entries[i], names[i], share, level, i)} :: 0 <= i < |names| ==>
      RefersTo(entries[i], names[i], share, level, i)
  }

  predicate RefersTo(entry: Entry, name: string, share: string, level: nat, i: nat)
  {
    && entry.version == level
    && entry.path == ['\\'] + name + ['\\'] + share
    && (level == 3 ==> entry.ttl == 600 && !entry.boundary)
    && (level == 4 ==> entry.ttl == 900 && entry.boundary == (i == 0))
  }

  /** What filling `total` entries ends with, when the array has room for the number of
      them that fits 16 bits. */
  function FillStatus(total: nat, level: nat): Status
  {
    if total == 0 then Ok
    else if total % COUNT_LIMIT == 0 then Overrun
    else if level > 4 then InvalidLevel
    else if total >= COUNT_LIMIT then Overrun
    else Ok
  }

  /** The loops of dosysvol_referral: count the names, then fill one entry for each. The
      number of them is kept in 16 bits, and the array is of that length; so all of them
      are in bounds if and only if there are fewer than 65536. */
  method SysvolReferral(sets: seq<seq<string>>, share: string, level: nat)
    returns (status: Status, entries: array<Entry>)
    requires level >= 3
    ensures status == if sets == [] then NullList else FillStatus(|Concat(sets)|, level)
    ensures fresh(entries) && (sets != [] ==> entries.Length == |Concat(sets)| % COUNT_LIMIT)
    ensures status.Ok? ==> entries.Length == |Concat(sets)| && Refers(entries[..], Concat(sets), share, level)
  {
    if sets == [] {
      entries := new Entry[0];
      return NullList, entries;
    }
    var total := CountNames(sets);
    entries := new Entry[total % COUNT_LIMIT](_ => BLANK);
    status := FillGroups(sets, share, level, entries);
    FillEnds(total, level);
  }

  /** What filling `total` entries into an array of length `room` ends with. */
  function RoomStatus(total: nat, room: nat, level: nat): Status
  {
    if total == 0 then Ok
    else if room == 0 then Overrun
    else if level > 4 then InvalidLevel
    else if total > room then Overrun
    else Ok
  }

  lemma FillEnds(total: nat, level: nat)
    ensures FillStatus(total, level) == RoomStatus(total, total % COUNT_LIMIT, level)
    ensures FillStatus(total, level).Ok? ==> total % COUNT_LIMIT == total
  {
  }

  /** The second loop: group after group. */
  method FillGroups(sets: seq<seq<string>>, share: string, level: nat, entries: array<Entry>) returns (status: Status)
    requires level >= 3
    modifies entries
    ensures status == RoomStatus(|Concat(sets)|, entries.Length, level)
    ensures status.Ok? ==> Refers(entries[..], Concat(sets), share, level)
  {
    ghost var done: seq<string> := [];
    var c := 0;
    assert sets[0..] == sets && [] + Concat(sets) == Concat(sets);
    for i := 0 to |sets|
      invariant done + Concat(sets[i..]) == Concat(sets) && c == |done| <= entries.Length
      invariant Refers(entries[..], done, share, level) && (done != [] ==> level <= 4)
    {
      ConcatStep(sets, i, done);
      status := FillGroup(sets[i], share, level, entries, c, done);
      if !status.Ok? {
        return;
      }
      c, done := c + |sets[i]|, done + sets[i];
    }
    assert sets[|sets|..] == [] && done + [] == done;
    status := Ok;
  }

  method CountNames(sets: seq<seq<string>>) returns (total: nat)
    ensures total == |Concat(sets)|
  {
    total := 0;
    assert sets[0..] == sets;
    for i := 0 to |sets|
      invariant total + |Concat(sets[i..])| == |Concat(sets)|
    {
      assert sets[i..][1..] == sets[i + 1..];
      total := total + |sets[i]|;
    }
  }

  lemma ConcatStep<T>(ss: seq<seq<T>>, i: nat, done: seq<T>)
    requires i < |ss|
    ensures done + Concat(ss[i..]) == (done + ss[i]) + Concat(ss[i + 1..])
  {
    assert ss[i..][1..] == ss[i + 1..];
    var rest := Concat(ss[i + 1..]);
    assert done + (ss[i] + rest) == (done + ss[i]) + rest;
  }

  lemma ConcatTwo<T>(ss: seq<seq<T>>)
    ensures |ss| == 1 ==> Concat(ss) == [] + ss[0]
    ensures |ss| == 2 ==> Concat(ss) == ss[0] + ss[1]
  {
    if |ss| == 1 {
      ConcatOne(ss[0]);
      assert ss == [ss[0]];
    } else if |ss| == 2 {
      ConcatOne(ss[1]);
      assert ss[1..] == [ss[1]];
    }
  }

  /** The entries of one group. Each is cleared before its version is looked at. */
  method FillGroup(names: seq<string>, share: string, level: nat, entries: array<Entry>, count: nat,
                   ghost done: seq<string>)
    returns (status: Status)
    requires count == |done|
    requires level >= 3 && |done| <= entries.Length && Refers(entries[..], done, share, level)
    requires done != [] ==> level <= 4
    modifies entries
    ensures status ==
      if names == [] then Ok
      else if entries.Length == |done| then Overrun
      else if level > 4 then InvalidLevel
      else if |done| + |names| > entries.Length then Overrun
      else Ok
    ensures status.Ok? ==> |done| + |names| <= entries.Length && Refers(entries[..], done + names, share, level)
  {
    var c := count;
    for j := 0 to |names|
      invariant c == count + j <= entries.Length && (j > 0 ==> level <= 4)
      invariant Refers(entries[..], done + names[..j], share, level)
    {
      if c >= entries.Length {
        return Overrun;
      }
      entries[c] := BLANK;
      if level != 3 && level != 4 {
        return InvalidLevel;
      }
      entries[c] := EntryFor(names[j], share, level, c);
      assert done + names[..j + 1] == done + names[..j] + [names[j]];
      c := c + 1;
    }
    assert names[..|names|] == names;
    status := Ok;
  }

  /** Every name belongs to the sites of one name or to the others. */
  lemma {:induction false} SitesDecompose(sites: seq<Site>, name: Option<string>, fqdn: bool)
    ensures multiset(OtherNames(sites, None, fqdn))
      == multiset(NamesAt(sites, name, fqdn)) + multiset(OtherNames(sites, name, fqdn))
  {
    if sites != [] {
      SitesDecompose(sites[1..], name, fqdn);
    }
  }

  /** The referral lists every controller of every site once, if and only if the names
      taken for the client's site are those of the sites called by exactly the name
      that was sought. */
  lemma EachOnce(client: seq<string>, others: seq<string>, sites: seq<Site>, name: Option<string>, fqdn: bool)
    requires multiset(others) == multiset(OtherNames(sites, name, fqdn))
    ensures multiset(client + others) == multiset(OtherNames(sites, None, fqdn))
      <==> multiset(client) == multiset(NamesAt(sites, name, fqdn))
  {
    SitesDecompose(sites, name, fqdn);
    assert multiset(client + others) == multiset(client) + multiset(others);
    if multiset(client + others) == multiset(OtherNames(sites, None, fqdn)) {
      Cancel(multiset(client), multiset(NamesAt(sites, name, fqdn)), multiset(others));
    }
  }

  /** In particular when the site found is the only one of that name. */
  lemma {:induction false} OnlySite(sites: seq<Site>, name: Option<string>, fqdn: bool, m: nat)
    requires m < |sites| && name.Some?
    requires forall i :: 0 <= i < |sites| ==> (sites[i].name == name <==> i == m)
    ensures NamesAt(sites, name, fqdn) == SiteNames(sites[m], fqdn)
  {
    if m == 0 {
      NoSite(sites[1..], name, fqdn);
    } else {
      assert sites[0].name != name;
      OnlySite(sites[1..], name, fqdn, m - 1);
    }
  }

  /** When no site is called by exactly that name, the controllers of the site found
      (by a search that ignores case, say) are listed a second time. */
  lemma {:induction false} NoSite(sites: seq<Site>, name: Option<string>, fqdn: bool)
    requires forall i :: 0 <= i < |sites| ==> sites[i].name != name
    ensures NamesAt(sites, name, fqdn) == [] && OtherNames(sites, name, fqdn) == OtherNames(sites, None, fqdn)
  {
    if sites != [] {
      NoSite(sites[1..], name, fqdn);
    }
  }

  /** The search found one site, and it alone is called by exactly the name sought. */
  predicate OnlyMatch(sites: seq<Site>, searched: Option<string>, matches: Option<seq<nat>>)
  {
    && matches.Some? && |matches.value| == 1 && matches.value[0] < |sites|
    && forall i :: 0 <= i < |sites| ==> (sites[i].name == searched <==> i == matches.value[0])
  }

  /** No site is asked for, and none would be skipped. */
  predicate NoneSkipped(sites: seq<Site>, searched: Option<string>)
  {
    !Sought(searched) && forall i :: 0 <= i < |sites| && searched.Some? ==> sites[i].name != searched
  }

  /** The lookups that get_dcs makes succeed. */
  predicate Found(searched: Option<string>, matches: Option<seq<nat>>, sites: seq<Site>, fqdn: bool)
  {
    && (Sought(searched) ==>
        && matches.Some? && |matches.value| == 1 && matches.value[0] < |sites|
        && Listable(sites[matches.value[0]], fqdn))
    && OthersListable(sites, searched, fqdn)
  }

  /** The two groups of a referral: the client's site and the others, each as its shuffles
      leave it. */
  ghost predicate Groups(client: seq<string>, others: seq<string>, searched: Option<string>,
                         matches: Option<seq<nat>>, sites: seq<Site>, fqdn: bool, random: Random)
    requires Found(searched, matches, sites, fqdn)
  {
    && client == (if Sought(searched) then Grown([], sites[matches.value[0]], fqdn, random, 0) else [])
    && others == OthersShuffled(sites, searched, fqdn, random)
    && multiset(client) == (if Sought(searched) then multiset(SiteNames(sites[matches.value[0]], fqdn)) else multiset{})
    && multiset(others) == multiset(OtherNames(sites, searched, fqdn))
  }

  /** Nobody is left out and nobody is listed twice. */
  ghost predicate EveryoneOnce(client: seq<string>, others: seq<string>, searched: Option<string>,
                               matches: Option<seq<nat>>, sites: seq<Site>, fqdn: bool)
  {
    NoneSkipped(sites, searched) || (Sought(searched) && OnlyMatch(sites, searched, matches)) ==>
      multiset(client + others) == multiset(OtherNames(sites, None, fqdn))
  }

  /** get_dcs, and which of its groups is which. */
  method GetGroups(searched: Option<string>, matches: Option<seq<nat>>, sites: seq<Site>, fqdn: bool, random: Random)
    returns (status: Status, sets: seq<seq<string>>, ghost client: seq<string>, ghost others: seq<string>)
    requires matches.Some? ==> forall i :: 0 <= i < |matches.value| ==> matches.value[i] < |sites|
    ensures status.Ok? <==> Found(searched, matches, sites, fqdn)
    ensures status.Ok? ==>
      && Groups(client, others, searched, matches, sites, fqdn, random)
      && EveryoneOnce(client, others, searched, matches, sites, fqdn)
      && Concat(sets) == client + others && (sets == [] <==> sites == [])
  {
    client, others := [], [];
    status, sets := GetDcs(searched, matches, sites, fqdn, random);
    if !status.Ok? {
      return;
    }
    if Sought(searched) {
      client, others := sets[0], sets[1];
    } else if sites != [] {
      others := sets[0];
    }
    AllOnce(client, others, sites, searched, matches, fqdn);
    ConcatTwo(sets);
  }

  /** dosysvol_referral: it ends well if and only if the lookups succeed, there is a site,
      the level is known and there are fewer than 65536 entries. When the client's site
      is the only one of its name, every controller of every site is listed exactly once,
      those of the client's site before all others; and so they are when no site is asked
      for. */
  method DoSysvolReferral(domain: string, searched: Option<string>, matches: Option<seq<nat>>, sites: seq<Site>,
                          share: string, level: nat, random: Random)
    returns (status: Status, entries: array<Entry>, ghost client: seq<string>, ghost others: seq<string>)
    requires matches.Some? ==> forall i :: 0 <= i < |matches.value| ==> matches.value[i] < |sites|
    ensures level < 3 ==> status == Unsuccessful
    ensures level >= 3 && Found(searched, matches, sites, '.' in domain) ==>
      && Groups(client, others, searched, matches, sites, '.' in domain, random)
      && status == if sites == [] then NullList else FillStatus(|client + others|, level)
    ensures level >= 3 && !Found(searched, matches, sites, '.' in domain) ==> !status.Ok?
    ensures status.Ok? ==> entries.Length == |client + others| && Refers(entries[..], client + others, share, level)
    ensures status.Ok? ==> EveryoneOnce(client, others, searched, matches, sites, '.' in domain)
  {
    client, others := [], [];
    entries := new Entry[0];
    if level < 3 {
      return Unsuccessful, entries, client, others;
    }
    var sets;
    status, sets, client, others := GetGroups(searched, matches, sites, '.' in domain, random);
    if !status.Ok? {
      return;
    }
    status, entries := SysvolReferral(sets, share, level);
  }

  lemma AllOnce(client: seq<string>, others: seq<string>, sites: seq<Site>, searched: Option<string>,
                matches: Option<seq<nat>>, fqdn: bool)
    requires multiset(others) == multiset(OtherNames(sites, searched, fqdn))
    requires Sought(searched) ==> matches.Some? && |matches.value| == 1 && matches.value[0] < |sites|
    requires multiset(client) ==
      if Sought(searched) then multiset(SiteNames(sites[matches.value[0]], fqdn)) else multiset{}
    ensures NoneSkipped(sites, searched) || (Sought(searched) && OnlyMatch(sites, searched, matches)) ==>
      multiset(client + others) == multiset(OtherNames(sites, None, fqdn))
  {
    EachOnce(client, others, sites, searched, fqdn);
    if Sought(searched) {
      if OnlyMatch(sites, searched, matches) {
        OnlySite(sites, searched, fqdn, matches.value[0]);
      }
    } else if NoneSkipped(sites, searched) && searched.Some? {
      NoSite(sites, searched, fqdn);
    } else if searched.None? {
      NamesAtNone(sites, fqdn);
    }
  }

  lemma {:induction false} NamesAtNone(sites: seq<Site>, fqdn: bool)
    ensures NamesAt(sites, None, fqdn) == []
  {
    if sites != [] {
      NamesAtNone(sites[1..], fqdn);
    }
  }
}
