/** The applied policies kept in the registry (libgpo/gpo_reg.c). */
module GpoReg {
  import opened Wire
  import opened Decimal
  import opened Wrappers

  datatype Result<T> = Ok(value: T) | Err

  datatype Gpo = Gpo(version: uint32, options: uint32, name: string, link: Option<string>, displayName: string)

  datatype Value = Sz(text: string) | Dword(data: seq<byte>)

  /** The names of the values, "WQL-Id" and the like. */
  datatype ValueName =
    | Version | WqlFilterPass | AccessDenied | GpoDisabled | Options | GpoId | Som | DisplayName | WqlId
    | DistinguishedName

  /** The values of a key. */
  datatype Values = Values(version: Option<Value>, wqlFilterPass: Option<Value>, accessDenied: Option<Value>,
                           gpoDisabled: Option<Value>, options: Option<Value>, gpoId: Option<Value>, som: Option<Value>,
                           displayName: Option<Value>, wqlId: Option<Value>, distinguishedName: Option<Value>)
  {
    function Get(name: ValueName): Option<Value>
    {
      match name
      case Version => version
      case WqlFilterPass => wqlFilterPass
      case AccessDenied => accessDenied
      case GpoDisabled => gpoDisabled
      case Options => options
      case GpoId => gpoId
      case Som => som
      case DisplayName => displayName
      case WqlId => wqlId
      case DistinguishedName => distinguishedName
    }

    function Put(name: ValueName, value: Value): Values
    {
      match name
      case Version => this.(version := Some(value))
      case WqlFilterPass => this.(wqlFilterPass := Some(value))
      case AccessDenied => this.(accessDenied := Some(value))
      case GpoDisabled => this.(gpoDisabled := Some(value))
      case Options => this.(options := Some(value))
      case GpoId => this.(gpoId := Some(value))
      case Som => this.(som := Some(value))
      case DisplayName => this.(displayName := Some(value))
      case WqlId => this.(wqlId := Some(value))
      case DistinguishedName => this.(distinguishedName := Some(value))
    }

    /** Setting a value changes that value and no other. */
    lemma PutGet(name: ValueName, value: Value, other: ValueName)
      ensures Put(name, value).Get(other) == if other == name then Some(value) else Get(other)
    {
    }
  }

  const NO_VALUES := Values(None, None, None, None, None, None, None, None, None, None)

  /** A key, named by the steps from the "Group Policy" key down to it. */
  type Path = seq<string>

  type Keys = map<Path, Values>

  const FLAG_MACHINE := 1

  function StatePath(flags: uint32, sid: string): (path: Path)
    ensures flags % 2 == 1 ==> path == ["State", "Machine"]
    ensures flags % 2 == 0 ==> path == ["State", sid]
  {
    ["State", if HasBit(flags, FLAG_MACHINE) then "Machine" else sid]
  }

  /** Two states are one exactly when both are the machine's or both are one user's; a user
      whose SID is the word itself would share the machine's. */
  predicate SameState(flags: uint32, sid: string, flags': uint32, sid': string)
  {
    var (machine, machine') := (flags % 2 == 1, flags' % 2 == 1);
    || (machine && machine')
    || (!machine && !machine' && sid == sid')
    || (machine && !machine' && sid' == "Machine")
    || (!machine && machine' && sid == "Machine")
  }

  lemma StatePathIs(flags: uint32, sid: string, flags': uint32, sid': string)
    ensures StatePath(flags, sid) == StatePath(flags', sid') <==> SameState(flags, sid, flags', sid')
    ensures sid != "Machine" && sid' != "Machine" ==>
      (StatePath(flags, sid) == StatePath(flags', sid') <==>
       (flags % 2 == 1 && flags' % 2 == 1) || (flags % 2 == 0 && flags' % 2 == 0 && sid == sid'))
  {
    BitsInUse(flags);
    BitsInUse(flags');
    assert StatePath(flags, sid) == StatePath(flags', sid') <==> StatePath(flags, sid)[1] == StatePath(flags', sid')[1];
  }

  function ListPath(flags: uint32, sid: string): Path
  {
    StatePath(flags, sid) + ["GPO-List"]
  }

  /** The key of the n-th policy. */
  function Entry(list: Path, n: nat): Path
  {
    list + [Print(n)]
  }

  lemma EntryInjective(list: Path, m: nat, n: nat)
    ensures Entry(list, m) == Entry(list, n) ==> m == n
  {
    if Entry(list, m) == Entry(list, n) {
      assert Entry(list, m)[|list|] == Print(m) && Entry(list, n)[|list|] == Print(n);
      PrintInjective(m, n);
    }
  }

  predicate Starts(path: Path, p: Path)
  {
    |path| <= |p| && p[..|path|] == path
  }

  /** A key exists together with those above it. */
  predicate Rooted(keys: Keys, path: Path)
  {
    forall k :: 0 < k <= |path| ==> path[..k] in keys
  }

  /** Creating a key creates the keys above it and leaves existing ones alone. */
  function Created(keys: Keys, path: Path): (r: Keys)
    ensures Rooted(r, path)
    ensures forall p :: p in keys ==> p in r && r[p] == keys[p]
    ensures forall p :: p in r ==> p in keys || Starts(p, path)
  {
    if path == [] then keys
    else
      var init := path[..|path| - 1];
      var above := Created(keys, init);
      assert forall k :: 0 <= k < |path| ==> path[..k] == init[..k];
      assert path[..|path|] == path;
      if path in above then above else above[path := NO_VALUES]
  }

  /** A key whose parent exists is created alone. */
  lemma CreatedChild(keys: Keys, parent: Path, name: string)
    requires Rooted(keys, parent)
    ensures Created(keys, parent + [name]) ==
      if parent + [name] in keys then keys else keys[parent + [name] := NO_VALUES]
  {
    assert (parent + [name])[..|parent|] == parent;
    CreatedAgain(keys, parent);
  }

  lemma {:induction false} CreatedAgain(keys: Keys, path: Path)
    requires Rooted(keys, path)
    ensures Created(keys, path) == keys
  {
    if path != [] {
      var init := path[..|path| - 1];
      assert path[..|path|] == path;
      assert forall k :: 0 <= k < |path| ==> path[..k] == init[..k];
      CreatedAgain(keys, init);
    }
  }

  function Pruned(keys: Keys, path: Path): (r: Keys)
    ensures forall p :: p in r <==> p in keys && (Starts(path, p) ==> p == path)
    ensures forall p :: p in r ==> r[p] == keys[p]
  {
    map p | p in keys && (Starts(path, p) ==> p == path) :: keys[p]
  }

  /** The registry. Any operation may fail of itself, which `faults` counts. */
  class Registry {
    var keys: Keys
    var faults: nat

    constructor ()
      ensures keys == map[] && faults == 0
    {
      keys, faults := map[], 0;
    }

    method Fails() returns (fails: bool)
      modifies this`faults
      ensures faults == if fails then old(faults) + 1 else old(faults)
    {
      fails := *;
      faults := if fails then faults + 1 else faults;
    }

    method CreateKey(path: Path) returns (ok: bool)
      modifies this
      ensures keys == if ok then Created(old(keys), path) else old(keys)
      ensures faults == if ok then old(faults) else old(faults) + 1
    {
      var fails := Fails();
      ok := !fails;
      keys := if ok then Created(keys, path) else keys;
    }

    /** reg_deletesubkeys_recursive, which runs in a transaction. */
    method DeleteSubkeys(path: Path) returns (ok: bool)
      modifies this
      ensures ok <==> path in old(keys) && faults == old(faults)
      ensures keys == if ok then Pruned(old(keys), path) else old(keys)
      ensures faults >= old(faults)
    {
      var fails := Fails();
      ok := !fails && path in keys;
      keys := if ok then Pruned(keys, path) else keys;
    }

    method SetValue(path: Path, name: ValueName, value: Value) returns (ok: bool)
      requires path in keys
      modifies this
      ensures keys == if ok then old(keys)[path := old(keys)[path].Put(name, value)] else old(keys)
      ensures faults == if ok then old(faults) else old(faults) + 1
    {
      var fails := Fails();
      ok := !fails;
      keys := if ok then keys[path := keys[path].Put(name, value)] else keys;
    }

    /** Storing the security descriptor and the group memberships, which are not below
        "State". */
    method StoreElsewhere() returns (ok: bool)
      modifies this
      ensures SameStates(old(keys), keys)
      ensures faults == if ok then old(faults) else old(faults) + 1
    {
      var fails := Fails();
      ok := !fails;
      var other: Keys := *;
      keys := map p | p in keys.Keys + other.Keys && (if Starts(["State"], p) then p in keys else p in other)
        :: if Starts(["State"], p) then keys[p] else other[p];
    }

    /** gp_store_reg_val_dword. */
    method StoreDword(path: Path, name: ValueName, v: uint32) returns (ok: bool)
      requires path in keys
      modifies this
      ensures faults == if ok then old(faults) else old(faults) + 1
      ensures OnlyAt(path, old(keys), keys)
      ensures ok ==> keys[path] == old(keys)[path].Put(name, Dword(Bytes32(v)))
      ensures ok ==> DwordAt(keys[path], name) == Ok(v)
    {
      keys[path].PutGet(name, Dword(Bytes32(v)), name);
      ok := SetValue(path, name, Dword(Bytes32(v)));
    }

    /** gp_store_reg_val_sz. */
    method StoreSz(path: Path, name: ValueName, text: string) returns (ok: bool)
      requires path in keys
      modifies this
      ensures faults == if ok then old(faults) else old(faults) + 1
      ensures OnlyAt(path, old(keys), keys)
      ensures ok ==> keys[path] == old(keys)[path].Put(name, Sz(text))
    {
      ok := SetValue(path, name, Sz(text));
    }

    /** The numbers stored by gp_store_reg_gpovals. */
    method StoreNumbers(path: Path, gpo: Gpo) returns (ok: bool)
      requires path in keys
      modifies this
      ensures faults == if ok then old(faults) else old(faults) + 1
      ensures OnlyAt(path, old(keys), keys)
      ensures ok ==> Numbers(keys[path], gpo)
    {
      ok := StoreDword(path, Version, gpo.version);
      if !ok { return; }
      ok := StoreDword(path, WqlFilterPass, 1);
      if !ok { return; }
      ok := StoreDword(path, AccessDenied, 0);
      if !ok { return; }
      ok := StoreDword(path, GpoDisabled, gpo.options % 2);
      if !ok { return; }
      ok := StoreDword(path, Options, gpo.options);
    }

    /** The first two strings stored by gp_store_reg_gpovals. */
    method StoreNames(path: Path, gpo: Gpo) returns (ok: bool)
      requires path in keys && Numbers(keys[path], gpo)
      modifies this
      ensures faults == if ok then old(faults) else old(faults) + 1
      ensures OnlyAt(path, old(keys), keys)
      ensures ok ==> Numbers(keys[path], gpo) && Names(keys[path], gpo)
    {
      ok := StoreSz(path, GpoId, gpo.name);
      if ok {
        ok := StoreSz(path, Som, LinkText(gpo));
      }
    }

    /** The other two. */
    method StoreTexts(path: Path, gpo: Gpo) returns (ok: bool)
      requires path in keys && Numbers(keys[path], gpo) && Names(keys[path], gpo)
      modifies this
      ensures faults == if ok then old(faults) else old(faults) + 1
      ensures OnlyAt(path, old(keys), keys)
      ensures ok ==> Numbers(keys[path], gpo) && Names(keys[path], gpo) && Texts(keys[path], gpo)
    {
      ok := StoreSz(path, DisplayName, gpo.displayName);
      if ok {
        ok := StoreSz(path, WqlId, "");
      }
    }

    /** gp_store_reg_gpovals. */
    method StoreValues(path: Path, gpo: Gpo) returns (ok: bool)
      requires path in keys
      modifies this
      ensures faults == if ok then old(faults) else old(faults) + 1
      ensures OnlyAt(path, old(keys), keys)
      ensures ok ==> Numbers(keys[path], gpo) && Names(keys[path], gpo) && Texts(keys[path], gpo)
      ensures ok ==> Reading(keys[path]) == Ok(AsRead(gpo))
      ensures ok ==>
        && DwordAt(keys[path], GpoDisabled) == Ok(if gpo.options % 2 == 1 then 1 else 0)
        && DwordAt(keys[path], WqlFilterPass) == Ok(1) && DwordAt(keys[path], AccessDenied) == Ok(0)
    {
      ok := StoreNumbers(path, gpo);
      if !ok { return; }
      ok := StoreNames(path, gpo);
      if !ok { return; }
      ok := StoreTexts(path, gpo);
    }

    /** gp_read_reg_val_dword. */
    method ReadDword(values: Values, name: ValueName) returns (r: Result<uint32>)
      modifies this`faults
      ensures r.Ok? ==> r == DwordAt(values, name)
      ensures r.Err? && faults == old(faults) ==> DwordAt(values, name).Err?
      ensures faults >= old(faults)
    {
      var fails := Fails();
      if fails || values.Get(name).None? {
        return Err;
      }
      var value := values.Get(name).value;
      if !value.Dword? || |value.data| < 4 {
        return Err;
      }
      r := Ok(U32(value.data, 0));
    }

    /** gp_read_reg_val_sz. */
    method ReadSz(values: Values, name: ValueName) returns (r: Result<string>)
      modifies this`faults
      ensures r.Ok? ==> r == SzAt(values, name)
      ensures r.Err? && faults == old(faults) ==> SzAt(values, name).Err?
      ensures faults >= old(faults)
    {
      var fails := Fails();
      if fails || values.Get(name).None? || !values.Get(name).value.Sz? {
        return Err;
      }
      r := Ok(values.Get(name).value.text);
    }

    /** gp_read_reg_gpovals. */
    method ReadValues(values: Values) returns (r: Result<Gpo>)
      modifies this`faults
      ensures r.Ok? ==> r == Reading(values)
      ensures r.Err? && faults == old(faults) ==> Reading(values).Err?
      ensures faults >= old(faults)
    {
      var version := ReadDword(values, Version);
      if version.Err? { return Err; }
      var options := ReadDword(values, Options);
      if options.Err? { return Err; }
      var name := ReadSz(values, GpoId);
      if name.Err? { return Err; }
      var link := ReadSz(values, Som);
      if link.Err? { return Err; }
      var displayName := ReadSz(values, DisplayName);
      if displayName.Err? { return Err; }
      r := Ok(Gpo(version.value, options.value, name.value, Some(link.value), displayName.value));
    }

    /** The loop of gp_reg_state_store. */
    method StoreList(list: Path, gpos: seq<Gpo>) returns (ok: bool)
      requires Rooted(keys, list)
      modifies this
      ensures faults == if ok then old(faults) else old(faults) + 1
      ensures OnlyBelow(list, old(keys), keys)
      ensures ok ==> Filled(keys, list, gpos, |gpos|, old(keys))
    {
      ok := true;
      for i := 0 to |gpos|
        invariant ok && Rooted(keys, list) && faults == old(faults)
        invariant OnlyBelow(list, old(keys), keys)
        invariant Filled(keys, list, gpos, i, old(keys))
      {
        ghost var before := keys;
        ok := CreateKey(Entry(list, i));
        if !ok { return; }
        CreatedChild(before, list, Print(i));
        ok := StoreValues(Entry(list, i), gpos[i]);
        OneEntry(before, keys, list, i);
        if !ok { return; }
        OneMore(before, keys, list, gpos, i, old(keys));
      }
    }

    /** The keys that hold the policies. */
    method CreateState(path: Path, list: Path, dn: string) returns (ok: bool)
      requires path != [] && list == path + ["GPO-List"]
      modifies this
      ensures faults == if ok then old(faults) else old(faults) + 1
      ensures path in keys || keys == old(keys)
      ensures OnlyState(path, old(keys), keys) && SameEntries(list, old(keys), keys)
      ensures ok ==> Rooted(keys, list) && Head(keys, path, dn)
    {
      ok := NameState(path, list, dn);
      if !ok { return; }
      CreatedState(keys, path, path + ["GPLink-List"], list);
      ok := CreateKey(path + ["GPLink-List"]);
      if !ok { return; }
      assert (path + ["GPLink-List"])[..|path| + 1] == path + ["GPLink-List"];
      CreatedState(keys, path, list, list);
      ok := CreateKey(list);
    }

    method NameState(path: Path, list: Path, dn: string) returns (ok: bool)
      requires path != [] && list == path + ["GPO-List"]
      modifies this
      ensures faults == if ok then old(faults) else old(faults) + 1
      ensures path in keys || keys == old(keys)
      ensures OnlyState(path, old(keys), keys) && SameEntries(list, old(keys), keys)
      ensures ok ==> path in keys && SzAt(keys[path], DistinguishedName) == Ok(dn)
    {
      CreatedState(keys, path, path, list);
      ok := CreateKey(path);
      if !ok { return; }
      assert path[..|path|] == path;
      ghost var before := keys;
      ok := StoreSz(path, DistinguishedName, dn);
      assert OnlyState(path, before, keys) && SameEntries(list, before, keys);
    }

    /** gp_reg_state_store. Failing to delete the old state is not an error. */
    method StateStore(flags: uint32, sid: string, dn: string, gpos: seq<Gpo>) returns (ok: bool, ghost deleted: bool)
      modifies this
      ensures OnlyState(StatePath(flags, sid), old(keys), keys) && faults >= old(faults)
      ensures ok ==> Replaced(keys, ListPath(flags, sid), gpos, old(keys), deleted)
      ensures ok ==> Head(keys, StatePath(flags, sid), dn)
      ensures deleted ==> StatePath(flags, sid) in old(keys)
      ensures faults == old(faults) ==> ok && (deleted <==> StatePath(flags, sid) in old(keys))
      ensures StatesRooted(old(keys)) ==> StatesRooted(keys)
    {
      var path, list := StatePath(flags, sid), ListPath(flags, sid);
      ok, deleted := Prepare(path, list);
      if ok {
        ok := CreateState(path, list, dn);
        if ok {
          ghost var made := keys;
          ok := StoreList(list, gpos);
          BelowList(path, list, made, keys);
          assert !Below(list, path) && list[..|list|] == list;
        }
      }
      RootedKept(path, old(keys), keys);
    }

    /** What comes before the state is written: the other parts, and the deletion. */
    method Prepare(path: Path, list: Path) returns (ok: bool, ghost deleted: bool)
      requires Starts(["State"], path) && Starts(path, list)
      modifies this
      ensures OnlyState(path, old(keys), keys) && faults >= old(faults)
      ensures path in keys <==> path in old(keys)
      ensures forall p :: Starts(path, p) && p in keys ==> p in old(keys)
      ensures forall i: nat :: Entry(list, i) in keys <==> !deleted && Entry(list, i) in old(keys)
      ensures deleted ==> path in old(keys)
      ensures faults == old(faults) ==> ok && (deleted <==> path in old(keys))
    {
      deleted := false;
      ok := StoreElsewhere();
      BelowState(path, list, old(keys), keys);
      if !ok { return; }
      PrunedState(keys, path, list);
      var pruned := DeleteSubkeys(path);
      deleted := pruned;
    }

    /** gp_reg_state_read. Each policy read is put in front of the earlier ones. */
    method StateRead(flags: uint32, sid: string) returns (r: Result<seq<Gpo>>)
      modifies this`faults
      ensures r.Ok? ==> Listing(keys, ListPath(flags, sid), r.value)
      ensures r.Err? && faults == old(faults) ==>
        ListPath(flags, sid) !in keys || forall gpos :: !Listing(keys, ListPath(flags, sid), gpos)
      ensures faults >= old(faults)
    {
      var list := ListPath(flags, sid);
      var fails := Fails();
      if fails || list !in keys {
        return Err;
      }
      var gpos: seq<Gpo> := [];
      var count := 0;
      EntriesBounded(keys, list, 0);
      while true
        invariant |gpos| == count <= |keys|
        invariant faults >= old(faults)
        invariant forall i: nat :: i < count ==>
          Entry(list, i) in keys && Reading(keys[Entry(list, i)]) == Ok(gpos[count - 1 - i])
        decreases |keys| - count
      {
        var key := Entry(list, count);
        fails := Fails();
        if fails {
          return Err;
        }
        if key !in keys {
          return Ok(gpos);
        }
        var gpo := ReadValues(keys[key]);
        if gpo.Err? {
          NoListing(keys, list, count);
          return Err;
        }
        gpos := [gpo.value] + gpos;
        count := count + 1;
        EntriesBounded(keys, list, count);
      }
    }
  }

  ghost predicate SameEntries(list: Path, before: Keys, after: Keys)
  {
    forall i: nat :: Entry(list, i) in after <==> Entry(list, i) in before
  }

  ghost predicate SameStates(before: Keys, after: Keys)
  {
    forall p :: Starts(["State"], p) ==>
      (p in after <==> p in before) && (p in after ==> after[p] == before[p])
  }

  /** A policy is never kept without the state it belongs to. */
  ghost predicate StatesRooted(keys: Keys)
  {
    forall p :: p in keys && Starts(["State"], p) && |p| == 4 ==> p[..2] in keys
  }

  lemma RootedKept(path: Path, before: Keys, after: Keys)
    requires |path| == 2 && OnlyState(path, before, after)
    requires path in before ==> path in after
    requires path in after || forall p :: Starts(path, p) && p in after ==> p in before
    ensures StatesRooted(before) ==> StatesRooted(after)
  {
    if StatesRooted(before) {
      forall p | p in after && Starts(["State"], p) && |p| == 4
        ensures p[..2] in after
      {
        if p[..2] != path {
          assert !Starts(path, p) && !Starts(p, path) && p in before;
          var q := p[..2];
          assert q in before && q[..1] == p[..1];
          assert !Starts(path, q) && !Starts(q, path);
        }
      }
    }
  }

  /** Keys on the way to `made` are above or below the state; none is an entry. */
  lemma CreatedState(keys: Keys, path: Path, made: Path, list: Path)
    requires Starts(path, made) && |made| <= |list|
    ensures OnlyState(path, keys, Created(keys, made)) && SameEntries(list, keys, Created(keys, made))
  {
    forall p | Starts(p, made)
      ensures Starts(p, path) || Starts(path, p)
    {
      TwoPrefixes(p, path, made);
    }
  }

  lemma TwoPrefixes(p: Path, q: Path, r: Path)
    requires Starts(p, r) && Starts(q, r)
    ensures Starts(p, q) || Starts(q, p)
  {
    if |p| <= |q| {
      assert q[..|p|] == r[..|p|];
    } else {
      assert p[..|q|] == r[..|q|];
    }
  }

  lemma BelowState(path: Path, list: Path, before: Keys, after: Keys)
    requires Starts(["State"], path) && Starts(path, list)
    requires SameStates(before, after)
    ensures OnlyState(path, before, after) && SameEntries(list, before, after)
    ensures forall p :: Starts(path, p) ==> (p in after <==> p in before)
  {
    forall i: nat ensures Starts(["State"], Entry(list, i)) {
      assert Entry(list, i)[0] == list[0] == path[0];
    }
    forall p | Starts(path, p) ensures Starts(["State"], p) {
      assert p[..1] == path[..1];
    }
  }

  lemma PrunedState(keys: Keys, path: Path, list: Path)
    requires Starts(path, list)
    ensures OnlyState(path, keys, Pruned(keys, path))
    ensures forall i: nat :: Entry(list, i) !in Pruned(keys, path)
  {
    forall i: nat ensures Starts(path, Entry(list, i)) && Entry(list, i) != path {
      assert Entry(list, i)[..|path|] == list[..|path|];
    }
  }

  lemma BelowList(path: Path, list: Path, before: Keys, after: Keys)
    requires Starts(path, list) && OnlyBelow(list, before, after)
    ensures OnlyState(path, before, after)
  {
    forall p | Below(list, p) ensures Starts(path, p) {
      assert p[..|path|] == p[..|list|][..|path|];
    }
  }

  /** Numbers name different keys, so that the reader comes to an end. */
  lemma {:induction false} EntriesBounded(keys: Keys, list: Path, count: nat)
    requires forall i: nat :: i < count ==> Entry(list, i) in keys
    ensures count <= |keys|
    decreases count
  {
    if count > 0 {
      var last := Entry(list, count - 1);
      forall i: nat | i < count - 1 ensures Entry(list, i) in keys - {last} {
        EntryInjective(list, i, count - 1);
      }
      EntriesBounded(keys - {last}, list, count - 1);
      assert keys.Keys == (keys - {last}).Keys + {last};
      assert |keys.Keys| == |(keys - {last}).Keys| + 1;
    }
  }

  /** What the reader finds: the policies under 0, 1 and so on up to the first number
      without a key, the last one first. */
  ghost predicate Listing(keys: Keys, list: Path, gpos: seq<Gpo>)
  {
    && Entry(list, |gpos|) !in keys
    && forall i: nat :: i < |gpos| ==>
      Entry(list, i) in keys && Reading(keys[Entry(list, i)]) == Ok(gpos[|gpos| - 1 - i])
  }

  lemma NoListing(keys: Keys, list: Path, n: nat)
    requires forall i: nat :: i <= n ==> Entry(list, i) in keys
    ensures Reading(keys[Entry(list, n)]).Err? ==> forall gpos :: !Listing(keys, list, gpos)
  {
    forall gpos | Listing(keys, list, gpos) ensures n < |gpos| {
      assert Entry(list, |gpos|) !in keys;
    }
  }

  /** What a store leaves: each policy under its number and, unless the old state was
      deleted, the old policies with higher numbers. */
  ghost predicate Replaced(keys: Keys, list: Path, gpos: seq<Gpo>, before: Keys, deleted: bool)
  {
    && list in keys
    && (forall i: nat :: Entry(list, i) in keys <==> i < |gpos| || (!deleted && Entry(list, i) in before))
    && (forall i: nat :: i < |gpos| ==> Reading(keys[Entry(list, i)]) == Ok(AsRead(gpos[i])))
  }

  /** The name the state is for, and the list of links, which stays empty. */
  predicate Head(keys: Keys, path: Path, dn: string)
  {
    path in keys && SzAt(keys[path], DistinguishedName) == Ok(dn) && path + ["GPLink-List"] in keys
  }

  /** No other state changes. */
  ghost predicate OnlyState(path: Path, before: Keys, after: Keys)
  {
    forall p :: Starts(["State"], p) && !Starts(p, path) && !Starts(path, p) ==>
      (p in after <==> p in before) && (p in after ==> after[p] == before[p])
  }

  // ----- what changes

  ghost predicate OnlyAt(path: Path, before: Keys, after: Keys)
  {
    after.Keys == before.Keys && forall p :: p in after && p != path ==> after[p] == before[p]
  }

  predicate Below(list: Path, p: Path)
  {
    Starts(list, p) && p != list
  }

  /** Nothing changes but for keys below `list`, of which none is deleted. */
  ghost predicate OnlyBelow(list: Path, before: Keys, after: Keys)
  {
    && (forall p :: p in before ==> p in after)
    && (forall p :: p in after && !Below(list, p) ==> p in before && after[p] == before[p])
  }

  /** The first n policies have their keys; any other key of a number was there before. */
  ghost predicate Filled(keys: Keys, list: Path, gpos: seq<Gpo>, n: nat, before: Keys)
    requires n <= |gpos|
  {
    && (forall i: nat :: Entry(list, i) in keys <==> i < n || Entry(list, i) in before)
    && (forall i: nat :: i < n ==> Reading(keys[Entry(list, i)]) == Ok(AsRead(gpos[i])))
  }

  /** The keys differ by at most the i-th entry. */
  ghost predicate EntryOnly(before: Keys, after: Keys, list: Path, i: nat)
  {
    && Entry(list, i) in after
    && (forall p :: p in after <==> p in before || p == Entry(list, i))
    && (forall p :: p in before && p != Entry(list, i) ==> after[p] == before[p])
  }

  lemma OneEntry(before: Keys, after: Keys, list: Path, i: nat)
    requires Rooted(before, list) && EntryOnly(before, after, list, i)
    ensures Rooted(after, list) && OnlyBelow(list, before, after)
  {
    assert Entry(list, i)[..|list|] == list;
  }

  lemma OneMore(before: Keys, after: Keys, list: Path, gpos: seq<Gpo>, i: nat, start: Keys)
    requires i < |gpos| && EntryOnly(before, after, list, i) && Filled(before, list, gpos, i, start)
    requires Reading(after[Entry(list, i)]) == Ok(AsRead(gpos[i]))
    ensures Filled(after, list, gpos, i + 1, start)
  {
    forall n: nat ensures Entry(list, n) == Entry(list, i) ==> n == i {
      EntryInjective(list, n, i);
    }
  }

  // ----- what a key says

  function DwordAt(values: Values, name: ValueName): Result<uint32>
  {
    var v := values.Get(name);
    if v.Some? && v.value.Dword? && |v.value.data| >= 4 then Ok(U32(v.value.data, 0)) else Err
  }

  function SzAt(values: Values, name: ValueName): Result<string>
  {
    var v := values.Get(name);
    if v.Some? && v.value.Sz? then Ok(v.value.text) else Err
  }

  /** The numbers kept for a policy; that its filter passes and that access is not denied
      are fixed. */
  predicate Numbers(values: Values, gpo: Gpo)
  {
    && DwordAt(values, Version) == Ok(gpo.version) && DwordAt(values, Options) == Ok(gpo.options)
    && DwordAt(values, WqlFilterPass) == Ok(1) && DwordAt(values, AccessDenied) == Ok(0)
    && DwordAt(values, GpoDisabled) == Ok(gpo.options % 2)
  }

  predicate Names(values: Values, gpo: Gpo)
  {
    SzAt(values, GpoId) == Ok(gpo.name) && SzAt(values, Som) == Ok(LinkText(gpo))
  }

  predicate Texts(values: Values, gpo: Gpo)
  {
    SzAt(values, DisplayName) == Ok(gpo.displayName) && SzAt(values, WqlId) == Ok("")
  }

  function Reading(values: Values): Result<Gpo>
  {
    var (version, options) := (DwordAt(values, Version), DwordAt(values, Options));
    var (name, link, displayName) := (SzAt(values, GpoId), SzAt(values, Som), SzAt(values, DisplayName));
    if version.Ok? && options.Ok? && name.Ok? && link.Ok? && displayName.Ok?
    then Ok(Gpo(version.value, options.value, name.value, Some(link.value), displayName.value))
    else Err
  }

  function LinkText(gpo: Gpo): string
  {
    if gpo.link.Some? then gpo.link.value else ""
  }

  /** An absent link comes back as the empty one. */
  function AsRead(gpo: Gpo): Gpo
  {
    gpo.(link := Some(LinkText(gpo)))
  }

  // ----- the round trip

  function Back(gpos: seq<Gpo>): seq<Gpo>
  {
    seq(|gpos|, i requires 0 <= i < |gpos| => AsRead(gpos[|gpos| - 1 - i]))
  }

  /** The list read is the list stored from its end to its front: every field is as it was,
      but an absent link is now the empty one. */
  predicate CameBack(stored: seq<Gpo>, got: seq<Gpo>)
  {
    && |got| == |stored|
    && forall i {:trigger got[i]} :: 0 <= i < |got| ==> SamePolicy(stored[|stored| - 1 - i], got[i])
  }

  predicate SamePolicy(stored: Gpo, got: Gpo)
  {
    && got.version == stored.version && got.options == stored.options
    && got.name == stored.name && got.displayName == stored.displayName
    && got.link == if stored.link.None? then Some("") else stored.link
  }

  lemma BackCameBack(stored: seq<Gpo>)
    ensures CameBack(stored, Back(stored))
  {
    var got := Back(stored);
    forall i | 0 <= i < |got|
      ensures SamePolicy(stored[|stored| - 1 - i], got[i])
    {
      assert got[i] == AsRead(stored[|stored| - 1 - i]);
    }
  }

  /** Reading after storing gives the stored policies in reverse exactly when no policy of
      an older, longer list is left behind; otherwise the left ones come first. */
  lemma ReadAfterStore(keys: Keys, list: Path, gpos: seq<Gpo>, before: Keys, deleted: bool, got: seq<Gpo>)
    requires Replaced(keys, list, gpos, before, deleted) && Listing(keys, list, got)
    ensures |got| >= |gpos| && got[|got| - |gpos|..] == Back(gpos)
    ensures got == Back(gpos) <==> deleted || Entry(list, |gpos|) !in before
  {
    assert |got| >= |gpos|;
    assert |got| > |gpos| ==> Entry(list, |gpos|) in keys;
    var last := got[|got| - |gpos|..];
    forall j | 0 <= j < |gpos| ensures last[j] == Back(gpos)[j] {
      assert Reading(keys[Entry(list, |gpos| - 1 - j)]) == Ok(last[j]);
    }
  }

  /** A store followed by a read of the same state. Without faults of the backend both
      succeed and the read gives the stored policies, however many were there before. */
  method StoreThenRead(registry: Registry, flags: uint32, sid: string, dn: string, gpos: seq<Gpo>)
    returns (stored: bool, r: Result<seq<Gpo>>, ghost deleted: bool)
    modifies registry
    ensures stored && r.Ok? ==>
      (r.value == Back(gpos) <==> deleted || Entry(ListPath(flags, sid), |gpos|) !in old(registry.keys))
    ensures registry.faults == old(registry.faults) ==>
      stored && (deleted <==> StatePath(flags, sid) in old(registry.keys))
    ensures registry.faults == old(registry.faults) && StatesRooted(old(registry.keys)) ==> r == Ok(Back(gpos))
    ensures registry.faults == old(registry.faults) && StatesRooted(old(registry.keys)) ==>
      r.Ok? && CameBack(gpos, r.value)
  {
    stored, deleted := registry.StateStore(flags, sid, dn, gpos);
    BackCameBack(gpos);
    ghost var keys := registry.keys;
    r := registry.StateRead(flags, sid);
    if stored {
      var list := ListPath(flags, sid);
      if r.Ok? {
        ReadAfterStore(keys, list, gpos, old(registry.keys), deleted, r.value);
      }
      if registry.faults == old(registry.faults) && StatesRooted(old(registry.keys)) {
        if !deleted {
          NothingBehind(old(registry.keys), flags, sid, |gpos|);
        }
        ListedBack(keys, list, gpos, old(registry.keys), deleted);
        assert Listing(registry.keys, list, Back(gpos));
      }
    }
  }

  lemma NothingBehind(keys: Keys, flags: uint32, sid: string, n: nat)
    requires StatesRooted(keys) && StatePath(flags, sid) !in keys
    ensures Entry(ListPath(flags, sid), n) !in keys
  {
    var e := Entry(ListPath(flags, sid), n);
    assert e[..2] == StatePath(flags, sid) && Starts(["State"], e) && |e| == 4;
  }

  lemma ListedBack(keys: Keys, list: Path, gpos: seq<Gpo>, before: Keys, deleted: bool)
    requires Replaced(keys, list, gpos, before, deleted) && (deleted || Entry(list, |gpos|) !in before)
    ensures Listing(keys, list, Back(gpos))
  {
  }

  // ----- many stores

  datatype Store = Store(flags: uint32, sid: string, dn: string, gpos: seq<Gpo>)

  function PathOf(store: Store): Path
  {
    StatePath(store.flags, store.sid)
  }

  /** Store number `j` is the last one of its state among the first `n`. */
  predicate LastOf(stores: seq<Store>, j: nat, n: nat)
    requires n <= |stores|
  {
    j < n && forall k :: j < k < n ==>
      !SameState(stores[k].flags, stores[k].sid, stores[j].flags, stores[j].sid)
  }

  /** The state of a store is there and lists its policies. */
  ghost predicate Shows(keys: Keys, store: Store)
  {
    var list := PathOf(store) + ["GPO-List"];
    list in keys && Listing(keys, list, Back(store.gpos))
  }

  /** Every state shows the policies stored for it last. */
  ghost predicate ShowsLast(keys: Keys, stores: seq<Store>, n: nat)
    requires n <= |stores|
  {
    forall j {:trigger stores[j]} :: 0 <= j < |stores| && LastOf(stores, j, n) ==> Shows(keys, stores[j])
  }

  /** Whatever users' and machine states are stored in whatever order, without faults of
      the backend each state reads as what was stored for it last. */
  method StoreAll(registry: Registry, stores: seq<Store>)
    requires StatesRooted(registry.keys)
    modifies registry
    ensures StatesRooted(registry.keys) && registry.faults >= old(registry.faults)
    ensures registry.faults == old(registry.faults) ==> ShowsLast(registry.keys, stores, |stores|)
  {
    for n := 0 to |stores|
      invariant StatesRooted(registry.keys) && registry.faults >= old(registry.faults)
      invariant registry.faults == old(registry.faults) ==> ShowsLast(registry.keys, stores, n)
    {
      var s := stores[n];
      ghost var before := registry.keys;
      var ok;
      ghost var deleted;
      ok, deleted := registry.StateStore(s.flags, s.sid, s.dn, s.gpos);
      if registry.faults == old(registry.faults) {
        if !deleted {
          NothingBehind(before, s.flags, s.sid, |s.gpos|);
        }
        ListedBack(registry.keys, ListPath(s.flags, s.sid), s.gpos, before, deleted);
        LastNext(before, registry.keys, stores, n);
      }
    }
  }

  /** And that is what a read of the state gives. */
  method StoreAllThenRead(registry: Registry, stores: seq<Store>, j: nat) returns (r: Result<seq<Gpo>>)
    requires StatesRooted(registry.keys) && j < |stores|
    modifies registry
    ensures registry.faults == old(registry.faults) && LastOf(stores, j, |stores|) ==>
      r.Ok? && CameBack(stores[j].gpos, r.value)
  {
    StoreAll(registry, stores);
    r := registry.StateRead(stores[j].flags, stores[j].sid);
    if registry.faults == old(registry.faults) && LastOf(stores, j, |stores|) {
      assert Shows(registry.keys, stores[j]);
      BackCameBack(stores[j].gpos);
      if r.Ok? {
        OneListing(registry.keys, ListPath(stores[j].flags, stores[j].sid), r.value, Back(stores[j].gpos));
      }
    }
  }

  lemma OneListing(keys: Keys, list: Path, a: seq<Gpo>, b: seq<Gpo>)
    requires Listing(keys, list, a) && Listing(keys, list, b)
    ensures a == b
  {
    assert |a| == |b|;
    forall j | 0 <= j < |a| ensures a[j] == b[j] {
      assert Entry(list, |a| - 1 - j) in keys;
    }
  }

  lemma LastNext(before: Keys, after: Keys, stores: seq<Store>, n: nat)
    requires n < |stores| && ShowsLast(before, stores, n) && OnlyState(PathOf(stores[n]), before, after)
    requires Shows(after, stores[n])
    ensures ShowsLast(after, stores, n + 1)
  {
    forall j | 0 <= j < |stores| && LastOf(stores, j, n + 1)
      ensures Shows(after, stores[j])
    {
      if j < n {
        assert LastOf(stores, j, n) && Shows(before, stores[j]);
        StatePathIs(stores[n].flags, stores[n].sid, stores[j].flags, stores[j].sid);
        OtherListing(PathOf(stores[n]), PathOf(stores[j]), before, after, Back(stores[j].gpos));
      }
    }
  }

  /** Storing one state leaves what another shows. */
  lemma OtherListing(path: Path, other: Path, before: Keys, after: Keys, gpos: seq<Gpo>)
    requires |path| == |other| == 2 && path != other && Starts(["State"], other) && OnlyState(path, before, after)
    requires Listing(before, other + ["GPO-List"], gpos)
    ensures Listing(after, other + ["GPO-List"], gpos)
    ensures other + ["GPO-List"] in after <==> other + ["GPO-List"] in before
  {
    var list := other + ["GPO-List"];
    assert list[..2] == other && list[..1] == other[..1];
    assert !Starts(path, list) && !Starts(list, path) && Starts(["State"], list);
    forall i: nat
      ensures Entry(list, i) in after <==> Entry(list, i) in before
      ensures Entry(list, i) in after ==> after[Entry(list, i)] == before[Entry(list, i)]
    {
      var e := Entry(list, i);
      assert e[..2] == other && e[..1] == other[..1];
      assert !Starts(path, e) && !Starts(e, path) && Starts(["State"], e);
    }
  }
}
