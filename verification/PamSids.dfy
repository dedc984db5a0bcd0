/** Turning the configured list of names into a list of SIDs (nsswitch/pam_winbind.c). */
module PamSids {
  import opened Tokens

  const NUL: char := 0 as char
  const SID_BUFLEN := 190

  function Cut(s: string, n: nat): string
  {
    if |s| <= n then s else s[..n]
  }

  predicate Holds(data: seq<char>, text: string)
  {
    |text| < |data| && NUL !in text && data[..|text|] == text && data[|text|] == NUL
  }

  /** A character buffer that holds a terminated string. */
  class Buffer {
    const data: array<char>

    constructor (size: nat)
      ensures fresh(data) && data.Length == size
    {
      data := new char[size](_ => NUL);
    }

    method Length(ghost text: string) returns (n: nat)
      requires Holds(data[..], text)
      ensures n == |text|
    {
      n := 0;
      while data[n] != NUL
        invariant n <= |text|
        decreases |text| - n
      {
        assert data[..][..|text|][n] == data[n];
        n := n + 1;
      }
    }

    /** safe_append_string: what does not fit is cut off. */
    method Append(src: string, ghost text: string) returns (ok: bool)
      requires Holds(data[..], text) && NUL !in src
      modifies data
      ensures Holds(data[..], Cut(text + src, data.Length - 1))
      ensures ok <==> |text| + |src| < data.Length
    {
      var len1 := Length(text);
      var len2 := |src|;
      ok := len1 + len2 < data.Length;
      if !ok {
        len2 := data.Length - (len1 + 1);
      }
      ghost var whole := Cut(text + src, data.Length - 1);
      assert |whole| == len1 + len2 && whole == text + src[..len2];
      if len2 > 0 {
        forall i | 0 <= i < len2 {
          data[len1 + i] := src[i];
        }
        data[len1 + len2] := NUL;
        assert data[..][..len1] == text;
        assert data[..][..len1 + len2] == whole;
      } else {
        assert whole == text;
      }
    }
  }

  // ----- names

  function Comma(s: string): (k: nat)
    ensures k <= |s| && ',' !in s[..k] && (k < |s| ==> s[k] == ',')
  {
    if s == [] || s[0] == ',' then 0 else
      var k := 1 + Comma(s[1..]);
      assert s[..k] == [s[0]] + s[1..][..k - 1];
      k
  }

  /** The names between the commas; there is at least one. */
  function Names(s: string): (r: seq<string>)
    ensures r != [] && forall i :: 0 <= i < |r| ==> ',' !in r[i]
    decreases |s|
  {
    var k := Comma(s);
    if k < |s| then [s[..k]] + Names(s[k + 1..]) else assert s[..k] == s; [s]
  }

  /** The SIDs that names have. */
  type Directory = map<string, string>

  predicate ValidSid(sid: string)
  {
    sid != "" && ',' !in sid && NUL !in sid && |sid| < SID_BUFLEN
  }

  predicate ValidDirectory(directory: Directory)
  {
    forall name :: name in directory ==> ValidSid(directory[name])
  }

  predicate IsSid(name: string)
  {
    "S-" <= name
  }

  predicate Resolves(name: string, directory: Directory)
  {
    IsSid(name) || name in directory
  }

  function SidOf(name: string, directory: Directory): (sid: string)
    requires Resolves(name, directory)
    ensures ValidDirectory(directory) && ',' !in name && NUL !in name ==> ValidSid(sid)
  {
    if IsSid(name) then Cut(name, SID_BUFLEN - 1) else directory[name]
  }

  /** What a configured name stands for: a text that starts like a SID stands for itself
      if it is shorter than 190 characters and for its first 189 if not; any other name
      for the SID that the directory gives it. */
  predicate StandsFor(name: string, sid: string, directory: Directory)
  {
    if |name| >= 2 && name[0] == 'S' && name[1] == '-' then
      if |name| < 190 then sid == name else sid == name[..189]
    else name in directory && sid == directory[name]
  }

  predicate Unknown(name: string, directory: Directory)
  {
    !(|name| >= 2 && name[0] == 'S' && name[1] == '-') && name !in directory
  }

  lemma SidStands(name: string, directory: Directory)
    ensures Unknown(name, directory) <==> !Resolves(name, directory)
    ensures Resolves(name, directory) ==> StandsFor(name, SidOf(name, directory), directory)
  {
    assert IsSid(name) <==> |name| >= 2 && name[0] == 'S' && name[1] == '-';
  }

  /** These SIDs are what the known names stand for, in order: `at` says which names. */
  predicate Lists(names: seq<string>, directory: Directory, sids: seq<string>, at: seq<nat>)
  {
    && |at| == |sids|
    && (forall k :: 0 <= k < |at| ==> at[k] < |names| && StandsFor(names[at[k]], sids[k], directory))
    && (forall j, k :: 0 <= j < k < |at| ==> at[j] < at[k])
    && (forall i :: 0 <= i < |names| ==> i in at || Unknown(names[i], directory))
  }

  function Resolved(names: seq<string>, directory: Directory): (r: seq<string>)
    ensures r == [] <==> forall i :: 0 <= i < |names| ==> !Resolves(names[i], directory)
  {
    if names == [] then []
    else
      var (init, last) := (names[..|names| - 1], names[|names| - 1]);
      Resolved(init, directory) + if Resolves(last, directory) then [SidOf(last, directory)] else []
  }

  lemma ListsSkip(names: seq<string>, name: string, directory: Directory, sids: seq<string>, at: seq<nat>)
    requires Lists(names, directory, sids, at) && Unknown(name, directory)
    ensures Lists(names + [name], directory, sids, at)
  {
    var more := names + [name];
    assert forall i :: 0 <= i < |names| ==> more[i] == names[i];
  }

  lemma ListsTake(names: seq<string>, name: string, sid: string, directory: Directory, sids: seq<string>,
                  at: seq<nat>)
    requires Lists(names, directory, sids, at) && StandsFor(name, sid, directory)
    ensures Lists(names + [name], directory, sids + [sid], at + [|names|])
  {
    var (more, all) := (names + [name], at + [|names|]);
    assert forall i :: 0 <= i < |names| ==> more[i] == names[i];
    forall i | 0 <= i < |more|
      ensures i in all || Unknown(more[i], directory)
    {
      assert i == |names| ==> all[|at|] == i;
    }
  }

  /** One name more. */
  lemma ListsNext(names: seq<string>, name: string, directory: Directory, at: seq<nat>) returns (more: seq<nat>)
    requires Lists(names, directory, Resolved(names, directory), at)
    ensures Lists(names + [name], directory, Resolved(names + [name], directory), more)
  {
    var sids := Resolved(names, directory);
    ResolvedNext(names, name, directory);
    SidStands(name, directory);
    if Resolves(name, directory) {
      ListsTake(names, name, SidOf(name, directory), directory, sids, at);
      more := at + [|names|];
    } else {
      ListsSkip(names, name, directory, sids, at);
      more := at;
    }
  }

  lemma ResolvedNext(names: seq<string>, name: string, directory: Directory)
    ensures Resolved(names + [name], directory) ==
      if Resolves(name, directory) then Resolved(names, directory) + [SidOf(name, directory)]
      else Resolved(names, directory)
  {
    var more := names + [name];
    assert more[..|more| - 1] == names;
  }

  /** The list holds what every known name stands for, in order, and nothing else. */
  lemma {:induction false} ResolvedLists(names: seq<string>, directory: Directory) returns (at: seq<nat>)
    ensures Lists(names, directory, Resolved(names, directory), at)
    decreases |names|
  {
    if names == [] {
      at := [];
    } else {
      InitLast(names);
      at := ResolvedLists(names[..|names| - 1], directory);
      at := ListsNext(names[..|names| - 1], names[|names| - 1], directory, at);
    }
  }

  /** Each SID with a comma after it. */
  function WithCommas(sids: seq<string>): string
  {
    if sids == [] then "" else WithCommas(sids[..|sids| - 1]) + sids[|sids| - 1] + ","
  }

  lemma {:induction false} JoinLast(sids: seq<string>)
    requires sids != []
    ensures Join(sids, ',') == WithCommas(sids[..|sids| - 1]) + sids[|sids| - 1]
  {
    var (init, last) := (sids[..|sids| - 1], sids[|sids| - 1]);
    JoinAfter(init, last);
    assert init + [last] == sids;
  }

  lemma {:induction false} JoinAfter(sids: seq<string>, last: string)
    ensures Join(sids + [last], ',') == WithCommas(sids) + last
    decreases |sids|
  {
    if sids != [] {
      var more := sids + [last];
      assert more[1..] == sids[1..] + [last] && more[0] == sids[0];
      JoinAfter(sids[1..], last);
      CommasFirst(sids);
      assert sids[0] + [','] + (WithCommas(sids[1..]) + last) == sids[0] + "," + WithCommas(sids[1..]) + last;
    }
  }

  lemma {:induction false} CommasFirst(sids: seq<string>)
    requires sids != []
    ensures WithCommas(sids) == sids[0] + "," + WithCommas(sids[1..])
    decreases |sids|
  {
    var (init, last) := (sids[..|sids| - 1], sids[|sids| - 1]);
    if init == [] {
      assert sids[1..] == [];
    } else {
      CommasFirst(init);
      assert init[1..] == sids[1..][..|sids| - 2] && sids[1..][|sids| - 2] == last;
      assert sids[0] + "," + WithCommas(init[1..]) + last + "," == sids[0] + "," + (WithCommas(init[1..]) + last + ",");
    }
  }

  // ----- the list

  function Built(names: seq<string>, directory: Directory): string
  {
    WithCommas(Resolved(names, directory))
  }

  function Piece(name: string, directory: Directory): string
  {
    if Resolves(name, directory) then SidOf(name, directory) + "," else ""
  }

  lemma BuiltNext(names: seq<string>, name: string, directory: Directory)
    ensures Built(names + [name], directory) == Built(names, directory) + Piece(name, directory)
  {
    var more := names + [name];
    assert more[..|more| - 1] == names;
    var sids := Resolved(names, directory);
    if Resolves(name, directory) {
      var sid := SidOf(name, directory);
      assert (sids + [sid])[..|sids|] == sids;
      assert WithCommas(sids) + sid + "," == WithCommas(sids) + (sid + ",");
    } else {
      assert sids + [] == sids;
    }
  }

  /** How many characters the list takes while it is built: a comma is written before it
      is known that the last name has no SID. */
  function Need(names: seq<string>, directory: Directory): nat
    requires names != []
  {
    |Join(Resolved(names, directory), ',')| + if Resolves(names[|names| - 1], directory) then 0 else 1
  }

  /** The complete list is returned if and only if it is not empty and fits; if it would
      fit, only an empty one is refused. */
  predicate Complete(names: seq<string>, directory: Directory, size: nat, result: bool, text: string)
    requires names != []
  {
    var sids := Resolved(names, directory);
    && (result && text == Join(sids, ',') <==> sids != [] && Need(names, directory) < size)
    && (Need(names, directory) < size ==> (result <==> sids != []))
  }

  lemma ListOf(names: seq<string>, last: string, directory: Directory)
    ensures var joined := Join(Resolved(names + [last], directory), ',');
      if Resolves(last, directory) then joined == Built(names, directory) + SidOf(last, directory)
      else if Resolved(names, directory) == [] then joined == "" && Built(names, directory) == ""
      else Built(names, directory) == joined + ","
  {
    var sids := Resolved(names, directory);
    var more := names + [last];
    assert more[..|more| - 1] == names;
    if Resolves(last, directory) {
      JoinAfter(sids, SidOf(last, directory));
    } else {
      assert sids + [] == sids;
      if sids != [] {
        JoinLast(sids);
      }
    }
  }

  /** winbind_name_to_sid_string. */
  method AppendSid(name: string, directory: Directory, buffer: Buffer, ghost text: string) returns (ok: bool)
    requires Holds(buffer.data[..], text)
    requires ValidDirectory(directory) && ',' !in name && NUL !in name
    modifies buffer.data
    ensures Holds(buffer.data[..],
      if Resolves(name, directory) then Cut(text + SidOf(name, directory), buffer.data.Length - 1) else text)
    ensures ok <==> Resolves(name, directory) && |text| + |SidOf(name, directory)| < buffer.data.Length
    ensures ok <==> exists sid :: StandsFor(name, sid, directory) && |text| + |sid| < buffer.data.Length
    ensures forall sid :: StandsFor(name, sid, directory) ==>
      Holds(buffer.data[..], Cut(text + sid, buffer.data.Length - 1))
  {
    SidStands(name, directory);
    var sid: string;
    if IsSid(name) {
      sid := Cut(name, SID_BUFLEN - 1);
    } else if name in directory {
      sid := directory[name];
    } else {
      return false;
    }
    ok := buffer.Append(sid, text);
  }

  // ----- what becomes of it, in a buffer of any size

  /** Everything that is written if there is room: the SIDs with a comma after each but
      the last name's. */
  function Whole(names: seq<string>, directory: Directory): string
    requires names != []
  {
    var (init, last) := (names[..|names| - 1], names[|names| - 1]);
    Built(init, directory) + if Resolves(last, directory) then SidOf(last, directory) else ""
  }

  /** Some comma is the first character that does not fit. */
  predicate Stops(names: seq<string>, directory: Directory, size: nat)
  {
    exists i {:trigger Built(names[..i], directory)} :: 0 <= i < |names| && |Built(names[..i], directory)| == size
  }

  function StripComma(s: string): string
  {
    if s != "" && s[|s| - 1] == ',' then s[..|s| - 1] else s
  }

  /** The result and the text for a buffer of any size: whatever fits of the whole. Only a
      comma that does not fit makes the call fail, and an empty list does. */
  function Outcome(names: seq<string>, directory: Directory, size: nat): (bool, string)
    requires names != [] && size > 0
  {
    var (whole, last) := (Whole(names, directory), names[|names| - 1]);
    var cut := Cut(whole, size - 1);
    if Stops(names, directory, size) then (false, cut)
    else if Resolves(last, directory) && |whole| < size then (true, whole)
    else (cut != "", StripComma(cut))
  }

  /** The complete list is returned if and only if it is not empty and fits. */
  lemma OutcomeComplete(names: seq<string>, directory: Directory, size: nat)
    requires names != [] && size > 0
    ensures var (result, text) := Outcome(names, directory, size); Complete(names, directory, size, result, text)
  {
    var (init, last) := (names[..|names| - 1], names[|names| - 1]);
    assert names == init + [last];
    ListOf(init, last, directory);
    if Stops(names, directory, size) {
      LongEnough(names, directory, size);
    } else {
      assert |Built(names[..|init|], directory)| != size;
    }
  }

  lemma EndsInComma(names: seq<string>, directory: Directory)
    ensures var built := Built(names, directory); built != "" ==> built[|built| - 1] == ','
  {
  }

  /** The commas are where the list is complete up to some name. */
  lemma {:induction false} CommaAt(names: seq<string>, directory: Directory, k: nat) returns (i: nat)
    requires ValidDirectory(directory) && forall j :: 0 <= j < |names| ==> ',' !in names[j] && NUL !in names[j]
    requires k < |Built(names, directory)| && Built(names, directory)[k] == ','
    ensures i <= |names| && |Built(names[..i], directory)| == k + 1
    decreases |names|
  {
    assert names != [] by {
      assert names == [] ==> Built(names, directory) == "";
    }
    var (init, last) := (names[..|names| - 1], names[|names| - 1]);
    InitLast(names);
    BuiltNext(init, last, directory);
    if k < |Built(init, directory)| {
      i := CommaAt(init, directory, k);
      assert init[..i] == names[..i];
    } else {
      i := |names|;
      assert names[..i] == names;
      assert Resolves(last, directory) ==> ',' !in SidOf(last, directory);
      assert Piece(last, directory)[k - |Built(init, directory)|] == ',';
    }
  }

  /** The call fails if and only if there is nothing to list or no room for a character, or
      the first character that does not fit is a comma. Whatever it does, the text is the
      front of the list. */
  lemma OutcomeFails(names: seq<string>, directory: Directory, size: nat)
    requires names != [] && size > 0 && ValidDirectory(directory)
    requires forall j :: 0 <= j < |names| ==> ',' !in names[j] && NUL !in names[j]
    ensures var (sids, last) := (Resolved(names, directory), names[|names| - 1]);
      var all := Join(sids, ',') + if sids != [] && Unknown(last, directory) then "," else "";
      var (result, text) := Outcome(names, directory, size);
      && (!result <==> sids == [] || size == 1 || (size <= |all| && all[size - 1] == ','))
      && text <= all && (!result ==> text == Cut(all, size - 1))
  {
    WholeIs(names, directory);
    StopsIs(names, directory, size);
  }

  lemma WholeIs(names: seq<string>, directory: Directory)
    requires names != [] && ValidDirectory(directory)
    requires forall j :: 0 <= j < |names| ==> ',' !in names[j] && NUL !in names[j]
    ensures var (sids, last) := (Resolved(names, directory), names[|names| - 1]);
      && Whole(names, directory) ==
         Join(sids, ',') + (if sids != [] && Unknown(last, directory) then "," else "")
      && (Whole(names, directory) == "" <==> sids == [])
  {
    var (init, last) := (names[..|names| - 1], names[|names| - 1]);
    InitLast(names);
    ListOf(init, last, directory);
    ResolvedNext(init, last, directory);
    SidStands(last, directory);
  }

  lemma StopIsComma(names: seq<string>, directory: Directory, i: nat)
    requires i < |names|
    ensures var (built, all) := (Built(names[..i], directory), Whole(names, directory));
      |built| <= |all| && (built != "" ==> all[|built| - 1] == ',')
  {
    var init := names[..|names| - 1];
    assert names[..i] + init[i..] == init;
    BuiltPrefix(names[..i], init[i..], directory);
    EndsInComma(names[..i], directory);
    assert Built(names[..i], directory) <= Whole(names, directory);
  }

  lemma StopsIs(names: seq<string>, directory: Directory, size: nat)
    requires names != [] && size > 0 && ValidDirectory(directory)
    requires forall j :: 0 <= j < |names| ==> ',' !in names[j] && NUL !in names[j]
    ensures var all := Whole(names, directory); Stops(names, directory, size) <==>
      size <= |all| && all[size - 1] == ','
  {
    var (init, last) := (names[..|names| - 1], names[|names| - 1]);
    var all := Whole(names, directory);
    if Stops(names, directory, size) {
      var i :| 0 <= i < |names| && |Built(names[..i], directory)| == size;
      StopIsComma(names, directory, i);
    }
    if size <= |all| && all[size - 1] == ',' {
      assert Resolves(last, directory) ==> ',' !in SidOf(last, directory);
      assert size - 1 < |Built(init, directory)|;
      var i := CommaAt(init, directory, size - 1);
      assert init[..i] == names[..i];
    }
  }

  lemma LongEnough(names: seq<string>, directory: Directory, size: nat)
    requires names != [] && Stops(names, directory, size)
    ensures |Built(names[..|names| - 1], directory)| >= size
  {
    var i :| 0 <= i < |names| && |Built(names[..i], directory)| == size;
    var init := names[..|names| - 1];
    var (a, b) := (names[..i], init[i..]);
    assert a + b == init;
    BuiltPrefix(a, b, directory);
  }

  /** A list of one SID in a buffer too small for it: the call succeeds with the front of
      the SID. */
  lemma CutSidSucceeds(directory: Directory)
    ensures Outcome(["S-1-5"], directory, 3) == (true, "S-") && Names("S-1-5") == ["S-1-5"]
  {
    var names := ["S-1-5"];
    assert names[..0] == [] && Built([], directory) == "";
    assert Whole(names, directory) == "S-1-5";
    assert "S-1-5"[..2] == "S-";
    FirstComma("S-1-5", "S-1-5", "");
  }

  /** One name of the list but the last. `full` says that a comma did not fit. */
  method AppendItem(name: string, directory: Directory, buffer: Buffer, ghost text: string)
    returns (full: bool, ghost after: string)
    requires Holds(buffer.data[..], text)
    requires ValidDirectory(directory) && ',' !in name && NUL !in name
    modifies buffer.data
    ensures Holds(buffer.data[..], after)
    ensures after == Cut(text + Piece(name, directory), buffer.data.Length - 1)
    ensures full <==> |text + Piece(name, directory)| == buffer.data.Length
  {
    ghost var sid := if Resolves(name, directory) then SidOf(name, directory) else "";
    full, after := false, if Resolves(name, directory) then Cut(text + sid, buffer.data.Length - 1) else text;
    var ok := AppendSid(name, directory, buffer, text);
    assert Resolves(name, directory) ==> text + Piece(name, directory) == (text + sid) + ",";
    if ok {
      ok := buffer.Append(",", after);
      full, after := !ok, Cut(after + ",", buffer.data.Length - 1);
    }
  }

  /** The last name, and what follows. */
  method Finish(name: string, directory: Directory, buffer: Buffer, ghost text: string)
    returns (result: bool, ghost after: string)
    requires Holds(buffer.data[..], text)
    requires ValidDirectory(directory) && ',' !in name && NUL !in name
    modifies buffer.data
    ensures Holds(buffer.data[..], after)
    ensures var whole := text + if Resolves(name, directory) then SidOf(name, directory) else "";
      if Resolves(name, directory) && |whole| < buffer.data.Length then result && after == whole
      else var cut := Cut(whole, buffer.data.Length - 1); result == (cut != "") && after == StripComma(cut)
  {
    after := if Resolves(name, directory) then Cut(text + SidOf(name, directory), buffer.data.Length - 1) else text;
    assert text + "" == text;
    var ok := AppendSid(name, directory, buffer, text);
    if !ok {
      var len := buffer.Length(after);
      if len == 0 {
        return false, after;
      }
      if buffer.data[len - 1] == ',' {
        buffer.data[len - 1] := NUL;
        after := after[..len - 1];
      }
    }
    result := true;
  }

  /** Where the loop stands: these names are done, and what is left of the list. */
  ghost predicate Going(names: seq<string>, done: seq<string>, left: string, text: string, directory: Directory,
                        size: nat)
  {
    NUL !in left && done + Names(left) == names && Fits(text, done, directory, size)
  }

  /** One round of the loop: the name in front of the comma. */
  method TakeItem(list: string, comma: nat, directory: Directory, buffer: Buffer,
                  ghost names: seq<string>, ghost done: seq<string>, ghost text: string)
    returns (full: bool, ghost after: string)
    requires comma == Comma(list) < |list| && ValidDirectory(directory) && Holds(buffer.data[..], text)
    requires Going(names, done, list, text, directory, buffer.data.Length)
    modifies buffer.data
    ensures Holds(buffer.data[..], after)
    ensures full ==> (false, after) == Outcome(names, directory, buffer.data.Length)
    ensures !full ==> Going(names, done + [list[..comma]], list[comma + 1..], after, directory, buffer.data.Length)
  {
    FirstName(list, comma);
    ListRound(done, list[..comma], Names(list[comma + 1..]), directory, buffer.data.Length, text);
    full, after := AppendItem(list[..comma], directory, buffer, text);
  }

  /** The loop over all names but the last. */
  method AppendItems(nameList: string, directory: Directory, buffer: Buffer)
    returns (full: bool, last: string, ghost done: seq<string>, ghost text: string)
    requires Holds(buffer.data[..], "") && NUL !in nameList && ValidDirectory(directory)
    modifies buffer.data
    ensures Holds(buffer.data[..], text)
    ensures full ==> (false, text) == Outcome(Names(nameList), directory, buffer.data.Length)
    ensures !full ==>
      && Names(nameList) == done + [last] && ',' !in last && NUL !in last
      && Fits(text, done, directory, buffer.data.Length)
  {
    last, done, text := nameList, [], "";
    NoStopYet(directory, buffer.data.Length);
    assert [] + Names(nameList) == Names(nameList);
    var comma := Comma(last);
    while comma < |last|
      invariant comma == Comma(last)
      invariant Holds(buffer.data[..], text)
      invariant Going(Names(nameList), done, last, text, directory, buffer.data.Length)
      decreases |last|
    {
      full, text := TakeItem(last, comma, directory, buffer, Names(nameList), done, text);
      if full {
        return;
      }
      done, last := done + [last[..comma]], last[comma + 1..];
      comma := Comma(last);
    }
    full := false;
    LastName(last);
  }

  lemma LastName(s: string)
    requires Comma(s) == |s|
    ensures Names(s) == [s] && ',' !in s
  {
    assert s[..Comma(s)] == s;
  }

  lemma FirstName(list: string, comma: nat)
    requires comma == Comma(list) < |list|
    ensures Names(list) == [list[..comma]] + Names(list[comma + 1..]) && ',' !in list[..comma]
    ensures NUL !in list ==> NUL !in list[..comma] && NUL !in list[comma + 1..]
  {
  }

  /** One round over the list: what it leaves to do, and what it means that the comma does
      not fit. */
  lemma ListRound(done: seq<string>, name: string, rest: seq<string>, directory: Directory, size: nat, text: string)
    requires rest != [] && ValidDirectory(directory) && Fits(text, done, directory, size)
    ensures done + ([name] + rest) == (done + [name]) + rest
    ensures var after := Cut(text + Piece(name, directory), size - 1);
      if |text + Piece(name, directory)| == size then
        (false, after) == Outcome(done + ([name] + rest), directory, size)
      else Fits(after, done + [name], directory, size)
  {
    ItemAdded(done, name, directory, size, text);
    NextName(done, name, rest);
    if |text + Piece(name, directory)| == size {
      StoppedAt(done + [name], rest, directory, size);
    }
  }

  /** winbind_name_list_to_sid_string_list: result and text for a buffer of any size. */
  method NameListToSidList(nameList: string, directory: Directory, buffer: Buffer)
    returns (result: bool, ghost text: string, ghost sids: seq<string>, ghost at: seq<nat>)
    requires buffer.data.Length > 0 && NUL !in nameList && ValidDirectory(directory)
    modifies buffer.data
    ensures Holds(buffer.data[..], text)
    ensures (result, text) == Outcome(Names(nameList), directory, buffer.data.Length)
    ensures Complete(Names(nameList), directory, buffer.data.Length, result, text)
    ensures sids == Resolved(Names(nameList), directory) && Lists(Names(nameList), directory, sids, at)
  {
    result, text := BuildList(nameList, directory, buffer);
    sids := Resolved(Names(nameList), directory);
    OutcomeComplete(Names(nameList), directory, buffer.data.Length);
    at := ResolvedLists(Names(nameList), directory);
  }

  method BuildList(nameList: string, directory: Directory, buffer: Buffer) returns (result: bool, ghost text: string)
    requires buffer.data.Length > 0 && NUL !in nameList && ValidDirectory(directory)
    modifies buffer.data
    ensures Holds(buffer.data[..], text)
    ensures (result, text) == Outcome(Names(nameList), directory, buffer.data.Length)
  {
    buffer.data[0] := NUL;
    var full, last;
    ghost var done;
    full, last, done, text := AppendItems(nameList, directory, buffer);
    if full {
      result := false;
      return;
    }
    Finished(done, last, directory, buffer.data.Length, text);
    result, text := Finish(last, directory, buffer, text);
  }

  lemma NoStopYet(directory: Directory, size: nat)
    requires size > 0
    ensures Fits("", [], directory, size)
  {
    assert Built([], directory) == "";
  }

  lemma NextName(done: seq<string>, name: string, rest: seq<string>)
    ensures done + ([name] + rest) == (done + [name]) + rest
  {
  }

  lemma CutCut(a: string, b: string, n: nat)
    ensures Cut(Cut(a, n) + b, n) == Cut(a + b, n)
  {
  }

  lemma CutPrefix(a: string, b: string, n: nat)
    requires a <= b && |a| >= n
    ensures Cut(b, n) == Cut(a, n)
  {
  }

  predicate NoStop(done: seq<string>, directory: Directory, size: nat)
  {
    forall i {:trigger Built(done[..i], directory)} :: 0 <= i <= |done| ==> |Built(done[..i], directory)| != size
  }

  /** What has been written for the names so far is what fits of it, and no comma was the
      first character not to fit. */
  predicate Fits(text: string, done: seq<string>, directory: Directory, size: nat)
  {
    size > 0 && text == Cut(Built(done, directory), size - 1) && NoStop(done, directory, size)
  }

  lemma NoStopNext(done: seq<string>, name: string, directory: Directory, size: nat)
    requires NoStop(done, directory, size) && |Built(done + [name], directory)| != size
    ensures NoStop(done + [name], directory, size)
  {
    var more := done + [name];
    forall i | 0 <= i <= |more|
      ensures |Built(more[..i], directory)| != size
    {
      assert if i <= |done| then more[..i] == done[..i] else more[..i] == more;
    }
  }

  /** What one more name does to what fits. */
  lemma ItemAdded(done: seq<string>, name: string, directory: Directory, size: nat, text: string)
    requires Fits(text, done, directory, size)
    requires Resolves(name, directory) ==> SidOf(name, directory) != ""
    ensures var (piece, built) := (Piece(name, directory), Built(done + [name], directory));
      && Cut(text + piece, size - 1) == Cut(built, size - 1)
      && if |text + piece| == size then |built| == size
         else Fits(Cut(text + piece, size - 1), done + [name], directory, size)
  {
    BuiltNext(done, name, directory);
    assert done[..|done|] == done;
    CutCut(Built(done, directory), Piece(name, directory), size - 1);
    if |text + Piece(name, directory)| != size {
      NoStopNext(done, name, directory, size);
    }
  }

  lemma StoppedAt(done: seq<string>, rest: seq<string>, directory: Directory, size: nat)
    requires size > 0 && rest != [] && |Built(done, directory)| == size
    ensures Outcome(done + rest, directory, size) == (false, Cut(Built(done, directory), size - 1))
  {
    var names := done + rest;
    var (init, last) := (rest[..|rest| - 1], rest[|rest| - 1]);
    assert names[..|done|] == done;
    assert Stops(names, directory, size);
    assert names[..|names| - 1] == done + init;
    BuiltPrefix(done, init, directory);
    CutPrefix(Built(done, directory), Whole(names, directory), size - 1);
  }

  lemma {:induction false} BuiltPrefix(names: seq<string>, more: seq<string>, directory: Directory)
    ensures Built(names, directory) <= Built(names + more, directory)
    decreases |more|
  {
    if more == [] {
      assert names + more == names;
    } else {
      var (init, last) := (more[..|more| - 1], more[|more| - 1]);
      BuiltPrefix(names, init, directory);
      BuiltNext(names + init, last, directory);
      assert names + init + [last] == names + more;
    }
  }

  lemma Finished(done: seq<string>, last: string, directory: Directory, size: nat, text: string)
    requires Fits(text, done, directory, size)
    requires Resolves(last, directory) ==> SidOf(last, directory) != ""
    ensures var whole := text + if Resolves(last, directory) then SidOf(last, directory) else "";
      Outcome(done + [last], directory, size) ==
      if Resolves(last, directory) && |whole| < size then (true, whole)
      else (Cut(whole, size - 1) != "", StripComma(Cut(whole, size - 1)))
  {
    var names := done + [last];
    NeverStops(done, last, directory, size);
    assert names[..|names| - 1] == done;
    CutCut(Built(done, directory), if Resolves(last, directory) then SidOf(last, directory) else "", size - 1);
  }

  lemma NeverStops(done: seq<string>, last: string, directory: Directory, size: nat)
    requires NoStop(done, directory, size)
    ensures !Stops(done + [last], directory, size)
  {
    var names := done + [last];
    forall i | 0 <= i < |names|
      ensures |Built(names[..i], directory)| != size
    {
      assert names[..i] == done[..i];
    }
  }

  /** Cutting the list at its commas gives the SIDs back: no comma is missing or stray. */
  lemma {:induction false} NamesOfJoin(sids: seq<string>)
    requires sids != [] && forall i :: 0 <= i < |sids| ==> ',' !in sids[i]
    ensures Names(Join(sids, ',')) == sids
    decreases |sids|
  {
    var s, first := Join(sids, ','), sids[0];
    if |sids| == 1 {
      FirstComma(s, first, "");
    } else {
      var rest := Join(sids[1..], ',');
      assert s == first + ([','] + rest) && s[..|first|] == first && s[|first| + 1..] == rest;
      FirstComma(s, first, [','] + rest);
      NamesOfJoin(sids[1..]);
    }
  }

  /** And putting the commas back gives the text. */
  lemma {:induction false} JoinOfNames(s: string)
    ensures Join(Names(s), ',') == s
    decreases |s|
  {
    var k := Comma(s);
    if k < |s| {
      FirstName(s, k);
      var rest := s[k + 1..];
      JoinOfNames(rest);
      JoinFirst(Names(s), s, k, Names(rest), rest);
    } else {
      LastName(s);
    }
  }

  lemma JoinFirst(names: seq<string>, s: string, k: nat, more: seq<string>, rest: string)
    requires k < |s| && s[k] == ',' && rest == s[k + 1..]
    requires names == [s[..k]] + more && more != [] && Join(more, ',') == rest
    ensures Join(names, ',') == s
  {
    assert names[1..] == more;
    assert s == s[..k] + [','] + rest;
  }

  lemma {:induction false} FirstComma(s: string, first: string, more: string)
    requires s == first + more && ',' !in first && (more == "" || more[0] == ',')
    ensures Comma(s) == |first|
    decreases |first|
  {
    if first != [] {
      assert s[0] == first[0] && s[0] in first;
      FirstComma(s[1..], first[1..], more);
    }
  }
}
