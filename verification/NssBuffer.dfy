/** Laying passwd and group entries out in the buffer the C library hands in
    (nsswitch/winbind_nss_linux.c). */
module NssBuffer {
  import opened Tokens
  import opened Wrappers

  const POINTER_SIZE: nat := 8
  const UINT32_MAX := 0xffff_ffff

  datatype Status = Success | TryAgain

  datatype Passwd = Passwd(name: string, passwd: string, uid: int, gid: int, gecos: string, dir: string, shell: string)
  datatype Group = Group(name: string, passwd: string, gid: int, numMembers: nat)

  /** Where the strings of an entry were put, as offsets into the buffer. */
  datatype PasswdAt = PasswdAt(name: nat, passwd: nat, uid: int, gid: int, gecos: nat, dir: nat, shell: nat)
  datatype GroupAt = GroupAt(name: nat, passwd: nat, gid: int, members: nat)

  // ----- what has to fit

  function CString(s: string): (r: string)
    ensures |r| == |s| + 1
  {
    s + ['\0']
  }

  function CStrings(ss: seq<string>): (r: string)
  {
    if ss == [] then "" else CString(ss[0]) + CStrings(ss[1..])
  }

  lemma {:induction false} CStringsAppend(a: seq<string>, b: seq<string>)
    ensures CStrings(a + b) == CStrings(a) + CStrings(b)
  {
    if a == [] {
      assert a + b == b;
    } else {
      assert (a + b)[1..] == a[1..] + b;
      CStringsAppend(a[1..], b);
      Assoc(CString(a[0]), CStrings(a[1..]), CStrings(b));
    }
  }

  lemma CStringsNext(ss: seq<string>, i: nat)
    requires i < |ss|
    ensures CStrings(ss[..i + 1]) == CStrings(ss[..i]) + CString(ss[i])
    ensures |CStrings(ss[..i + 1])| <= |CStrings(ss)|
  {
    TakeOne(ss, i);
    CStringsAppend(ss[..i], [ss[i]]);
    assert CStrings([ss[i]]) == CString(ss[i]) by {
      assert [ss[i]][1..] == [];
      assert CStrings([]) == "";
    }
    CStringsAppend(ss[..i + 1], ss[i + 1..]);
    TakeDrop(ss, i + 1);
  }

  lemma TakeOne<T>(s: seq<T>, i: nat)
    requires i < |s|
    ensures s[..i + 1] == s[..i] + [s[i]]
  {
  }

  lemma TakeDrop<T>(s: seq<T>, i: nat)
    requires i <= |s|
    ensures s == s[..i] + s[i..]
  {
  }

  function PasswdStrings(pw: Passwd): seq<string>
  {
    [pw.name, pw.passwd, pw.gecos, pw.dir, pw.shell]
  }

  /** The bytes that bring an address up to a pointer boundary. */
  function Padding(address: nat): (n: nat)
    ensures n < POINTER_SIZE && (address + n) % POINTER_SIZE == 0
  {
    if address % POINTER_SIZE == 0 then 0 else POINTER_SIZE - address % POINTER_SIZE
  }

  /** How many members the entry is taken to have. */
  function MemberCount(gr: Group, members: Option<string>): nat
  {
    if members.None? then 0 else gr.numMembers
  }

  function MemberNames(gr: Group, members: Option<string>): seq<string>
  {
    if MemberCount(gr, members) == 0 then [] else Tokenize(members.value, {','})
  }

  /** Where the member array of a group lies when its first string is at offset `start`
      of a buffer at address `base`: behind the two strings, on a pointer boundary. */
  function ArrayAt(gr: Group, base: nat, start: nat): (at: nat)
    ensures (base + at) % POINTER_SIZE == 0
    ensures start + |gr.name| + |gr.passwd| + 2 <= at < start + |gr.name| + |gr.passwd| + 2 + POINTER_SIZE
  {
    var end := start + |gr.name| + 1 + |gr.passwd| + 1;
    end + Padding(base + end)
  }

  /** Where its member names lie: behind one pointer for each announced member and one
      more. */
  function NamesAt(gr: Group, count: nat, base: nat, start: nat): nat
  {
    ArrayAt(gr, base, start) + (count + 1) * POINTER_SIZE
  }

  /** What a group entry takes up. */
  function GroupNeed(gr: Group, members: Option<string>, base: nat, start: nat): nat
  {
    NamesAt(gr, MemberCount(gr, members), base, start) - start + |CStrings(MemberNames(gr, members))|
  }

  /** What the daemon must keep to: no more names than it announces, and an announced
      number that can be incremented in 32 bits. */
  predicate HonestGroup(gr: Group, members: Option<string>)
  {
    |MemberNames(gr, members)| <= MemberCount(gr, members) < UINT32_MAX
  }

  /** Entry `j` of a pointer array. */
  function Slot(array0: nat, j: nat): nat
  {
    array0 + j * POINTER_SIZE
  }

  // ----- what a reader of the buffer finds

  /** The buffer reads `s` at offset `at`: its characters and then the terminator. */
  predicate Reads(mem: string, at: nat, s: string)
  {
    at + |s| < |mem| && mem[at..at + |s|] == s && mem[at + |s|] == '\0'
  }

  /** Every field of a user reads as it should. */
  predicate PasswdReads(mem: string, r: PasswdAt, pw: Passwd)
  {
    && r.uid == pw.uid && r.gid == pw.gid
    && Reads(mem, r.name, pw.name) && Reads(mem, r.passwd, pw.passwd)
    && Reads(mem, r.gecos, pw.gecos) && Reads(mem, r.dir, pw.dir) && Reads(mem, r.shell, pw.shell)
  }

  /** Pointer `j` of the array at `array0` leads to name `j`, and behind the last there is a
      null pointer. */
  ghost predicate NamesRead(mem: string, pointers: map<nat, Option<nat>>, array0: nat, names: seq<string>)
  {
    && (forall j {:trigger Slot(array0, j)} :: 0 <= j < |names| ==>
      && Slot(array0, j) in pointers && pointers[Slot(array0, j)].Some?
      && Reads(mem, pointers[Slot(array0, j)].value, names[j]))
    && Slot(array0, |names|) in pointers && pointers[Slot(array0, |names|)] == None
  }

  /** Name, password and members of a group read as they should. */
  ghost predicate GroupReads(mem: string, pointers: map<nat, Option<nat>>, r: GroupAt, gr: Group, names: seq<string>)
  {
    && r.gid == gr.gid
    && Reads(mem, r.name, gr.name) && Reads(mem, r.passwd, gr.passwd)
    && NamesRead(mem, pointers, r.members, names)
  }

  /** Strings that lie one after the other read as they are. */
  lemma StringsRead(mem: string, start: nat, ss: seq<string>, i: nat)
    requires i < |ss| && start + |CStrings(ss)| <= |mem| && mem[start..start + |CStrings(ss)|] == CStrings(ss)
    ensures Reads(mem, start + |CStrings(ss[..i])|, ss[i])
  {
    CStringsNext(ss, i);
    CStringsAppend(ss[..i + 1], ss[i + 1..]);
    TakeDrop(ss, i + 1);
    var (a, b, c) := (CStrings(ss[..i]), CString(ss[i]), CStrings(ss[i + 1..]));
    assert CStrings(ss) == a + b + c;
    MiddleOf(mem, start, a, b, c);
    var at := start + |a|;
    assert mem[at..at + |b|] == ss[i] + ['\0'];
    ReadsHere(mem, at, ss[i]);
  }

  lemma MiddleOf(mem: string, start: nat, a: string, b: string, c: string)
    requires start + |a + b + c| <= |mem| && mem[start..start + |a + b + c|] == a + b + c
    ensures mem[start + |a|..start + |a| + |b|] == b
  {
    var (whole, part) := (mem[start..start + |a + b + c|], mem[start + |a|..start + |a| + |b|]);
    forall k | 0 <= k < |b|
      ensures part[k] == b[k]
    {
      assert part[k] == mem[start + |a| + k] == whole[|a| + k] == (a + b + c)[|a| + k];
    }
  }

  lemma ReadsHere(mem: string, at: nat, s: string)
    requires at + |s| + 1 <= |mem| && mem[at..at + |s| + 1] == s + ['\0']
    ensures Reads(mem, at, s)
  {
    assert mem[at..at + |s|] == mem[at..at + |s| + 1][..|s|];
    assert mem[at + |s|] == mem[at..at + |s| + 1][|s|];
  }

  lemma PasswdIsRead(mem: string, r: PasswdAt, pw: Passwd)
    requires var n := |CStrings(PasswdStrings(pw))|;
      r.name + n <= |mem| && mem[r.name..r.name + n] == CStrings(PasswdStrings(pw))
    requires r.passwd == r.name + |pw.name| + 1 && r.gecos == r.passwd + |pw.passwd| + 1
    requires r.dir == r.gecos + |pw.gecos| + 1 && r.shell == r.dir + |pw.dir| + 1
    requires r.uid == pw.uid && r.gid == pw.gid
    ensures PasswdReads(mem, r, pw)
  {
    PasswdOffsets(pw);
    FieldIsRead(mem, r.name, pw, 0, r.name, pw.name);
    FieldIsRead(mem, r.name, pw, 1, r.passwd, pw.passwd);
    FieldIsRead(mem, r.name, pw, 2, r.gecos, pw.gecos);
    FieldIsRead(mem, r.name, pw, 3, r.dir, pw.dir);
    FieldIsRead(mem, r.name, pw, 4, r.shell, pw.shell);
  }

  lemma FieldIsRead(mem: string, start: nat, pw: Passwd, i: nat, at: nat, s: string)
    requires i < 5 && s == PasswdStrings(pw)[i] && at == start + |CStrings(PasswdStrings(pw)[..i])|
    requires var n := |CStrings(PasswdStrings(pw))|;
      start + n <= |mem| && mem[start..start + n] == CStrings(PasswdStrings(pw))
    ensures Reads(mem, at, s)
  {
    StringsRead(mem, start, PasswdStrings(pw), i);
  }

  lemma PasswdOffsets(pw: Passwd)
    ensures var ss := PasswdStrings(pw);
      && |CStrings(ss[..0])| == 0 && |CStrings(ss[..1])| == |pw.name| + 1
      && |CStrings(ss[..2])| == |pw.name| + 1 + |pw.passwd| + 1
      && |CStrings(ss[..3])| == |pw.name| + 1 + |pw.passwd| + 1 + |pw.gecos| + 1
      && |CStrings(ss[..4])| == |pw.name| + 1 + |pw.passwd| + 1 + |pw.gecos| + 1 + |pw.dir| + 1
  {
    var ss := PasswdStrings(pw);
    assert ss[..0] == [];
    CStringsNext(ss, 0);
    CStringsNext(ss, 1);
    CStringsNext(ss, 2);
    CStringsNext(ss, 3);
  }

  lemma HeadIsRead(mem: string, before: string, gr: Group)
    requires |HeadOf(before, gr)| <= |mem| && mem[..|HeadOf(before, gr)|] == HeadOf(before, gr)
    ensures Reads(mem, |before|, gr.name) && Reads(mem, |before| + |gr.name| + 1, gr.passwd)
  {
    var (ss, n) := ([gr.name, gr.passwd], |before|);
    HeadLengths(gr);
    assert mem[n..n + |CStrings(ss)|] == mem[..|HeadOf(before, gr)|][n..] == CStrings(ss);
    assert ss[..0] == [] && ss[..1] == [gr.name];
    StringsRead(mem, n, ss, 0);
    StringsRead(mem, n, ss, 1);
  }

  /** All lengths added up. */
  function Lengths(ss: seq<string>): nat
  {
    if ss == [] then 0 else |ss[0]| + Lengths(ss[1..])
  }

  lemma {:induction false} CStringsLength(ss: seq<string>)
    ensures |CStrings(ss)| == Lengths(ss) + |ss|
  {
    if ss != [] {
      CStringsLength(ss[1..]);
    }
  }

  /** What a group takes up: two strings, the padding, a pointer for each announced member
      and one more, and the member names with their terminators. */
  lemma GroupNeedIs(gr: Group, members: Option<string>, base: nat, start: nat)
    ensures var names := MemberNames(gr, members);
      var strings := |gr.name| + 1 + |gr.passwd| + 1;
      var count := if members.Some? then gr.numMembers else 0;
      GroupNeed(gr, members, base, start) ==
        strings + Padding(base + start + strings) + 8 * (count + 1) + Lengths(names) + |names|
  {
    CStringsLength(MemberNames(gr, members));
  }

  // ----- the code

  /** The unused part of the caller's buffer: `left` bytes from offset `next` on, the
      buffer itself lying at address `base`.  Pointers stored into the buffer are kept
      apart from its characters, by the offset they were stored at. */
  class Arena {
    const mem: array<char>
    const base: nat
    var next: nat
    var left: nat
    var pointers: map<nat, Option<nat>>

    ghost predicate Valid()
      reads this
    {
      next + left <= mem.Length
    }

    constructor (mem: array<char>, base: nat, len: nat)
      requires len <= mem.Length
      ensures Valid() && this.mem == mem && this.base == base
      ensures next == 0 && left == len && pointers == map[]
    {
      this.mem, this.base := mem, base;
      next, left, pointers := 0, len, map[];
    }

    /** get_static: the next `len` bytes, or nothing if fewer are left. */
    method GetStatic(len: nat) returns (at: Option<nat>)
      requires Valid()
      modifies this`next, this`left
      ensures Valid()
      ensures if len <= old(left) then at == Some(old(next)) && next == old(next) + len && left == old(left) - len
              else at == None && next == old(next) && left == old(left)
    {
      if left < len {
        return None;
      }
      at := Some(next);
      next, left := next + len, left - len;
    }

    /** Allocate room for a string and copy it there with its terminator. */
    method PutString(s: string) returns (at: Option<nat>)
      requires Valid()
      modifies this`next, this`left, mem
      ensures Valid()
      ensures at.Some? <==> |s| + 1 <= old(left)
      ensures at.None? ==> next == old(next) && left == old(left) && mem[..] == old(mem[..])
      ensures at.Some? ==>
        && at.value == old(next) && next == old(next) + |s| + 1 && left == old(left) - (|s| + 1)
        && mem[old(next)..next] == CString(s)
        && mem[..old(next)] == old(mem[..next])
    {
      at := GetStatic(|s| + 1);
      if at.None? {
        return;
      }
      var p := at.value;
      forall i | 0 <= i < |s| {
        mem[p + i] := s[i];
      }
      mem[p + |s|] := '\0';
      assert mem[p..next] == CString(s);
    }

    /** The strings `done` lie one after the other from `start` to the free part, and
        what is before `start` is as it was. */
    ghost predicate Holds(start: nat, done: seq<string>, before: string)
      reads this, mem
    {
      && Valid()
      && start + |CStrings(done)| == next
      && mem[start..next] == CStrings(done)
      && mem[..start] == before
    }

    /** One more string after those. */
    method Append(s: string, ghost start: nat, ghost done: seq<string>, ghost before: string) returns (at: Option<nat>)
      requires Holds(start, done, before)
      modifies this`next, this`left, mem
      ensures Valid()
      ensures at.Some? <==> |s| + 1 <= old(left)
      ensures at.Some? ==>
        && at.value == start + |CStrings(done)| && left == old(left) - (|s| + 1)
        && Holds(start, done + [s], before)
    {
      ghost var here, was := next, mem[..next];
      at := PutString(s);
      if at.Some? {
        CStringsOneMore(done, s);
        assert mem[start..next] == mem[start..here] + mem[here..next];
        assert mem[start..here] == was[start..here];
        assert mem[..start] == was[..start];
      }
    }

    /** fill_pwent: succeeds exactly when the five strings fit with their terminators, and
        then each of them is read at its offset. */
    method FillPasswd(pw: Passwd) returns (status: Status, r: PasswdAt)
      requires Valid()
      modifies this`next, this`left, mem
      ensures status.Success? <==>
        |pw.name| + 1 + |pw.passwd| + 1 + |pw.gecos| + 1 + |pw.dir| + 1 + |pw.shell| + 1 <= old(left)
      ensures status.Success? ==>
        && PasswdReads(mem[..], r, pw)
        && Holds(old(next), PasswdStrings(pw), old(mem[..next]))
        && r.name == old(next) && next == r.shell + |pw.shell| + 1 <= old(next) + old(left)
        && r.passwd == r.name + |pw.name| + 1
        && r.gecos == r.passwd + |pw.passwd| + 1
        && r.dir == r.gecos + |pw.gecos| + 1
        && r.shell == r.dir + |pw.dir| + 1
    {
      PasswdLengths(pw);
      ghost var start := next;
      status, r := PutPasswd(pw);
      if status.Success? {
        assert mem[..][start..next] == mem[start..next];
        PasswdIsRead(mem[..], r, pw);
      }
    }

    /** The five strings, one after the other. */
    method PutPasswd(pw: Passwd) returns (status: Status, r: PasswdAt)
      requires Valid()
      modifies this`next, this`left, mem
      ensures status.Success? <==> |CStrings(PasswdStrings(pw))| <= old(left)
      ensures status.Success? ==>
        && Holds(old(next), PasswdStrings(pw), old(mem[..next]))
        && r.name == old(next)
        && r.passwd == r.name + |pw.name| + 1
        && r.gecos == r.passwd + |pw.passwd| + 1
        && r.dir == r.gecos + |pw.gecos| + 1
        && r.shell == r.dir + |pw.dir| + 1
        && next == r.shell + |pw.shell| + 1 <= old(next) + old(left)
        && r.uid == pw.uid && r.gid == pw.gid
    {
      r := PasswdAt(0, 0, 0, 0, 0, 0, 0);
      ghost var (start, before) := (next, mem[..next]);
      PasswdLengths(pw);
      var at := Append(pw.name, start, [], before);
      if at.None? {
        return TryAgain, r;
      }
      r := r.(name := at.value);
      at := Append(pw.passwd, start, [pw.name], before);
      if at.None? {
        return TryAgain, r;
      }
      r := r.(passwd := at.value, uid := pw.uid, gid := pw.gid);
      at := Append(pw.gecos, start, [pw.name, pw.passwd], before);
      if at.None? {
        return TryAgain, r;
      }
      r := r.(gecos := at.value);
      at := Append(pw.dir, start, [pw.name, pw.passwd, pw.gecos], before);
      if at.None? {
        return TryAgain, r;
      }
      r := r.(dir := at.value);
      at := Append(pw.shell, start, [pw.name, pw.passwd, pw.gecos, pw.dir], before);
      if at.None? {
        return TryAgain, r;
      }
      r := r.(shell := at.value);
      status := Success;
    }

    /** The pointers of the member array: one to each of the first `i` names, which lie
        one after the other from `first` on. */
    ghost predicate Listed(array0: nat, first: nat, names: seq<string>, i: nat)
      reads this
      requires i <= |names|
    {
      forall j {:trigger Slot(array0, j)} :: 0 <= j < i ==>
        Slot(array0, j) in pointers && pointers[Slot(array0, j)] == Some(first + |CStrings(names[..j])|)
    }

    /** The member array of a group is laid out: aligned, a pointer to each name in
        order, then a null pointer, the names behind the array. */
    ghost predicate MembersLaid(array0: nat, first: nat, names: seq<string>, before: string)
      reads this, mem
    {
      && (base + array0) % POINTER_SIZE == 0
      && array0 + (|names| + 1) * POINTER_SIZE <= first
      && Listed(array0, first, names, |names|)
      && Slot(array0, |names|) in pointers && pointers[Slot(array0, |names|)] == None
      && Holds(first, names, before)
    }

    /** One member: its name behind the others, a pointer to it in its slot. */
    method PutMember(array0: nat, first: nat, ghost names: seq<string>, i: nat, name: string, ghost before: string)
      returns (ok: bool)
      requires i < |names| && name == names[i]
      requires Holds(first, names[..i], before) && Listed(array0, first, names, i)
      modifies this, mem
      ensures ok <==> |name| + 1 <= old(left)
      ensures ok ==>
        && Holds(first, names[..i + 1], before) && Listed(array0, first, names, i + 1)
        && left == old(left) - (|name| + 1)
    {
      TakeOne(names, i);
      var at := Append(name, first, names[..i], before);
      pointers := pointers[Slot(array0, i) := at];
      ok := at.Some?;
    }

    /** The loop of fill_grent over the member names. */
    method PutMembers(members: string, array0: nat, first: nat, ghost names: seq<string>, ghost before: string)
      returns (ok: bool, i: nat)
      requires names == Tokenize(members, {','}) && Holds(first, [], before)
      modifies this, mem
      ensures ok <==> |CStrings(names)| <= old(left)
      ensures ok ==>
        && i == |names| && Holds(first, names, before) && Listed(array0, first, names, i)
        && left == old(left) - |CStrings(names)|
    {
      var pos := 0;
      i := 0;
      Whole(members);
      Whole(names);
      while true
        invariant pos <= |members| && i <= |names|
        invariant Tokenize(members[pos..], {','}) == names[i..]
        invariant Holds(first, names[..i], before) && Listed(array0, first, names, i)
        invariant left == old(left) - |CStrings(names[..i])|
        decreases |members| - pos
      {
        var token, pos' := NextMember(members, pos, names, i);
        if token.None? {
          return true, i;
        }
        CStringsNext(names, i);
        ok := PutMember(array0, first, names, i, token.value, before);
        if !ok {
          return;
        }
        i, pos := i + 1, pos';
      }
    }

    /** The names, and the null pointer behind the last one: each name is then read through
        its pointer. */
    method FillMembers(members: string, array0: nat, ghost names: seq<string>, ghost before: string)
      returns (status: Status)
      requires names == Tokenize(members, {','}) && Valid() && before == mem[..next]
      requires (base + array0) % POINTER_SIZE == 0 && Slot(array0, |names| + 1) <= next
      modifies this, mem
      ensures status.Success? <==> Lengths(names) + |names| <= old(left)
      ensures status.Success? ==>
        && MembersLaid(array0, old(next), names, before) && left == old(left) - |CStrings(names)|
        && NamesRead(mem[..], pointers, array0, names)
    {
      ghost var first := next;
      CStringsLength(names);
      status := LayMembers(members, array0, names, before);
      if status.Success? {
        MembersAreRead(array0, first, names, before);
      }
    }

    method LayMembers(members: string, array0: nat, ghost names: seq<string>, ghost before: string)
      returns (status: Status)
      requires names == Tokenize(members, {','}) && Valid() && before == mem[..next]
      requires (base + array0) % POINTER_SIZE == 0 && Slot(array0, |names| + 1) <= next
      modifies this, mem
      ensures status.Success? <==> |CStrings(names)| <= old(left)
      ensures status.Success? ==>
        MembersLaid(array0, old(next), names, before) && left == old(left) - |CStrings(names)|
    {
      assert mem[next..next] == CStrings([]);
      var ok, i := PutMembers(members, array0, next, names, before);
      if !ok {
        return TryAgain;
      }
      pointers := pointers[Slot(array0, i) := None];
      status := Success;
    }

    /** The first two strings of a group, and the room for its member array. */
    method FillHead(gr: Group, count: nat) returns (status: Status, r: GroupAt)
      requires Valid()
      modifies this`next, this`left, mem
      ensures Valid()
      ensures status.Success? <==> NamesAt(gr, count, base, old(next)) - old(next) <= old(left)
      ensures status.Success? ==>
        && r == GroupAt(old(next), old(next) + |gr.name| + 1, gr.gid, ArrayAt(gr, base, old(next)))
        && next == NamesAt(gr, count, base, old(next)) && left == old(left) - (next - old(next))
        && mem[..r.passwd + |gr.passwd| + 1] == HeadOf(old(mem[..next]), gr)
    {
      r := GroupAt(0, 0, 0, 0);
      ghost var start, before := next, mem[..next];
      HeadLengths(gr);
      var at := Append(gr.name, start, [], before);
      if at.None? {
        return TryAgain, r;
      }
      r := r.(name := at.value);
      at := Append(gr.passwd, start, [gr.name], before);
      if at.None? {
        return TryAgain, r;
      }
      r := r.(passwd := at.value, gid := gr.gid);
      assert mem[..next] == mem[..start] + mem[start..next];
      var pad := Padding(base + next);
      at := GetStatic((count + 1) * POINTER_SIZE + pad);
      if at.None? {
        return TryAgain, r;
      }
      r := r.(members := at.value + pad);
      status := Success;
    }

    /** Where the members are laid out, their names are read through the pointers. */
    lemma MembersAreRead(array0: nat, first: nat, names: seq<string>, before: string)
      requires MembersLaid(array0, first, names, before)
      ensures NamesRead(mem[..], pointers, array0, names)
    {
      assert mem[..][first..next] == mem[first..next];
      forall j | 0 <= j < |names|
        ensures Slot(array0, j) in pointers && pointers[Slot(array0, j)].Some?
        ensures Reads(mem[..], pointers[Slot(array0, j)].value, names[j])
      {
        StringsRead(mem[..], first, names, j);
      }
    }

    lemma GroupIsRead(r: GroupAt, first: nat, names: seq<string>, before: string, start: string, gr: Group)
      requires MembersLaid(r.members, first, names, before)
      requires |HeadOf(start, gr)| <= mem.Length && mem[..|HeadOf(start, gr)|] == HeadOf(start, gr)
      requires r.gid == gr.gid && r.name == |start| && r.passwd == |start| + |gr.name| + 1
      ensures GroupReads(mem[..], pointers, r, gr, names)
    {
      MembersAreRead(r.members, first, names, before);
      assert mem[..][..|HeadOf(start, gr)|] == mem[..|HeadOf(start, gr)|];
      HeadIsRead(mem[..], start, gr);
    }

    /** fill_grent: succeeds exactly when everything fits, and then everything is where
        it should be. */
    method FillGroup(gr: Group, members: Option<string>) returns (status: Status, r: GroupAt)
      requires Valid() && HonestGroup(gr, members)
      modifies this, mem
      ensures status.Success? ==> GroupReads(mem[..], pointers, r, gr, MemberNames(gr, members))
      ensures status.Success? <==> GroupNeed(gr, members, base, old(next)) <= old(left)
      ensures status.Success? ==>
        && r == GroupAt(old(next), old(next) + |gr.name| + 1, gr.gid, ArrayAt(gr, base, old(next)))
        && next == old(next) + GroupNeed(gr, members, base, old(next))
        && mem[..r.passwd + |gr.passwd| + 1] == HeadOf(old(mem[..next]), gr)
        && MembersLaid(r.members, NamesAt(gr, MemberCount(gr, members), base, old(next)), MemberNames(gr, members),
                       mem[..NamesAt(gr, MemberCount(gr, members), base, old(next))])
    {
      var count := if members.None? then 0 else gr.numMembers;
      status, r := FillHead(gr, count);
      if status.TryAgain? {
        return;
      }
      RoomForPointers(gr, members, base, old(next));
      ghost var (names, first, before) := (MemberNames(gr, members), next, mem[..next]);
      assert first == NamesAt(gr, MemberCount(gr, members), base, old(next));
      assert GroupNeed(gr, members, base, old(next)) == first - old(next) + |CStrings(names)|;
      status := FillTail(r.members, count, members, names, before, HeadOf(old(mem[..next]), gr));
      if status.Success? {
        GroupIsRead(r, first, names, before, old(mem[..next]), gr);
      }
    }

    /** The part of fill_grent behind the member array; what stands in front stays. */
    method FillTail(array0: nat, count: nat, members: Option<string>, ghost names: seq<string>, ghost before: string,
                    ghost head: string)
      returns (status: Status)
      requires Valid() && before == mem[..next] && |head| <= next && mem[..|head|] == head
      requires (base + array0) % POINTER_SIZE == 0 && Slot(array0, |names| + 1) <= next
      requires if count == 0 then names == [] else members.Some? && names == Tokenize(members.value, {','})
      modifies this, mem
      ensures status.Success? <==> |CStrings(names)| <= old(left)
      ensures status.Success? ==>
        && MembersLaid(array0, old(next), names, before) && mem[..old(next)] == before
        && next == old(next) + |CStrings(names)|
        && mem[..|head|] == head
    {
      SamePrefix(mem, before, |head|);
      CStringsLength(names);
      if count == 0 {
        assert mem[next..next] == CStrings([]);
        pointers := pointers[Slot(array0, 0) := None];
        return Success;
      }
      status := FillMembers(members.value, array0, names, before);
      if status.Success? {
        SamePrefix(mem, before, |head|);
      }
    }
  }

  /** What stands in the buffer up to the end of a group's two strings. */
  function HeadOf(before: string, gr: Group): (s: string)
    ensures |s| == |before| + |gr.name| + |gr.passwd| + 2
  {
    before + (CString(gr.name) + CString(gr.passwd))
  }

  /** The next of the names in a member list. */
  method NextMember(members: string, pos: nat, ghost names: seq<string>, ghost i: nat)
    returns (token: Option<string>, pos': nat)
    requires pos <= |members| && i <= |names| && Tokenize(members[pos..], {','}) == names[i..]
    ensures pos' <= |members|
    ensures token.None? <==> i == |names|
    ensures token.Some? ==>
      pos < pos' && token.value == names[i] && Tokenize(members[pos'..], {','}) == names[i + 1..]
  {
    token, pos' := NextToken(members, pos, {','});
    if token.Some? {
      NextName(names, i, token.value, Tokenize(members[pos'..], {','}));
    }
  }

  lemma Whole<T>(s: seq<T>)
    ensures s[0..] == s && s[..0] == [] && s[..|s|] == s
  {
  }

  lemma SamePrefix(m: array<char>, before: string, end: nat)
    requires end <= |before| <= m.Length && m[..|before|] == before
    ensures m[..end] == before[..end]
  {
  }

  lemma RoomForPointers(gr: Group, members: Option<string>, base: nat, start: nat)
    requires HonestGroup(gr, members)
    ensures Slot(ArrayAt(gr, base, start), |MemberNames(gr, members)| + 1)
      <= NamesAt(gr, MemberCount(gr, members), base, start)
  {
  }

  lemma HeadLengths(gr: Group)
    ensures CStrings([]) == "" && |CStrings([gr.name])| == |gr.name| + 1
    ensures CStrings([gr.name, gr.passwd]) == CString(gr.name) + CString(gr.passwd)
    ensures [] + [gr.name] == [gr.name] && [gr.name] + [gr.passwd] == [gr.name, gr.passwd]
  {
    CStringsOneMore([], gr.name);
    CStringsOneMore([gr.name], gr.passwd);
  }

  lemma NextName(names: seq<string>, i: nat, name: string, rest: seq<string>)
    requires i <= |names| && names[i..] == [name] + rest
    ensures i < |names| && names[i] == name && names[i + 1..] == rest
  {
    assert names[i..][0] == name;
    assert names[i..][1..] == rest;
  }

  lemma CStringsOneMore(done: seq<string>, s: string)
    ensures CStrings(done + [s]) == CStrings(done) + CString(s)
  {
    CStringsAppend(done, [s]);
    assert [s][1..] == [];
    assert CStrings([]) == "";
  }

  lemma PasswdLengths(pw: Passwd)
    ensures CStrings([]) == ""
    ensures |CStrings([pw.name])| == |pw.name| + 1
    ensures [] + [pw.name] == [pw.name]
    ensures [pw.name] + [pw.passwd] == [pw.name, pw.passwd]
    ensures [pw.name, pw.passwd] + [pw.gecos] == [pw.name, pw.passwd, pw.gecos]
    ensures [pw.name, pw.passwd, pw.gecos] + [pw.dir] == [pw.name, pw.passwd, pw.gecos, pw.dir]
    ensures [pw.name, pw.passwd, pw.gecos, pw.dir] + [pw.shell] == PasswdStrings(pw)
    ensures |CStrings([pw.name, pw.passwd])| == |pw.name| + |pw.passwd| + 2
    ensures |CStrings([pw.name, pw.passwd, pw.gecos])| == |pw.name| + |pw.passwd| + |pw.gecos| + 3
    ensures |CStrings([pw.name, pw.passwd, pw.gecos, pw.dir])| == |pw.name| + |pw.passwd| + |pw.gecos| + |pw.dir| + 4
    ensures |CStrings(PasswdStrings(pw))| == |pw.name| + |pw.passwd| + |pw.gecos| + |pw.dir| + |pw.shell| + 5
  {
    CStringsOneMore([], pw.name);
    CStringsOneMore([pw.name], pw.passwd);
    CStringsOneMore([pw.name, pw.passwd], pw.gecos);
    CStringsOneMore([pw.name, pw.passwd, pw.gecos], pw.dir);
    CStringsOneMore([pw.name, pw.passwd, pw.gecos, pw.dir], pw.shell);
  }
}
