/** A user's supplementary groups: the growing array of nsswitch/winbind_nss_linux.c and
    the fixed one of nsswitch/winbind_nss_freebsd.c. */
module GroupLists {
  import opened Wire

  type gid = uint32

  const UNMAPPED: gid := 0xffff_ffff

  datatype Status = Success | NotFound | Unavailable | TryAgain

  /** What comes back for WINBINDD_GETGROUPS: nothing, an error, a reply without a list, or
      the groups of the user. */
  datatype Reply = Unreachable | Refused | NoList | Listed(gids: seq<gid>)

  /** The daemon's groups without the primary one and those that have no mapping. */
  function Supplementary(gids: seq<gid>, primary: gid): (r: seq<gid>)
    ensures primary !in r && UNMAPPED !in r
    ensures forall g :: g in gids && g != primary && g != UNMAPPED ==> g in r
    ensures forall g :: g in r ==> g in gids
    ensures |r| <= |gids|
  {
    if gids == [] then []
    else (if gids[0] == primary || gids[0] == UNMAPPED then [] else [gids[0]]) + Supplementary(gids[1..], primary)
  }

  /** What the array holds in the end: everything, cut off at the limit if there is one. */
  function Limited(all: seq<gid>, limit: int): seq<gid>
  {
    if 0 < limit < |all| then all[..limit] else all
  }

  /** Order and repetitions are those of the daemon's list: each part of it contributes
      what it would contribute alone. */
  lemma {:induction false} SupplementaryAppend(a: seq<gid>, b: seq<gid>, primary: gid)
    ensures Supplementary(a + b, primary) == Supplementary(a, primary) + Supplementary(b, primary)
  {
    if a == [] {
      assert a + b == b;
    } else {
      SupplementaryAppend(a[1..], b, primary);
      SupplementaryFirst(a, primary);
      SupplementaryFirst(a + b, primary);
      assert (a + b)[1..] == a[1..] + b;
      var first := if a[0] == primary || a[0] == UNMAPPED then [] else [a[0]];
      Extended(first, Supplementary(a[1..], primary), Supplementary(b, primary));
    }
  }

  lemma SupplementaryFirst(gids: seq<gid>, primary: gid)
    requires gids != []
    ensures Supplementary(gids, primary) ==
      (if gids[0] == primary || gids[0] == UNMAPPED then [] else [gids[0]]) + Supplementary(gids[1..], primary)
  {
  }

  /** The allocator, which counts how often it has refused. */
  class Memory {
    var refusals: nat

    constructor ()
      ensures refusals == 0
    {
      refusals := 0;
    }

    method Grants() returns (granted: bool)
      modifies this
      ensures refusals == if granted then old(refusals) else old(refusals) + 1
    {
      granted := *;
      refusals := if granted then refusals else refusals + 1;
    }
  }

  /** The length of the array when it grows. */
  function Doubled(size: nat, limit: int): nat
  {
    if 0 < limit < 2 * size then limit else 2 * size
  }

  /** The array handed in by the C library: `start` entries of `size` are in use. */
  class GroupArray {
    var groups: array<gid>
    var start: nat
    var size: nat

    ghost predicate Valid()
      reads this
    {
      1 <= size == groups.Length && start <= size
    }

    ghost function Contents(): seq<gid>
      reads this, groups
      requires Valid()
    {
      groups[..start]
    }

    constructor (size: nat)
      requires size >= 1
      ensures Valid() && Contents() == [] && this.size == size && fresh(groups)
    {
      groups := new gid[size];
      start, this.size := 0, size;
    }

    /** Make room when the array is full; nothing can be added once it is as long as the
        limit allows. */
    method Reserve(limit: int, memory: Memory) returns (r: Reservation)
      requires Valid() && (limit > 0 ==> size <= limit)
      modifies this, memory
      ensures Valid() && Contents() == old(Contents()) && (limit > 0 ==> size <= limit)
      ensures r.Room? ==> start < size
      ensures r.AtLimit? ==> limit > 0 && start == limit
      ensures size == if r.Room? && old(start) == old(size) then Doubled(old(size), limit) else old(size)
      ensures r.NoMemory? <==> memory.refusals > old(memory.refusals)
      ensures memory.refusals >= old(memory.refusals)
      ensures groups == old(groups) || fresh(groups)
    {
      if start < size {
        return Room;
      }
      var newSize := 2 * size;
      if limit > 0 {
        if size == limit {
          return AtLimit;
        }
        if newSize > limit {
          newSize := limit;
        }
      }
      var granted := memory.Grants();
      if !granted {
        return NoMemory;
      }
      var newGroups := new gid[newSize];
      forall i | 0 <= i < size {
        newGroups[i] := groups[i];
      }
      assert newGroups[..start] == groups[..start];
      groups, size := newGroups, newSize;
      r := Room;
    }

    /** Add one group, unless the limit is reached or memory runs out. */
    method Append(g: gid, limit: int, memory: Memory) returns (r: Reservation)
      requires Valid() && (limit > 0 ==> size <= limit)
      modifies this, groups, memory
      ensures Valid() && (limit > 0 ==> size <= limit)
      ensures Contents() == if r.Room? then old(Contents()) + [g] else old(Contents())
      ensures r.AtLimit? ==> limit > 0 && start == limit
      ensures r.NoMemory? <==> memory.refusals > old(memory.refusals)
      ensures memory.refusals >= old(memory.refusals)
      ensures groups == old(groups) || fresh(groups)
    {
      r := Reserve(limit, memory);
      if r.Room? {
        groups[start] := g;
        start := start + 1;
      }
    }

    /** The loop of _nss_winbind_initgroups_dyn. */
    method InitGroups(reply: Reply, primary: gid, limit: int, memory: Memory) returns (status: Status)
      requires Valid() && (limit > 0 ==> size <= limit)
      modifies this, groups, memory
      ensures Valid() && (groups == old(groups) || fresh(groups))
      ensures memory.refusals >= old(memory.refusals)
      ensures status == if reply.Unreachable? then Unavailable
                        else if reply.Listed? && memory.refusals == old(memory.refusals) then Success
                        else NotFound
      ensures !reply.Listed? ==> Contents() == old(Contents()) && memory.refusals == old(memory.refusals)
      ensures status == Success ==> Contents() == Limited(old(Contents()) + Supplementary(reply.gids, primary), limit)
      ensures status == Success ==>
        var all := |old(Contents())| + |Supplementary(reply.gids, primary)|;
        |Contents()| == if 0 < limit < all then limit else all
      ensures reply.Listed? ==> old(Contents()) <= Contents() <= old(Contents()) + Supplementary(reply.gids, primary)
    {
      if reply.Unreachable? {
        return Unavailable;
      }
      if !reply.Listed? {
        return NotFound;
      }
      var gids := reply.gids;
      ghost var before := Contents();
      ghost var added: seq<gid> := [];
      assert before == before + [] && gids[0..] == gids;
      for i := 0 to |gids|
        invariant Valid() && (limit > 0 ==> size <= limit)
        invariant groups == old(groups) || fresh(groups)
        invariant memory.refusals == old(memory.refusals)
        invariant Contents() == before + added
        invariant added + Supplementary(gids[i..], primary) == Supplementary(gids, primary)
      {
        SupplementaryStep(gids, i, primary, added);
        if gids[i] == primary || gids[i] == UNMAPPED {
          continue;
        }
        var room := Append(gids[i], limit, memory);
        match room {
          case AtLimit =>
            Stopped(before, added, Supplementary(gids, primary), limit);
            return Success;
          case NoMemory =>
            Stopped(before, added, Supplementary(gids, primary), limit);
            return NotFound;
          case Room =>
            Extended(before, added, [gids[i]]);
            added := added + [gids[i]];
        }
      }
      assert added + [] == added;
      status := Success;
    }
  }

  lemma Extended(before: seq<gid>, added: seq<gid>, more: seq<gid>)
    ensures (before + added) + more == before + (added + more)
  {
  }

  lemma Stopped(before: seq<gid>, added: seq<gid>, all: seq<gid>, limit: int)
    requires added <= all
    ensures before <= before + added <= before + all
    ensures limit == |before + added| && limit > 0 ==> Limited(before + all, limit) == before + added
  {
  }

  datatype Reservation = Room | AtLimit | NoMemory

  lemma SupplementaryStep(gids: seq<gid>, i: nat, primary: gid, before: seq<gid>)
    requires i < |gids|
    ensures before + Supplementary(gids[i..], primary) ==
      (if gids[i] == primary || gids[i] == UNMAPPED then before else before + [gids[i]])
      + Supplementary(gids[i + 1..], primary)
  {
    assert gids[i..][1..] == gids[i + 1..];
  }

  // ----- the fixed array

  /** Adding groups one after the other, each only if it is not there yet. */
  function AddNew(list: seq<gid>, more: seq<gid>): (r: seq<gid>)
    ensures list <= r
    decreases |more|
  {
    if more == [] then list
    else AddNew(if more[0] in list then list else list + [more[0]], more[1..])
  }

  predicate Distinct(s: seq<gid>)
  {
    forall i, j :: 0 <= i < j < |s| ==> s[i] != s[j]
  }

  lemma {:induction false} AddNewExactly(list: seq<gid>, more: seq<gid>)
    ensures Distinct(list) ==> Distinct(AddNew(list, more))
    ensures forall g :: g in AddNew(list, more) <==> g in list || g in more
    decreases |more|
  {
    if more != [] {
      var next := if more[0] in list then list else list + [more[0]];
      AddNewExactly(next, more[1..]);
      assert more == [more[0]] + more[1..];
    }
  }

  lemma AddNewOne(list: seq<gid>, g: gid)
    ensures AddNew(list, [g]) == if g in list then list else list + [g]
  {
    var next := if g in list then list else list + [g];
    assert [g][1..] == [];
    assert AddNew(next, []) == next;
  }

  lemma {:induction false} AddNewAppend(list: seq<gid>, a: seq<gid>, b: seq<gid>)
    ensures AddNew(list, a + b) == AddNew(AddNew(list, a), b)
    decreases |a|
  {
    if a == [] {
      assert a + b == b;
    } else {
      assert (a + b)[1..] == a[1..] + b;
      AddNewAppend(if a[0] in list then list else list + [a[0]], a[1..], b);
    }
  }

  function Min(a: nat, b: nat): nat
  {
    if a < b then a else b
  }

  /** The caller's array of at most `max` groups and the number counted, which goes on
      past `max`. */
  class Membership {
    const groups: array<gid>
    const max: nat
    var count: nat

    ghost predicate Valid()
    {
      max == groups.Length
    }

    ghost function Stored(): seq<gid>
      reads this, groups
      requires Valid()
    {
      groups[..Min(max, count)]
    }

    /** The array holds the first `max` of the distinct groups `list`, and the count is
        right as long as they all fit. */
    ghost predicate Tracks(list: seq<gid>)
      reads this, groups
    {
      && Valid()
      && Stored() == list[..Min(max, |list|)]
      && (|list| <= max ==> count == |list|)
      && (|list| > max ==> count >= |list|)
    }

    constructor (groups: array<gid>, count: nat)
      ensures Valid() && this.groups == groups && max == groups.Length && this.count == count
    {
      this.groups, max, this.count := groups, groups.Length, count;
    }

    /** gr_addgid. */
    method AddGid(g: gid, ghost list: seq<gid>) returns (r: int)
      requires Tracks(list)
      modifies this`count, groups
      ensures Tracks(AddNew(list, [g]))
      ensures r == 0 <==> g !in list[..Min(max, |list|)] && |list| >= max
    {
      ghost var list' := AddNew(list, [g]);
      AddNewOne(list, g);
      for dup := 0 to Min(max, count)
        invariant g !in groups[..dup]
      {
        if groups[dup] == g {
          assert g in Stored();
          return 1;
        }
      }
      assert g !in Stored();
      r := 1;
      if count < max {
        ghost var before := Stored();
        groups[count] := g;
        count := count + 1;
        assert Stored() == before + [g];
      } else {
        r := 0;
        count := count + 1;
      }
    }
  }

  /** The loop of __freebsd_getgroupmembership. */
  method AddAll(m: Membership, gids: seq<gid>, ghost list: seq<gid>)
    requires m.Tracks(list)
    modifies m, m.groups
    ensures m.Tracks(AddNew(list, gids))
  {
    for i := 0 to |gids|
      invariant m.Tracks(AddNew(list, gids[..i]))
    {
      AddNewNext(list, gids, i);
      var _ := m.AddGid(gids[i], AddNew(list, gids[..i]));
    }
    assert gids[..|gids|] == gids;
  }

  lemma AddNewNext(list: seq<gid>, more: seq<gid>, i: nat)
    requires i < |more|
    ensures AddNew(list, more[..i + 1]) == AddNew(AddNew(list, more[..i]), [more[i]])
  {
    AddNewAppend(list, more[..i], [more[i]]);
    assert more[..i + 1] == more[..i] + [more[i]];
  }

  /** __freebsd_getgroupmembership: the primary group and then the daemon's. The caller
      is told "not found" unless there is no memory to start with, so that other sources
      can add more. */
  method GetGroupMembership(m: Membership, primary: gid, reply: Reply, memory: Memory, ghost list: seq<gid>)
    returns (r: Status)
    requires m.max >= 1 && m.Tracks(list)
    modifies m, m.groups, memory
    ensures r == TryAgain || r == NotFound
    ensures r == TryAgain ==> m.Tracks(list) && memory.refusals > old(memory.refusals)
    ensures memory.refusals == old(memory.refusals) ==>
      var more := if reply.Listed? then Supplementary(reply.gids, primary) else [];
      m.Tracks(AddNew(list, [primary] + more))
    ensures r == NotFound && memory.refusals > old(memory.refusals) ==> m.Tracks(AddNew(list, [primary]))
  {
    var granted := memory.Grants();
    if !granted {
      return TryAgain;
    }
    var temporary := new GroupArray(m.max);
    var _ := m.AddGid(primary, list);
    var status := temporary.InitGroups(reply, primary, 0, memory);
    if status == Success {
      var gids := temporary.groups[..temporary.start];
      assert gids == Supplementary(reply.gids, primary);
      AddAll(m, gids, AddNew(list, [primary]));
      AddNewAppend(list, [primary], gids);
    } else {
      assert [primary] + [] == [primary];
    }
    r := NotFound;
  }

  /** If the final count is within the array, the array holds each of the old groups, the
      primary group and the daemon's mapped groups exactly once; and the count is within
      the array if and only if they all fit. */
  lemma MembershipComplete(list: seq<gid>, primary: gid, gids: seq<gid>, all: seq<gid>, stored: seq<gid>,
                           count: nat, max: nat)
    requires Distinct(list)
    requires all == AddNew(list, [primary] + Supplementary(gids, primary))
    requires stored == all[..Min(max, |all|)]
    requires |all| <= max ==> count == |all|
    requires |all| > max ==> count >= |all|
    ensures Distinct(stored)
    ensures count <= max <==> |all| <= max
    ensures count <= max ==> forall g :: g in stored <==> g in list || g == primary || (g in gids && g != UNMAPPED)
  {
    var more := [primary] + Supplementary(gids, primary);
    AddNewExactly(list, more);
    assert Distinct(all);
    if count <= max {
      assert stored == all;
      forall g
        ensures g in stored <==> g in list || g == primary || (g in gids && g != UNMAPPED)
      {
        assert g in more <==> g == primary || g in Supplementary(gids, primary);
      }
    }
  }
}
