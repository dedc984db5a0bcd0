/** Walking through all users or all groups (nsswitch/winbind_nss_linux.c): the daemon
    hands out batches, the module hands out one entry per call from a cached batch, and
    keeps its place when the caller's buffer is too small. */
module NssEnum {
  import opened Wire
  import NssBuffer
  import opened Wrappers

  datatype Status = Success | NotFound | Unavailable | TryAgain

  /** How an exchange with the daemon goes.  The daemon keeps the place of an enumeration
      with the connection (source3/winbindd), so it matters which one the request takes:
      the one of the last exchange, a new one for which no enumeration is open, or one the
      reply never comes back on, which may be kept all the same.  Or the daemon answers
      with an error, and gives the enumeration up. */
  datatype Net = Same | Fresh | Refused | Lost(kept: bool)

  /** Where an enumeration stands: the batch in the last response if its data is still
      held, the next entry of it, whether a retry is awaited; and for the daemon, whether
      one is open and how many batches it has handed out. */
  datatype Place<E> = Place(cache: Option<seq<E>>, ndx: nat, calledAgain: bool, open: bool, pos: nat)
  {
    ghost predicate Valid(batches: seq<seq<E>>)
    {
      && pos <= |batches|
      && if cache.Some? then pos > 0 && cache.value == batches[pos - 1] && ndx < |cache.value| else ndx == 0
    }

    /** What is still to come from the cached batch. */
    function Ahead(): seq<E>
      requires cache.Some? ==> ndx <= |cache.value|
    {
      if cache.Some? then cache.value[ndx..] else []
    }

    /** A retry is awaited but the batch it was for is gone. */
    predicate Stuck()
    {
      calledAgain && cache.None?
    }
  }

  /** Before anything has been asked for. */
  function Start<E>(): Place<E>
  {
    Place(None, 0, false, false, 0)
  }

  // ----- what one call does

  function Told(net: Net): (status: Status)
  {
    match net
    case Same | Fresh => Success
    case Refused => NotFound
    case Lost(_) => Unavailable
  }

  /** After setpwent or setgrent. */
  function Opened<E>(p: Place<E>, net: Net): Place<E>
  {
    Place(None, 0, p.calledAgain, net.Same? || net.Fresh? || net == Lost(true), 0)
  }

  /** After endpwent or endgrent. */
  function Closed<E>(p: Place<E>): Place<E>
  {
    Place(None, 0, p.calledAgain, false, 0)
  }

  /** The daemon has a batch for the next request on its connection. */
  predicate More<E>(batches: seq<seq<E>>, p: Place<E>)
  {
    p.open && p.pos < |batches|
  }

  /** After a request for the next batch. */
  function Requested<E>(batches: seq<seq<E>>, p: Place<E>, net: Net): Place<E>
    requires p.Valid(batches) && p.cache.None?
  {
    match net
    case Same =>
      if !More(batches, p) then p
      else
        var batch := batches[p.pos];
        p.(cache := if batch == [] then None else Some(batch), pos := p.pos + 1)
    case Lost(true) => if More(batches, p) then p.(pos := p.pos + 1) else p
    case _ => p.(open := false)
  }

  /** The first half of a call: the cached entry, or the first one of the next batch. */
  function Fetched<E>(batches: seq<seq<E>>, p: Place<E>, net: Net): Place<E>
    requires p.Valid(batches)
  {
    if p.cache.Some? || p.calledAgain then p else Requested(batches, p, net)
  }

  function FetchStatus<E>(batches: seq<seq<E>>, p: Place<E>, net: Net): (status: Status)
    requires p.Valid(batches)
    ensures status == Success ==> Fetched(batches, p, net).cache.Some?
  {
    if p.cache.Some? then Success
    else if p.calledAgain then NotFound
    else if net.Lost? then Unavailable
    else if net.Same? && More(batches, p) && batches[p.pos] != [] then Success
    else NotFound
  }

  /** The second half: what becomes of the place in the batch once the entry has been put
      into the caller's buffer, or has turned out not to fit. */
  function Settled<E>(p: Place<E>, fits: bool): Place<E>
    requires p.cache.Some? && p.ndx < |p.cache.value|
  {
    if !fits then p.(calledAgain := true)
    else if p.ndx + 1 == |p.cache.value| then p.(cache := None, ndx := 0, calledAgain := false)
    else p.(ndx := p.ndx + 1, calledAgain := false)
  }

  /** What a call reports, which entry it gives, and where it leaves the enumeration. */
  datatype Outcome<E> = Outcome(status: Status, entry: Option<E>, place: Place<E>)

  /** A call for the next entry with a buffer that some entries fit into. */
  function Called<E>(batches: seq<seq<E>>, p: Place<E>, net: Net, fits: E -> bool): (o: Outcome<E>)
    requires p.Valid(batches)
    ensures o.place.Valid(batches) && (o.status == Success <==> o.entry.Some?)
  {
    var (status, f) := (FetchStatus(batches, p, net), Fetched(batches, p, net));
    if status != Success then Outcome(status, None, f)
    else
      var e := f.cache.value[f.ndx];
      if fits(e) then Outcome(Success, Some(e), Settled(f, true)) else Outcome(TryAgain, None, Settled(f, false))
  }

  class Enumeration<E> {
    const batches: seq<seq<E>>   // the daemon's database, as it hands it out
    var cache: Option<seq<E>>
    var ndx: nat
    var num: nat
    var calledAgain: bool
    var open: bool
    var pos: nat

    ghost function Here(): Place<E>
      reads this
    {
      Place(cache, ndx, calledAgain, open, pos)
    }

    ghost predicate Valid()
      reads this
    {
      Here().Valid(batches) && num == if cache.Some? then |cache.value| else 0
    }

    constructor (batches: seq<seq<E>>)
      ensures Valid() && this.batches == batches && Here() == Start()
    {
      this.batches := batches;
      cache, ndx, num, calledAgain := None, 0, 0, false;
      open, pos := false, 0;
    }

    /** Free the cached batch. */
    method DropCache()
      requires Valid()
      modifies this`cache, this`ndx, this`num
      ensures Valid() && cache == None
    {
      if num > 0 {
        ndx, num := 0, 0;
        cache := None;
      }
    }

    /** setpwent and setgrent: drop the cached batch; the daemon starts again. */
    method SetEnt(net: Net) returns (status: Status)
      requires Valid()
      modifies this
      ensures Valid() && status == Told(net) && Here() == Opened(old(Here()), net)
    {
      DropCache();
      open, pos := !net.Refused? && net != Lost(false), 0;
      status := Told(net);
    }

    /** endpwent and endgrent: drop the cached batch; the daemon drops its place. */
    method EndEnt(net: Net) returns (status: Status)
      requires Valid()
      modifies this
      ensures Valid() && status == Told(net) && Here() == Closed(old(Here()))
    {
      DropCache();
      open, pos := false, 0;
      status := Told(net);
    }

    /** Ask the daemon for the next batch. */
    method Request(net: Net) returns (status: Status)
      requires Valid() && cache.None?
      modifies this
      ensures Valid() && Here() == Requested(batches, old(Here()), net)
      ensures status == if net.Lost? then Unavailable
                        else if net.Same? && More(batches, old(Here())) then Success else NotFound
    {
      match net {
        case Same =>
          if !open || pos == |batches| {
            return NotFound;
          }
          var batch := batches[pos];
          pos := pos + 1;
          ndx, num := 0, |batch|;
          cache := if batch == [] then None else Some(batch);
          return Success;
        case Lost(kept) =>
          if !kept {
            open := false;
          } else if open && pos < |batches| {
            pos := pos + 1;
          }
          return Unavailable;
        case Fresh | Refused =>
          open := false;
          return NotFound;
      }
    }

    /** The first half of getpwent_r and winbind_getgrent. */
    method Fetch(net: Net) returns (status: Status, entry: Option<E>)
      requires Valid()
      modifies this
      ensures Valid() && Here() == Fetched(batches, old(Here()), net)
      ensures status == FetchStatus(batches, old(Here()), net)
      ensures entry == if status == Success then Some(cache.value[ndx]) else None
    {
      if !(ndx < num || calledAgain) {
        status := Request(net);
        if !status.Success? {
          return status, None;
        }
      }
      if cache.None? {
        return NotFound, None;
      }
      return Success, Some(cache.value[ndx]);
    }

    /** The second half. */
    method Settle(fits: bool) returns (status: Status)
      requires Valid() && cache.Some?
      modifies this
      ensures Valid() && Here() == Settled(old(Here()), fits)
      ensures status == if fits then Success else TryAgain
    {
      if !fits {
        calledAgain := true;
        return TryAgain;
      }
      calledAgain := false;
      ndx := ndx + 1;
      if ndx == num {
        ndx, num := 0, 0;
        cache := None;
      }
      status := Success;
    }
  }

  // ----- whole runs

  datatype Op<!E> = Set(net: Net) | End(net: Net) | Get(net: Net, fits: E -> bool)

  function Step<E>(batches: seq<seq<E>>, p: Place<E>, op: Op<E>): (o: Outcome<E>)
    requires p.Valid(batches)
    ensures o.place.Valid(batches)
  {
    match op
    case Set(net) => Outcome(Told(net), None, Opened(p, net))
    case End(net) => Outcome(Told(net), None, Closed(p))
    case Get(net, fits) => Called(batches, p, net, fits)
  }

  /** Where the first `k` calls of a run leave the enumeration. */
  function After<E>(batches: seq<seq<E>>, p: Place<E>, ops: seq<Op<E>>, k: nat): (q: Place<E>)
    requires p.Valid(batches) && k <= |ops|
    ensures q.Valid(batches)
  {
    if k == 0 then p else Step(batches, After(batches, p, ops, k - 1), ops[k - 1]).place
  }

  /** What call `k` of a run does. */
  function At<E>(batches: seq<seq<E>>, p: Place<E>, ops: seq<Op<E>>, k: nat): Outcome<E>
    requires p.Valid(batches) && k < |ops|
  {
    Step(batches, After(batches, p, ops, k), ops[k])
  }

  /** What the first `k` calls of a run have given since the last set or end among them. */
  function Given<E>(batches: seq<seq<E>>, p: Place<E>, ops: seq<Op<E>>, k: nat): seq<E>
    requires p.Valid(batches) && k <= |ops|
  {
    if k == 0 || !ops[k - 1].Get? then []
    else
      var o := At(batches, p, ops, k - 1);
      Given(batches, p, ops, k - 1) + if o.entry.Some? then [o.entry.value] else []
  }

  /** Among the first `k` calls, one since the last set or end lost the daemon's reply but
      not its connection. */
  predicate Missed<E>(batches: seq<seq<E>>, p: Place<E>, ops: seq<Op<E>>, k: nat)
    requires p.Valid(batches) && k <= |ops|
  {
    k > 0 && ops[k - 1].Get? &&
    (Missed(batches, p, ops, k - 1) ||
     (ops[k - 1].net == Lost(true) && At(batches, p, ops, k - 1).status == Unavailable))
  }

  /** The last set or end among the first `k` calls is a set that succeeded, and every
      call since takes the same connection. */
  predicate Undisturbed<E>(ops: seq<Op<E>>, k: nat)
    requires k <= |ops|
  {
    k > 0 && match ops[k - 1]
             case Set(net) => Told(net) == Success
             case End(_) => false
             case Get(net, _) => net.Same? && Undisturbed(ops, k - 1)
  }

  lemma NextBatch<E>(batches: seq<seq<E>>, pos: nat)
    requires pos < |batches|
    ensures Concat(batches[..pos + 1]) == Concat(batches[..pos]) + batches[pos]
  {
    assert batches[..pos + 1] == batches[..pos] + [batches[pos]];
    ConcatAppend(batches[..pos], [batches[pos]]);
    ConcatOne(batches[pos]);
  }

  lemma HandedOutFirst<E>(batches: seq<seq<E>>, pos: nat)
    requires pos <= |batches|
    ensures Concat(batches) == Concat(batches[..pos]) + Concat(batches[pos..])
    ensures pos < |batches| && batches[pos] != [] ==>
      |Concat(batches[..pos])| < |Concat(batches)| && Concat(batches)[|Concat(batches[..pos])|] == batches[pos][0]
  {
    assert batches == batches[..pos] + batches[pos..];
    ConcatAppend(batches[..pos], batches[pos..]);
    if pos < |batches| {
      assert batches[pos..][0] == batches[pos];
    }
  }

  lemma OneAhead<E>(given: seq<E>, batch: seq<E>, ndx: nat)
    requires ndx < |batch|
    ensures given + batch[ndx..] == given + [batch[ndx]] + batch[ndx + 1..]
    ensures ndx + 1 == |batch| ==> given + batch[ndx..] == given + [batch[ndx]]
  {
  }

  /** Fetching keeps what has been given in step with the batches handed out, unless a
      batch is lost with the reply. */
  lemma FetchInStep<E>(batches: seq<seq<E>>, p: Place<E>, net: Net, given: seq<E>)
    requires p.Valid(batches) && given + p.Ahead() == Concat(batches[..p.pos])
    requires net == Lost(true) ==> FetchStatus(batches, p, net) != Unavailable
    ensures var f := Fetched(batches, p, net); given + f.Ahead() == Concat(batches[..f.pos])
  {
    if p.cache.None? && p.pos < |batches| {
      NextBatch(batches, p.pos);
      assert given + [] == given;
    }
  }

  /** And so does giving the entry fetched. */
  lemma SettleInStep<E>(f: Place<E>, fits: bool, given: seq<E>, handedOut: seq<E>)
    requires f.cache.Some? && f.ndx < |f.cache.value| && given + f.Ahead() == handedOut
    ensures (given + if fits then [f.cache.value[f.ndx]] else []) + Settled(f, fits).Ahead() == handedOut
  {
    if fits {
      OneAhead(given, f.cache.value, f.ndx);
    } else {
      assert given + [] == given;
    }
  }

  lemma InStep<E>(batches: seq<seq<E>>, p: Place<E>, net: Net, fits: E -> bool, given: seq<E>)
    requires p.Valid(batches) && given + p.Ahead() == Concat(batches[..p.pos])
    requires net == Lost(true) ==> FetchStatus(batches, p, net) != Unavailable
    ensures var o := Called(batches, p, net, fits);
      (given + if o.entry.Some? then [o.entry.value] else []) + o.place.Ahead() == Concat(batches[..o.place.pos])
  {
    FetchInStep(batches, p, net, given);
    var f := Fetched(batches, p, net);
    if FetchStatus(batches, p, net) == Success {
      SettleInStep(f, fits(f.cache.value[f.ndx]), given, Concat(batches[..f.pos]));
    } else {
      assert given + [] == given;
    }
  }

  /** What has been given and what is cached make up the batches handed out: nothing is
      skipped or repeated, whatever the sizes of the buffers. */
  lemma {:induction false} NothingSkipped<E>(batches: seq<seq<E>>, p: Place<E>, ops: seq<Op<E>>, k: nat)
    requires p.Valid(batches) && k <= |ops| && p == Start() && !Missed(batches, p, ops, k)
    ensures var q := After(batches, p, ops, k);
      Given(batches, p, ops, k) + q.Ahead() == Concat(batches[..q.pos])
    ensures Given(batches, p, ops, k) <= Concat(batches)
  {
    var q := After(batches, p, ops, k);
    if k > 0 && ops[k - 1].Get? {
      NothingSkipped(batches, p, ops, k - 1);
      InStep(batches, After(batches, p, ops, k - 1), ops[k - 1].net, ops[k - 1].fits, Given(batches, p, ops, k - 1));
    }
    HandedOutFirst(batches, q.pos);
  }

  lemma StaysOpen<E>(batches: seq<seq<E>>, p: Place<E>, fits: E -> bool)
    requires p.Valid(batches)
    ensures Called(batches, p, Same, fits).place.open == p.open
    ensures FetchStatus(batches, p, Same) != Unavailable
  {
  }

  /** The same since the last set, from any place. */
  lemma {:induction false} InStepSinceSet<E>(batches: seq<seq<E>>, p: Place<E>, ops: seq<Op<E>>, k: nat)
    requires p.Valid(batches) && k <= |ops| && Undisturbed(ops, k)
    ensures var q := After(batches, p, ops, k);
      q.open && Given(batches, p, ops, k) + q.Ahead() == Concat(batches[..q.pos])
  {
    var op := ops[k - 1];
    if op.Get? {
      InStepSinceSet(batches, p, ops, k - 1);
      var (q, given) := (After(batches, p, ops, k - 1), Given(batches, p, ops, k - 1));
      StaysOpen(batches, q, op.fits);
      InStep(batches, q, Same, op.fits, given);
    } else {
      assert batches[..0] == [];
    }
  }

  /** After a set, calls on the same connection walk through the whole database, entry by
      entry: each gives the next entry if that fits its buffer, and otherwise leaves it for
      the next call; the end is reported when everything has been given and not before. */
  lemma Walks<E>(batches: seq<seq<E>>, p: Place<E>, ops: seq<Op<E>>, k: nat)
    requires p.Valid(batches) && k < |ops| && ops[k].Get? && Undisturbed(ops, k + 1) && [] !in batches
    requires !After(batches, p, ops, k).Stuck()
    ensures Walked(Concat(batches), Given(batches, p, ops, k), ops[k].fits, At(batches, p, ops, k))
  {
    InStepSinceSet(batches, p, ops, k);
    var (q, given) := (After(batches, p, ops, k), Given(batches, p, ops, k));
    HandedOutFirst(batches, q.pos);
    if q.cache.Some? {
      assert (given + q.Ahead())[|given|] == q.cache.value[q.ndx];
    } else {
      assert given + [] == given;
      if q.pos == |batches| {
        assert batches[..q.pos] == batches;
      } else {
        assert batches[q.pos] in batches;
      }
    }
  }

  /** The call after `given` of a walk through `all`. */
  ghost predicate Walked<E>(all: seq<E>, given: seq<E>, fits: E -> bool, o: Outcome<E>)
  {
    && given <= all
    && if given == all then o.status == NotFound
       else if fits(all[|given|]) then o.status == Success && o.entry == Some(all[|given|])
       else o.status == TryAgain
  }

  // ----- when there is nothing to walk through

  /** No enumeration is open and nothing is cached. */
  predicate Shut<E>(p: Place<E>)
  {
    !p.open && p.cache.None?
  }

  /** What shuts an enumeration: an end; a set that is refused or loses its connection; a
      request that goes to a new connection, is refused or loses its connection. */
  lemma Shuts<E>(batches: seq<seq<E>>, p: Place<E>, op: Op<E>)
    requires p.Valid(batches)
    requires match op
             case End(_) => true
             case Set(net) => net.Refused? || net == Lost(false)
             case Get(net, _) => p.cache.None? && !p.calledAgain && (net.Fresh? || net.Refused? || net == Lost(false))
    ensures var o := Step(batches, p, op);
      Shut(o.place) && o.entry.None? && (o.status == Unavailable <==> op.net.Lost?)
  {
  }

  /** Until the next set nothing is given, on whatever connection. */
  lemma {:induction false} StaysShut<E>(batches: seq<seq<E>>, p: Place<E>, ops: seq<Op<E>>, j: nat, k: nat)
    requires p.Valid(batches) && j <= k < |ops| && Shut(After(batches, p, ops, j))
    requires forall i :: j <= i <= k ==> !ops[i].Set?
    ensures Shut(After(batches, p, ops, k)) && At(batches, p, ops, k).entry.None?
    decreases k
  {
    if j < k {
      StaysShut(batches, p, ops, j, k - 1);
      ShutStep(batches, After(batches, p, ops, k - 1), ops[k - 1]);
    }
    ShutStep(batches, After(batches, p, ops, k), ops[k]);
  }

  lemma ShutStep<E>(batches: seq<seq<E>>, p: Place<E>, op: Op<E>)
    requires p.Valid(batches) && Shut(p) && !op.Set?
    ensures Shut(Step(batches, p, op).place) && Step(batches, p, op).entry.None?
  {
  }

  /** Each set, on whatever connection it succeeds, starts from the first batch. */
  lemma SetStartsAgain<E>(batches: seq<seq<E>>, p: Place<E>, net: Net, fits: E -> bool)
    requires p.Valid(batches) && Told(net) == Success && !p.calledAgain && batches != [] && batches[0] != []
    ensures Told(net) == Success <==> net.Same? || net.Fresh?
    ensures var o := Called(batches, Opened(p, net), Same, fits);
      if fits(batches[0][0]) then o.entry == Some(batches[0][0]) else o.status == TryAgain
  {
  }

  // ----- what the caller sees

  /** The first calls of a run reported these. */
  predicate Logged<E>(batches: seq<seq<E>>, p: Place<E>, ops: seq<Op<E>>, log: seq<Status>)
    requires p.Valid(batches)
  {
    && |log| <= |ops|
    && forall i {:trigger At(batches, p, ops, i)} :: 0 <= i < |log| ==> log[i] == At(batches, p, ops, i).status
  }

  /** How many entries the first `k` calls have given since the last set or end. */
  function CountSince<E>(ops: seq<Op<E>>, log: seq<Status>, k: nat): nat
    requires k <= |log| <= |ops|
  {
    if k == 0 || !ops[k - 1].Get? then 0
    else CountSince(ops, log, k - 1) + if log[k - 1] == Success then 1 else 0
  }

  /** After `k` calls the module awaits a retry: the last call that found an entry had no
      room for it. */
  predicate Pending<E>(ops: seq<Op<E>>, log: seq<Status>, k: nat)
    requires k <= |log| <= |ops|
  {
    k > 0 &&
    if ops[k - 1].Get? && log[k - 1] == TryAgain then true
    else if ops[k - 1].Get? && log[k - 1] == Success then false
    else Pending(ops, log, k - 1)
  }

  /** Call `j` sets or ends although a retry is awaited. */
  predicate Breaks<E>(ops: seq<Op<E>>, log: seq<Status>, j: nat)
    requires j < |log| <= |ops|
  {
    !ops[j].Get? && Pending(ops, log, j)
  }

  ghost predicate Broken<E>(ops: seq<Op<E>>, log: seq<Status>, k: nat)
    requires k <= |log| <= |ops|
  {
    exists j :: 0 <= j < k && Breaks(ops, log, j)
  }

  lemma {:induction false} Counted<E>(batches: seq<seq<E>>, p: Place<E>, ops: seq<Op<E>>, log: seq<Status>, k: nat)
    requires p.Valid(batches) && Logged(batches, p, ops, log) && k <= |log|
    ensures |Given(batches, p, ops, k)| == CountSince(ops, log, k)
  {
    if k > 0 && ops[k - 1].Get? {
      Counted(batches, p, ops, log, k - 1);
      assert log[k - 1] == At(batches, p, ops, k - 1).status;
    }
  }

  lemma Retries<E>(batches: seq<seq<E>>, p: Place<E>, op: Op<E>)
    requires p.Valid(batches)
    ensures var o := Step(batches, p, op);
      o.place.calledAgain == if op.Get? && o.status == TryAgain then true
                             else if op.Get? && o.status == Success then false
                             else p.calledAgain
  {
  }

  lemma {:induction false} AwaitsRetry<E>(batches: seq<seq<E>>, p: Place<E>, ops: seq<Op<E>>, log: seq<Status>, k: nat)
    requires p.Valid(batches) && Logged(batches, p, ops, log) && k <= |log| && !p.calledAgain
    ensures After(batches, p, ops, k).calledAgain == Pending(ops, log, k)
  {
    if k > 0 {
      AwaitsRetry(batches, p, ops, log, k - 1);
      Retries(batches, After(batches, p, ops, k - 1), ops[k - 1]);
      assert log[k - 1] == At(batches, p, ops, k - 1).status;
    }
  }

  lemma StuckNext<E>(batches: seq<seq<E>>, p: Place<E>, op: Op<E>)
    requires p.Valid(batches)
    ensures Step(batches, p, op).place.Stuck() <==> p.Stuck() || (!op.Get? && p.calledAgain)
  {
  }

  lemma BrokenNext<E>(ops: seq<Op<E>>, log: seq<Status>, k: nat)
    requires k < |log| <= |ops|
    ensures Broken(ops, log, k + 1) <==> Broken(ops, log, k) || Breaks(ops, log, k)
  {
  }

  /** The module is stuck exactly when a set or an end came between a TRYAGAIN and its
      retry. */
  lemma {:induction false} StuckWhenBroken<E>(batches: seq<seq<E>>, p: Place<E>, ops: seq<Op<E>>, log: seq<Status>,
                                              k: nat)
    requires p.Valid(batches) && Logged(batches, p, ops, log) && k <= |log| && !p.calledAgain
    ensures After(batches, p, ops, k).Stuck() <==> Broken(ops, log, k)
  {
    if k > 0 {
      StuckWhenBroken(batches, p, ops, log, k - 1);
      AwaitsRetry(batches, p, ops, log, k - 1);
      StuckNext(batches, After(batches, p, ops, k - 1), ops[k - 1]);
      BrokenNext(ops, log, k - 1);
    }
  }

  /** And then every call reports that there is nothing, for good. */
  lemma SilentAfter<E>(batches: seq<seq<E>>, p: Place<E>, ops: seq<Op<E>>, log: seq<Status>, k: nat)
    requires p.Valid(batches) && Logged(batches, p, ops, log) && k < |log| && !p.calledAgain
    requires Broken(ops, log, k) && ops[k].Get?
    ensures log[k] == NotFound
  {
    StuckWhenBroken(batches, p, ops, log, k);
    assert log[k] == At(batches, p, ops, k).status;
  }

  /** How to get stuck: set, a first entry that does not fit, a set or an end before the
      retry. */
  lemma Strands<E>(batches: seq<seq<E>>, p: Place<E>, ops: seq<Op<E>>, log: seq<Status>, k: nat)
    requires p.Valid(batches) && Logged(batches, p, ops, log) && !p.calledAgain && 3 <= k < |log| && ops[k].Get?
    requires ops[0] == Set(Same) && ops[1].Get? && ops[1].net == Same && !ops[2].Get?
    requires batches != [] && batches[0] != [] && !ops[1].fits(batches[0][0])
    ensures log[1] == TryAgain && log[k] == NotFound
  {
    assert After(batches, p, ops, 1) == Opened(p, Same);
    assert log[1] == At(batches, p, ops, 1).status;
    assert Breaks(ops, log, 2);
    SilentAfter(batches, p, ops, log, k);
  }

  /** Call `k` asks for an entry after a set that succeeded, on the same connection as all
      calls since, and no retry was broken. */
  ghost predicate Walking<E>(ops: seq<Op<E>>, log: seq<Status>, k: nat)
    requires k < |log| <= |ops|
  {
    ops[k].Get? && Undisturbed(ops, k + 1) && !Broken(ops, log, k)
  }

  /** The walk as the caller can count it. */
  lemma WalksOn<E>(batches: seq<seq<E>>, p: Place<E>, ops: seq<Op<E>>, log: seq<Status>, k: nat)
    requires p.Valid(batches) && Logged(batches, p, ops, log) && k < |log| && !p.calledAgain && [] !in batches
    requires Walking(ops, log, k)
    ensures var (all, n, o) := (Concat(batches), CountSince(ops, log, k), At(batches, p, ops, k));
      && n <= |all|
      && if n == |all| then o.status == NotFound
         else if ops[k].fits(all[n]) then o.status == Success && o.entry == Some(all[n])
         else o.status == TryAgain
  {
    StuckWhenBroken(batches, p, ops, log, k);
    Walks(batches, p, ops, k);
    Counted(batches, p, ops, log, k);
    assert |Given(batches, p, ops, k)| == |Concat(batches)| ==> Given(batches, p, ops, k) == Concat(batches);
  }

  // ----- the calls of the C library

  /** Where the strings of a user lie when the first is at offset `start`. */
  function PasswdPlaced(pw: NssBuffer.Passwd, start: nat): NssBuffer.PasswdAt
  {
    var passwd := start + |pw.name| + 1;
    var gecos := passwd + |pw.passwd| + 1;
    var dir := gecos + |pw.gecos| + 1;
    NssBuffer.PasswdAt(start, passwd, pw.uid, pw.gid, gecos, dir, dir + |pw.dir| + 1)
  }

  /** The users that fit into so many bytes. */
  function PasswdFits(left: nat): NssBuffer.Passwd -> bool
  {
    (pw: NssBuffer.Passwd) =>
      |pw.name| + 1 + |pw.passwd| + 1 + |pw.gecos| + 1 + |pw.dir| + 1 + |pw.shell| + 1 <= left
  }

  /** A user stands in the buffer from offset `start` on, behind what was there before. */
  ghost predicate PasswdLaid(arena: NssBuffer.Arena, start: nat, before: string, pw: NssBuffer.Passwd,
                             r: NssBuffer.PasswdAt)
    reads arena, arena.mem
  {
    && NssBuffer.PasswdReads(arena.mem[..], r, pw)
    && arena.Holds(start, NssBuffer.PasswdStrings(pw), before)
    && r == PasswdPlaced(pw, start)
  }

  /** The second half of _nss_winbind_getpwent_r. */
  method TakePasswd(e: Enumeration<NssBuffer.Passwd>, pw: NssBuffer.Passwd, arena: NssBuffer.Arena,
                    ghost before: string)
    returns (status: Status, r: NssBuffer.PasswdAt)
    requires e.Valid() && e.cache.Some? && arena.Valid() && before == arena.mem[..arena.next]
    modifies e, arena, arena.mem
    ensures var fits := PasswdFits(old(arena.left))(pw);
      && e.Valid() && e.Here() == Settled(old(e.Here()), fits)
      && status == (if fits then Success else TryAgain)
      && (fits ==> PasswdLaid(arena, old(arena.next), before, pw, r))
  {
    var filled;
    filled, r := arena.FillPasswd(pw);
    assert filled.Success? ==> PasswdLaid(arena, old(arena.next), before, pw, r);
    status := e.Settle(filled.Success?);
  }

  /** _nss_winbind_getpwent_r. */
  method GetPwEnt(e: Enumeration<NssBuffer.Passwd>, net: Net, arena: NssBuffer.Arena)
    returns (status: Status, r: NssBuffer.PasswdAt)
    requires e.Valid() && arena.Valid()
    modifies e, arena, arena.mem
    ensures e.Valid()
    ensures var o := Called(e.batches, old(e.Here()), net, PasswdFits(old(arena.left)));
      && status == o.status && e.Here() == o.place
      && (status == Success ==>
        PasswdLaid(arena, old(arena.next), old(arena.mem[..arena.next]), o.entry.value, r))
  {
    ghost var before := arena.mem[..arena.next];
    var entry;
    status, entry := e.Fetch(net);
    r := NssBuffer.PasswdAt(0, 0, 0, 0, 0, 0, 0);
    if entry.Some? {
      assert arena.mem[..arena.next] == before;
      status, r := TakePasswd(e, entry.value, arena, before);
    }
  }

  /** A group as the daemon sends it: the record and its member list. */
  datatype GroupEntry = GroupEntry(gr: NssBuffer.Group, members: string)
  {
    function Names(): seq<string>
    {
      NssBuffer.MemberNames(gr, Some(members))
    }
  }

  predicate HonestBatch(b: seq<GroupEntry>)
  {
    forall i :: 0 <= i < |b| ==> NssBuffer.HonestGroup(b[i].gr, Some(b[i].members))
  }

  predicate HonestBatches(batches: seq<seq<GroupEntry>>)
  {
    forall i {:trigger HonestBatch(batches[i])} :: 0 <= i < |batches| ==> HonestBatch(batches[i])
  }

  /** The groups that fit into `left` bytes at offset `start` of a buffer at `base`. */
  function GroupFits(base: nat, start: nat, left: nat): GroupEntry -> bool
  {
    (g: GroupEntry) => NssBuffer.GroupNeed(g.gr, Some(g.members), base, start) <= left
  }

  function GroupPlaced(gr: NssBuffer.Group, base: nat, start: nat): NssBuffer.GroupAt
  {
    NssBuffer.GroupAt(start, start + |gr.name| + 1, gr.gid, NssBuffer.ArrayAt(gr, base, start))
  }

  /** A group stands in the buffer from offset `start` on, behind what was there before. */
  ghost predicate GroupLaid(arena: NssBuffer.Arena, start: nat, before: string, g: GroupEntry, r: NssBuffer.GroupAt)
    reads arena, arena.mem
  {
    var first := NssBuffer.NamesAt(g.gr, g.gr.numMembers, arena.base, start);
    && NssBuffer.GroupReads(arena.mem[..], arena.pointers, r, g.gr, g.Names())
    && r == GroupPlaced(g.gr, arena.base, start)
    && arena.next == start + NssBuffer.GroupNeed(g.gr, Some(g.members), arena.base, start)
    && first <= arena.mem.Length
    && arena.MembersLaid(r.members, first, g.Names(), arena.mem[..first])
    && arena.mem[..r.passwd + |g.gr.passwd| + 1] == NssBuffer.HeadOf(before, g.gr)
  }

  /** The second half of winbind_getgrent. */
  method TakeGroup(e: Enumeration<GroupEntry>, g: GroupEntry, arena: NssBuffer.Arena, ghost before: string)
    returns (status: Status, r: NssBuffer.GroupAt)
    requires e.Valid() && e.cache.Some? && arena.Valid() && before == arena.mem[..arena.next]
    requires NssBuffer.HonestGroup(g.gr, Some(g.members))
    modifies e, arena, arena.mem
    ensures var fits := GroupFits(arena.base, old(arena.next), old(arena.left))(g);
      && e.Valid() && e.Here() == Settled(old(e.Here()), fits)
      && status == (if fits then Success else TryAgain)
      && (fits ==> GroupLaid(arena, old(arena.next), before, g, r))
  {
    var filled;
    filled, r := arena.FillGroup(g.gr, Some(g.members));
    assert filled.Success? ==> GroupLaid(arena, old(arena.next), before, g, r);
    status := e.Settle(filled.Success?);
  }

  /** winbind_getgrent. */
  method GetGrEnt(e: Enumeration<GroupEntry>, net: Net, arena: NssBuffer.Arena)
    returns (status: Status, r: NssBuffer.GroupAt)
    requires e.Valid() && arena.Valid() && HonestBatches(e.batches)
    modifies e, arena, arena.mem
    ensures e.Valid()
    ensures
      var o := Called(e.batches, old(e.Here()), net, GroupFits(arena.base, old(arena.next), old(arena.left)));
      && status == o.status && e.Here() == o.place
      && (status == Success ==>
        GroupLaid(arena, old(arena.next), old(arena.mem[..arena.next]), o.entry.value, r))
  {
    ghost var before := arena.mem[..arena.next];
    var entry;
    status, entry := e.Fetch(net);
    r := NssBuffer.GroupAt(0, 0, 0, 0);
    if entry.Some? {
      assert HonestBatch(e.batches[e.pos - 1]) && entry.value == e.batches[e.pos - 1][e.ndx];
      assert arena.mem[..arena.next] == before;
      status, r := TakeGroup(e, entry.value, arena, before);
    }
  }

  // ----- runs of these calls

  /** A call, and for the next entry the caller's buffer: its address and its size. */
  datatype Call = SetEnt(net: Net) | EndEnt(net: Net) | GetEnt(net: Net, base: nat, size: nat)

  /** What a call comes back with: the status, where the strings are, and the buffer with
      the pointers in it. */
  datatype Answer<A> = Answer(status: Status, at: A, mem: string, pointers: map<nat, Option<nat>>)

  function PasswdOp(c: Call): Op<NssBuffer.Passwd>
  {
    match c
    case SetEnt(net) => Set(net)
    case EndEnt(net) => End(net)
    case GetEnt(net, _, size) => Get(net, PasswdFits(size))
  }

  function PasswdOps(calls: seq<Call>): seq<Op<NssBuffer.Passwd>>
  {
    seq(|calls|, i requires 0 <= i < |calls| => PasswdOp(calls[i]))
  }

  /** The buffer holds the user's strings, at the places told. */
  predicate ShowsPasswd(a: Answer<NssBuffer.PasswdAt>, pw: NssBuffer.Passwd)
  {
    && NssBuffer.PasswdReads(a.mem, a.at, pw)
    && a.at == PasswdPlaced(pw, 0) && NssBuffer.CStrings(NssBuffer.PasswdStrings(pw)) <= a.mem
  }

  predicate AnswersPasswd(a: Answer<NssBuffer.PasswdAt>, o: Outcome<NssBuffer.Passwd>)
  {
    a.status == o.status && (o.entry.Some? ==> ShowsPasswd(a, o.entry.value))
  }

  /** One call of a run, with a buffer of its own. */
  method PerformPasswd(e: Enumeration<NssBuffer.Passwd>, c: Call) returns (a: Answer<NssBuffer.PasswdAt>)
    requires e.Valid()
    modifies e
    ensures e.Valid() && e.Here() == Step(e.batches, old(e.Here()), PasswdOp(c)).place
    ensures AnswersPasswd(a, Step(e.batches, old(e.Here()), PasswdOp(c)))
  {
    var status;
    var at := NssBuffer.PasswdAt(0, 0, 0, 0, 0, 0, 0);
    match c {
      case SetEnt(net) =>
        status := e.SetEnt(net);
        return Answer(status, at, [], map[]);
      case EndEnt(net) =>
        status := e.EndEnt(net);
        return Answer(status, at, [], map[]);
      case GetEnt(net, base, size) =>
        var mem := new char[size];
        var arena := new NssBuffer.Arena(mem, base, size);
        status, at := GetPwEnt(e, net, arena);
        return Answer(status, at, mem[..], arena.pointers);
    }
  }

  function Statuses<A>(answers: seq<Answer<A>>): seq<Status>
  {
    seq(|answers|, i requires 0 <= i < |answers| => answers[i].status)
  }

  ghost predicate AllPasswd(batches: seq<seq<NssBuffer.Passwd>>, p: Place<NssBuffer.Passwd>, calls: seq<Call>,
                            answers: seq<Answer<NssBuffer.PasswdAt>>)
    requires p.Valid(batches) && |answers| <= |calls|
  {
    forall k {:trigger AnswersPasswd(answers[k], At(batches, p, PasswdOps(calls), k))} :: 0 <= k < |answers| ==>
      AnswersPasswd(answers[k], At(batches, p, PasswdOps(calls), k))
  }

  lemma AllPasswdNext(batches: seq<seq<NssBuffer.Passwd>>, p: Place<NssBuffer.Passwd>, calls: seq<Call>,
                      answers: seq<Answer<NssBuffer.PasswdAt>>, a: Answer<NssBuffer.PasswdAt>)
    requires p.Valid(batches) && |answers| < |calls|
    ensures (&& AllPasswd(batches, p, calls, answers)
             && AnswersPasswd(a, At(batches, p, PasswdOps(calls), |answers|))) ==>
      AllPasswd(batches, p, calls, answers + [a])
  {
  }

  /** The answer to a call after `n` of all users have been given. */
  predicate SeenPasswd(all: seq<NssBuffer.Passwd>, n: nat, c: Call, a: Answer<NssBuffer.PasswdAt>)
  {
    && n <= |all| && c.GetEnt?
    && if n == |all| then a.status == NotFound
       else if PasswdFits(c.size)(all[n]) then a.status == Success && ShowsPasswd(a, all[n])
       else a.status == TryAgain
  }

  lemma PasswdLogged(batches: seq<seq<NssBuffer.Passwd>>, p: Place<NssBuffer.Passwd>, calls: seq<Call>,
                     answers: seq<Answer<NssBuffer.PasswdAt>>)
    requires p.Valid(batches) && |answers| <= |calls| && AllPasswd(batches, p, calls, answers)
    ensures Logged(batches, p, PasswdOps(calls), Statuses(answers))
  {
    forall i | 0 <= i < |answers|
      ensures answers[i].status == At(batches, p, PasswdOps(calls), i).status
    {
      assert AnswersPasswd(answers[i], At(batches, p, PasswdOps(calls), i));
    }
  }

  lemma PasswdSeen(batches: seq<seq<NssBuffer.Passwd>>, p: Place<NssBuffer.Passwd>, calls: seq<Call>,
                   answers: seq<Answer<NssBuffer.PasswdAt>>, k: nat)
    requires p.Valid(batches) && !p.calledAgain && [] !in batches
    requires k < |answers| == |calls| && AllPasswd(batches, p, calls, answers)
    requires Walking(PasswdOps(calls), Statuses(answers), k)
    ensures SeenPasswd(Concat(batches), CountSince(PasswdOps(calls), Statuses(answers), k), calls[k], answers[k])
  {
    PasswdLogged(batches, p, calls, answers);
    WalksOn(batches, p, PasswdOps(calls), Statuses(answers), k);
    assert AnswersPasswd(answers[k], At(batches, p, PasswdOps(calls), k));
  }

  /** All users are shown, as far as a run asks for them. */
  ghost predicate PasswdWalked(batches: seq<seq<NssBuffer.Passwd>>, calls: seq<Call>,
                               answers: seq<Answer<NssBuffer.PasswdAt>>)
    requires |answers| == |calls|
  {
    forall k {:trigger Walking(PasswdOps(calls), Statuses(answers), k)} ::
      0 <= k < |calls| && Walking(PasswdOps(calls), Statuses(answers), k) ==>
        SeenPasswd(Concat(batches), CountSince(PasswdOps(calls), Statuses(answers), k), calls[k], answers[k])
  }

  lemma AllPasswdSeen(batches: seq<seq<NssBuffer.Passwd>>, p: Place<NssBuffer.Passwd>, calls: seq<Call>,
                      answers: seq<Answer<NssBuffer.PasswdAt>>)
    requires p.Valid(batches) && !p.calledAgain && [] !in batches
    requires |answers| == |calls| && AllPasswd(batches, p, calls, answers)
    ensures PasswdWalked(batches, calls, answers)
  {
    forall k | 0 <= k < |calls| && Walking(PasswdOps(calls), Statuses(answers), k)
      ensures SeenPasswd(Concat(batches), CountSince(PasswdOps(calls), Statuses(answers), k), calls[k], answers[k])
    {
      PasswdSeen(batches, p, calls, answers, k);
    }
  }

  /** The first calls of a run from `p` have been answered. */
  ghost predicate PasswdRan(e: Enumeration<NssBuffer.Passwd>, p: Place<NssBuffer.Passwd>, calls: seq<Call>,
                            answers: seq<Answer<NssBuffer.PasswdAt>>)
    reads e
  {
    && e.Valid() && p.Valid(e.batches) && |answers| <= |calls|
    && e.Here() == After(e.batches, p, PasswdOps(calls), |answers|)
    && AllPasswd(e.batches, p, calls, answers)
  }

  /** One more call of a run. */
  method NextPasswd(e: Enumeration<NssBuffer.Passwd>, c: Call, ghost p: Place<NssBuffer.Passwd>, ghost calls: seq<Call>,
                    ghost answers: seq<Answer<NssBuffer.PasswdAt>>)
    returns (a: Answer<NssBuffer.PasswdAt>)
    requires PasswdRan(e, p, calls, answers) && |answers| < |calls| && c == calls[|answers|]
    modifies e
    ensures PasswdRan(e, p, calls, answers + [a])
  {
    a := PerformPasswd(e, c);
    AllPasswdNext(e.batches, p, calls, answers, a);
  }

  /** Call after call. */
  method PerformPasswds(e: Enumeration<NssBuffer.Passwd>, calls: seq<Call>)
    returns (answers: seq<Answer<NssBuffer.PasswdAt>>)
    requires e.Valid()
    modifies e
    ensures |answers| == |calls| && PasswdRan(e, old(e.Here()), calls, answers)
  {
    answers := [];
    ghost var p := e.Here();
    for n := 0 to |calls|
      invariant |answers| == n && PasswdRan(e, p, calls, answers)
    {
      var a := NextPasswd(e, calls[n], p, calls, answers);
      answers := answers + [a];
    }
  }

  /** Every run of setpwent, endpwent and getpwent_r, with buffers of any sizes and
      whatever becomes of the connection: each call answers as the walk through the
      batches says, with the entry laid out in its buffer.  After a set, and as long as the
      connection lasts and no retry is broken, the successful answers show all users of the
      database, one after the other, and the end is reported after the last. */
  method RunPasswd(e: Enumeration<NssBuffer.Passwd>, calls: seq<Call>)
    returns (answers: seq<Answer<NssBuffer.PasswdAt>>)
    requires e.Valid()
    modifies e
    ensures e.Valid() && |answers| == |calls|
    ensures e.Here() == After(e.batches, old(e.Here()), PasswdOps(calls), |calls|)
    ensures AllPasswd(e.batches, old(e.Here()), calls, answers)
    ensures Logged(e.batches, old(e.Here()), PasswdOps(calls), Statuses(answers))
    ensures !old(e.calledAgain) && [] !in e.batches ==> PasswdWalked(e.batches, calls, answers)
  {
    ghost var p := e.Here();
    answers := PerformPasswds(e, calls);
    PasswdLogged(e.batches, p, calls, answers);
    if !p.calledAgain && [] !in e.batches {
      AllPasswdSeen(e.batches, p, calls, answers);
    }
  }

  function GroupOp(c: Call): Op<GroupEntry>
  {
    match c
    case SetEnt(net) => Set(net)
    case EndEnt(net) => End(net)
    case GetEnt(net, base, size) => Get(net, GroupFits(base, 0, size))
  }

  function GroupOps(calls: seq<Call>): seq<Op<GroupEntry>>
  {
    seq(|calls|, i requires 0 <= i < |calls| => GroupOp(calls[i]))
  }

  /** The buffer at address `base` holds the group's strings and its member array: a
      pointer to each name, on a pointer boundary, and a null pointer behind the last. */
  ghost predicate ShowsGroup(a: Answer<NssBuffer.GroupAt>, g: GroupEntry, base: nat)
  {
    && NssBuffer.GroupReads(a.mem, a.pointers, a.at, g.gr, g.Names())
    && a.at == GroupPlaced(g.gr, base, 0)
    && NssBuffer.HeadOf("", g.gr) <= a.mem
    && ShowsMembers(a, g.Names(), base, NssBuffer.NamesAt(g.gr, g.gr.numMembers, base, 0))
  }

  predicate ShowsMembers(a: Answer<NssBuffer.GroupAt>, names: seq<string>, base: nat, first: nat)
  {
    && (base + a.at.members) % NssBuffer.POINTER_SIZE == 0
    && NssBuffer.Slot(a.at.members, |names| + 1) <= first
    && first + |NssBuffer.CStrings(names)| <= |a.mem|
    && a.mem[first..first + |NssBuffer.CStrings(names)|] == NssBuffer.CStrings(names)
    && PointsTo(a.pointers, a.at.members, first, names)
  }

  predicate PointsTo(pointers: map<nat, Option<nat>>, array0: nat, first: nat, names: seq<string>)
  {
    && (forall j {:trigger NssBuffer.Slot(array0, j)} :: 0 <= j < |names| ==>
         NssBuffer.Slot(array0, j) in pointers
         && pointers[NssBuffer.Slot(array0, j)] == Some(first + |NssBuffer.CStrings(names[..j])|))
    && NssBuffer.Slot(array0, |names|) in pointers && pointers[NssBuffer.Slot(array0, |names|)] == None
  }

  ghost predicate AnswersGroup(a: Answer<NssBuffer.GroupAt>, o: Outcome<GroupEntry>, c: Call)
  {
    && a.status == o.status
    && (o.entry.Some? && c.GetEnt? ==> ShowsGroup(a, o.entry.value, c.base))
  }

  /** The groups that fit are those that fit into the buffer. */
  ghost predicate FitsIn(fits: GroupEntry -> bool, base: nat, size: nat)
  {
    forall g {:trigger NssBuffer.GroupNeed(g.gr, Some(g.members), base, 0)} ::
      fits(g) <==> NssBuffer.GroupNeed(g.gr, Some(g.members), base, 0) <= size
  }

  ghost predicate IsGroupOp(op: Op<GroupEntry>, c: Call)
  {
    match c
    case SetEnt(net) => op == Set(net)
    case EndEnt(net) => op == End(net)
    case GetEnt(net, base, size) => op.Get? && op.net == net && FitsIn(op.fits, base, size)
  }

  ghost predicate AreGroupOps(ops: seq<Op<GroupEntry>>, calls: seq<Call>)
  {
    && |ops| == |calls|
    && forall k {:trigger IsGroupOp(ops[k], calls[k])} :: 0 <= k < |ops| ==> IsGroupOp(ops[k], calls[k])
  }

  lemma SameFits<E>(batches: seq<seq<E>>, p: Place<E>, net: Net, fits: E -> bool, fits': E -> bool)
    requires p.Valid(batches) && (FetchStatus(batches, p, net) == Success ==>
      var f := Fetched(batches, p, net); fits(f.cache.value[f.ndx]) == fits'(f.cache.value[f.ndx]))
    ensures Called(batches, p, net, fits) == Called(batches, p, net, fits')
  {
  }

  lemma LaidIsShown(arena: NssBuffer.Arena, at: NssBuffer.GroupAt, names: seq<string>, first: nat)
    requires first <= arena.mem.Length && arena.MembersLaid(at.members, first, names, arena.mem[..first])
    ensures ShowsMembers(Answer(Success, at, arena.mem[..], arena.pointers), names, arena.base, first)
  {
    assert arena.mem[..][first..arena.next] == arena.mem[first..arena.next];
    assert forall j {:trigger NssBuffer.Slot(at.members, j)} :: 0 <= j < |names| ==>
      NssBuffer.Slot(at.members, j) in arena.pointers;
  }

  method GetGroup(e: Enumeration<GroupEntry>, net: Net, base: nat, size: nat) returns (a: Answer<NssBuffer.GroupAt>)
    requires e.Valid() && HonestBatches(e.batches)
    modifies e
    ensures var o := Called(e.batches, old(e.Here()), net, GroupFits(base, 0, size));
      && e.Valid() && e.Here() == o.place && a.status == o.status
      && (o.entry.Some? ==> ShowsGroup(a, o.entry.value, base))
  {
    var mem := new char[size];
    var arena := new NssBuffer.Arena(mem, base, size);
    ghost var p := e.Here();
    var status, at := GetGrEnt(e, net, arena);
    a := Answer(status, at, mem[..], arena.pointers);
    if status == Success {
      ghost var g := Called(e.batches, p, net, GroupFits(base, 0, size)).entry.value;
      LaidIsShown(arena, at, g.Names(), NssBuffer.NamesAt(g.gr, g.gr.numMembers, base, 0));
    }
  }

  /** One call of a run, with a buffer of its own. */
  method PerformGroup(e: Enumeration<GroupEntry>, c: Call, ghost op: Op<GroupEntry>)
    returns (a: Answer<NssBuffer.GroupAt>)
    requires e.Valid() && HonestBatches(e.batches) && IsGroupOp(op, c)
    modifies e
    ensures e.Valid() && e.Here() == Step(e.batches, old(e.Here()), op).place
    ensures AnswersGroup(a, Step(e.batches, old(e.Here()), op), c)
  {
    var status;
    match c {
      case SetEnt(net) =>
        status := e.SetEnt(net);
        return Answer(status, NssBuffer.GroupAt(0, 0, 0, 0), [], map[]);
      case EndEnt(net) =>
        status := e.EndEnt(net);
        return Answer(status, NssBuffer.GroupAt(0, 0, 0, 0), [], map[]);
      case GetEnt(net, base, size) =>
        ghost var p := e.Here();
        a := GetGroup(e, net, base, size);
        SameFits(e.batches, p, net, GroupFits(base, 0, size), op.fits);
    }
  }

  ghost predicate AllGroups(batches: seq<seq<GroupEntry>>, p: Place<GroupEntry>, ops: seq<Op<GroupEntry>>,
                            calls: seq<Call>, answers: seq<Answer<NssBuffer.GroupAt>>)
    requires p.Valid(batches) && |answers| <= |calls| == |ops|
  {
    forall k {:trigger AnswersGroup(answers[k], At(batches, p, ops, k), calls[k])} :: 0 <= k < |answers| ==>
      AnswersGroup(answers[k], At(batches, p, ops, k), calls[k])
  }

  lemma AllGroupsNext(batches: seq<seq<GroupEntry>>, p: Place<GroupEntry>, ops: seq<Op<GroupEntry>>, calls: seq<Call>,
                      answers: seq<Answer<NssBuffer.GroupAt>>, a: Answer<NssBuffer.GroupAt>)
    requires p.Valid(batches) && |answers| < |calls| == |ops|
    ensures (&& AllGroups(batches, p, ops, calls, answers)
             && AnswersGroup(a, At(batches, p, ops, |answers|), calls[|answers|])) ==>
      AllGroups(batches, p, ops, calls, answers + [a])
  {
  }

  lemma GroupLogged(batches: seq<seq<GroupEntry>>, p: Place<GroupEntry>, ops: seq<Op<GroupEntry>>, calls: seq<Call>,
                    answers: seq<Answer<NssBuffer.GroupAt>>)
    requires p.Valid(batches) && |answers| <= |calls| == |ops| && AllGroups(batches, p, ops, calls, answers)
    ensures Logged(batches, p, ops, Statuses(answers))
  {
    forall i | 0 <= i < |answers|
      ensures answers[i].status == At(batches, p, ops, i).status
    {
      assert AnswersGroup(answers[i], At(batches, p, ops, i), calls[i]);
    }
  }

  /** The first calls of a run from `p` have been answered. */
  ghost predicate GroupsRan(e: Enumeration<GroupEntry>, p: Place<GroupEntry>, ops: seq<Op<GroupEntry>>,
                            calls: seq<Call>, answers: seq<Answer<NssBuffer.GroupAt>>)
    reads e
  {
    && e.Valid() && p.Valid(e.batches) && |answers| <= |calls| == |ops|
    && e.Here() == After(e.batches, p, ops, |answers|)
    && AllGroups(e.batches, p, ops, calls, answers)
  }

  /** One more call of a run. */
  method NextGroup(e: Enumeration<GroupEntry>, c: Call, ghost p: Place<GroupEntry>, ghost ops: seq<Op<GroupEntry>>,
                   ghost calls: seq<Call>, ghost answers: seq<Answer<NssBuffer.GroupAt>>)
    returns (a: Answer<NssBuffer.GroupAt>)
    requires GroupsRan(e, p, ops, calls, answers) && |answers| < |calls| && c == calls[|answers|]
    requires HonestBatches(e.batches) && IsGroupOp(ops[|answers|], c)
    modifies e
    ensures GroupsRan(e, p, ops, calls, answers + [a])
  {
    a := PerformGroup(e, c, ops[|answers|]);
    AllGroupsNext(e.batches, p, ops, calls, answers, a);
  }

  /** Call after call. */
  method PerformGroups(e: Enumeration<GroupEntry>, calls: seq<Call>, ghost ops: seq<Op<GroupEntry>>)
    returns (answers: seq<Answer<NssBuffer.GroupAt>>)
    requires e.Valid() && HonestBatches(e.batches) && AreGroupOps(ops, calls)
    modifies e
    ensures |answers| == |calls| && GroupsRan(e, old(e.Here()), ops, calls, answers)
  {
    answers := [];
    ghost var p := e.Here();
    for n := 0 to |calls|
      invariant |answers| == n && GroupsRan(e, p, ops, calls, answers)
    {
      assert IsGroupOp(ops[n], calls[n]);
      var a := NextGroup(e, calls[n], p, ops, calls, answers);
      answers := answers + [a];
    }
  }

  /** The answer to a call after `n` of all groups have been given. */
  ghost predicate SeenGroup(all: seq<GroupEntry>, n: nat, c: Call, a: Answer<NssBuffer.GroupAt>)
  {
    && n <= |all| && c.GetEnt?
    && if n == |all| then a.status == NotFound
       else if NssBuffer.GroupNeed(all[n].gr, Some(all[n].members), c.base, 0) <= c.size then
         a.status == Success && ShowsGroup(a, all[n], c.base)
       else a.status == TryAgain
  }

  lemma GroupSeen(batches: seq<seq<GroupEntry>>, p: Place<GroupEntry>, ops: seq<Op<GroupEntry>>, calls: seq<Call>,
                  answers: seq<Answer<NssBuffer.GroupAt>>, k: nat)
    requires p.Valid(batches) && !p.calledAgain && [] !in batches
    requires k < |answers| == |calls| == |ops| && AllGroups(batches, p, ops, calls, answers)
    requires IsGroupOp(ops[k], calls[k]) && Walking(ops, Statuses(answers), k)
    ensures SeenGroup(Concat(batches), CountSince(ops, Statuses(answers), k), calls[k], answers[k])
  {
    GroupLogged(batches, p, ops, calls, answers);
    WalksOn(batches, p, ops, Statuses(answers), k);
    assert AnswersGroup(answers[k], At(batches, p, ops, k), calls[k]);
  }

  /** All groups are shown, as far as a run asks for them. */
  ghost predicate GroupsWalked(batches: seq<seq<GroupEntry>>, ops: seq<Op<GroupEntry>>, calls: seq<Call>,
                               answers: seq<Answer<NssBuffer.GroupAt>>)
    requires |answers| == |calls| == |ops|
  {
    forall k {:trigger Walking(ops, Statuses(answers), k)} ::
      0 <= k < |calls| && Walking(ops, Statuses(answers), k) ==>
        SeenGroup(Concat(batches), CountSince(ops, Statuses(answers), k), calls[k], answers[k])
  }

  lemma AllGroupsSeen(batches: seq<seq<GroupEntry>>, p: Place<GroupEntry>, ops: seq<Op<GroupEntry>>, calls: seq<Call>,
                      answers: seq<Answer<NssBuffer.GroupAt>>)
    requires p.Valid(batches) && !p.calledAgain && [] !in batches && AreGroupOps(ops, calls)
    requires |answers| == |calls| && AllGroups(batches, p, ops, calls, answers)
    ensures GroupsWalked(batches, ops, calls, answers)
  {
    forall k | 0 <= k < |calls| && Walking(ops, Statuses(answers), k)
      ensures SeenGroup(Concat(batches), CountSince(ops, Statuses(answers), k), calls[k], answers[k])
    {
      assert IsGroupOp(ops[k], calls[k]);
      GroupSeen(batches, p, ops, calls, answers, k);
    }
  }

  lemma GroupOpsAre(calls: seq<Call>)
    ensures AreGroupOps(GroupOps(calls), calls)
  {
    forall k | 0 <= k < |calls| ensures IsGroupOp(GroupOps(calls)[k], calls[k]) {
      assert GroupOps(calls)[k] == GroupOp(calls[k]);
    }
  }

  /** What a run of calls shows, all in all. */
  ghost predicate GroupsTold(e: Enumeration<GroupEntry>, p: Place<GroupEntry>, ops: seq<Op<GroupEntry>>,
                             calls: seq<Call>, answers: seq<Answer<NssBuffer.GroupAt>>)
    reads e
  {
    && |answers| == |calls| == |ops| && GroupsRan(e, p, ops, calls, answers)
    && Logged(e.batches, p, ops, Statuses(answers))
    && (!p.calledAgain && [] !in e.batches ==> GroupsWalked(e.batches, ops, calls, answers))
  }

  lemma TellGroups(e: Enumeration<GroupEntry>, p: Place<GroupEntry>, ops: seq<Op<GroupEntry>>, calls: seq<Call>,
                   answers: seq<Answer<NssBuffer.GroupAt>>)
    requires |answers| == |calls| && GroupsRan(e, p, ops, calls, answers) && AreGroupOps(ops, calls)
    ensures GroupsTold(e, p, ops, calls, answers)
  {
    GroupLogged(e.batches, p, ops, calls, answers);
    if !p.calledAgain && [] !in e.batches {
      AllGroupsSeen(e.batches, p, ops, calls, answers);
    }
  }

  /** Every run of setgrent, endgrent and getgrent_r, as for users. */
  method RunGroups(e: Enumeration<GroupEntry>, calls: seq<Call>) returns (answers: seq<Answer<NssBuffer.GroupAt>>)
    requires e.Valid() && HonestBatches(e.batches)
    modifies e
    ensures GroupsTold(e, old(e.Here()), GroupOps(calls), calls, answers)
  {
    ghost var p, ops := e.Here(), GroupOps(calls);
    GroupOpsAre(calls);
    answers := PerformGroups(e, calls, ops);
    TellGroups(e, p, ops, calls, answers);
  }
}
