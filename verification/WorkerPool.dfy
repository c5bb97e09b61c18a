/**
 * Admission to the worker pool: threads reserve a place with a compare-exchange loop, workers free it when they
 * start the task. Every atomic action is one step; threads interleave freely and loads may return stale values.
 */
module WorkerPool {
  import opened Common

  type ThreadId = int

  /** Where a thread is inside `post`. */
  datatype Poster =
    | Comparing(expected: nat)
    | Posting(reserved: bool)

  datatype Pool = Pool(
    limit: Option<nat>,
    counter: int,
    posters: map<ThreadId, Poster>,
    waiting: nat,
    started: nat,
    accepted: nat)

  function Fresh(limit: Option<nat>): Pool {
    Pool(limit, 0, map[], 0, 0, 0)
  }

  datatype Event =
    | Enter(t: ThreadId, loaded: nat)
    | GiveUp(t: ThreadId)
    | CompareFails(t: ThreadId, loaded: nat)
    | CompareSucceeds(t: ThreadId)
    | PostReturns(t: ThreadId)
    | PostThrows(t: ThreadId)
    | TaskStarts

  predicate Enabled(p: Pool, e: Event) {
    match e
    case Enter(t, _) => t !in p.posters
    case GiveUp(t) =>
      t in p.posters && p.posters[t].Comparing? && p.limit.Some? && p.posters[t].expected >= p.limit.value
    case CompareFails(t, _) =>
      t in p.posters && p.posters[t].Comparing? && p.limit.Some? && p.posters[t].expected < p.limit.value
    case CompareSucceeds(t) =>
      && t in p.posters && p.posters[t].Comparing? && p.limit.Some? && p.posters[t].expected < p.limit.value
      && p.counter == p.posters[t].expected
    case PostReturns(t) => t in p.posters && p.posters[t].Posting?
    case PostThrows(t) => t in p.posters && p.posters[t].Posting?
    case TaskStarts => p.waiting > 0
  }

  function Next(p: Pool, e: Event): Pool
    requires Enabled(p, e)
  {
    match e
    case Enter(t, loaded) =>
      p.(posters := p.posters[t := if p.limit.Some? then Comparing(loaded) else Posting(false)])
    case GiveUp(t) => p.(posters := p.posters - {t})
    case CompareFails(t, loaded) => p.(posters := p.posters[t := Comparing(loaded)])
    case CompareSucceeds(t) => p.(counter := p.counter + 1, posters := p.posters[t := Posting(true)])
    case PostReturns(t) => p.(posters := p.posters - {t}, waiting := p.waiting + 1, accepted := p.accepted + 1)
    case PostThrows(t) =>
      p.(posters := p.posters - {t}, counter := if p.posters[t].reserved then p.counter - 1 else p.counter)
    case TaskStarts =>
      p.(waiting := p.waiting - 1, started := p.started + 1,
         counter := if p.limit.Some? then p.counter - 1 else p.counter)
  }

  predicate Legal(p: Pool, run: seq<Event>)
    decreases |run|
  {
    run == [] || (Enabled(p, run[0]) && Legal(Next(p, run[0]), run[1..]))
  }

  function Final(p: Pool, run: seq<Event>): Pool
    requires Legal(p, run)
    decreases |run|
  {
    if run == [] then p else Final(Next(p, run[0]), run[1..])
  }

  // ---- the invariant ----

  /** Threads that hold a reservation their task has not taken over yet. */
  function Reserving(p: Pool): set<ThreadId> {
    set t | t in p.posters && p.posters[t].Posting? && p.posters[t].reserved
  }

  /** The counter is the number of reserved places whose task has not started, and stays within the limit. */
  ghost predicate PoolInv(p: Pool) {
    && (p.limit.Some? ==> p.counter == |Reserving(p)| + p.waiting && p.counter <= p.limit.value)
    && (p.limit.None? ==> p.counter == 0)
    && (forall t | t in p.posters && p.posters[t].Posting? :: p.posters[t].reserved <==> p.limit.Some?)
    && p.accepted == p.waiting + p.started
  }

  lemma SameReservations(p: Pool, q: Pool)
    requires forall t :: t in Reserving(p) <==> t in Reserving(q)
    ensures |Reserving(p)| == |Reserving(q)|
  {
    var a, b := Reserving(p), Reserving(q);
    assert forall t :: t in a <==> t in b;
    assert a == b;
  }

  lemma OneMoreReservation(p: Pool, q: Pool, t: ThreadId)
    requires t !in Reserving(p) && t in Reserving(q)
    requires forall x | x != t :: x in Reserving(p) <==> x in Reserving(q)
    ensures |Reserving(q)| == |Reserving(p)| + 1
  {
    var a, b := Reserving(p) + {t}, Reserving(q);
    forall x ensures x in a <==> x in b {
      assert x != t ==> (x in Reserving(p) <==> x in Reserving(q));
    }
    assert a == b;
  }

  lemma NobodyReserves(p: Pool)
    requires p.posters == map[]
    ensures Reserving(p) == {}
  {
    forall t ensures t !in Reserving(p) {}
  }

  lemma NextHolds(p: Pool, e: Event)
    requires PoolInv(p) && Enabled(p, e)
    ensures PoolInv(Next(p, e))
    ensures Next(p, e).counter >= 0
  {
    var q := Next(p, e);
    match e
    case Enter(_, _) => SameReservations(p, q);
    case GiveUp(_) => SameReservations(p, q);
    case CompareFails(_, _) => SameReservations(p, q);
    case CompareSucceeds(t) => OneMoreReservation(p, q, t);
    case PostReturns(t) => PostEnds(p, q, t);
    case PostThrows(t) => PostEnds(p, q, t);
    case TaskStarts => SameReservations(p, q);
  }

  /** A thread leaving `post` gives up its reservation, to its task or altogether. */
  lemma PostEnds(p: Pool, q: Pool, t: ThreadId)
    requires PoolInv(p) && t in p.posters && p.posters[t].Posting? && q.posters == p.posters - {t}
    ensures |Reserving(q)| == |Reserving(p)| - (if p.limit.Some? then 1 else 0)
  {
    if p.limit.Some? {
      OneMoreReservation(q, p, t);
    } else {
      SameReservations(p, q);
    }
  }

  /**
   * Under every interleaving the counter equals the reserved places not yet started, never exceeds the limit
   * and never goes below zero, so no `fetch_sub` wraps around; every accepted task waits or has started.
   */
  lemma {:induction false} RunHolds(p: Pool, run: seq<Event>)
    requires PoolInv(p) && Legal(p, run)
    ensures PoolInv(Final(p, run)) && Final(p, run).counter >= 0 && Final(p, run).limit == p.limit
    decreases |run|
  {
    if run != [] {
      NextHolds(p, run[0]);
      RunHolds(Next(p, run[0]), run[1..]);
    }
  }

  /** When no thread is inside `post`, the counter is exactly the number of waiting tasks. */
  lemma QuietCounterIsWaiting(limit: nat, run: seq<Event>)
    requires Legal(Fresh(Some(limit)), run) && Final(Fresh(Some(limit)), run).posters == map[]
    ensures
      var p := Final(Fresh(Some(limit)), run);
      p.counter == p.waiting && p.waiting <= limit
  {
    var p := Fresh(Some(limit));
    NobodyReserves(p);
    RunHolds(p, run);
    NobodyReserves(Final(p, run));
  }

  /**
   * A thread in the compare-exchange loop always has a step: it gives up exactly when the value it read is at the
   * limit, and otherwise tries, which succeeds if that value is still current.
   */
  lemma PosterMoves(p: Pool, t: ThreadId, loaded: nat)
    requires p.limit.Some? && t in p.posters && p.posters[t].Comparing?
    ensures Enabled(p, GiveUp(t)) <==> p.posters[t].expected >= p.limit.value
    ensures Enabled(p, CompareFails(t, loaded)) <==> !Enabled(p, GiveUp(t))
    ensures Enabled(p, CompareSucceeds(t)) <==> !Enabled(p, GiveUp(t)) && p.counter == p.posters[t].expected
  {
  }

  // ---- the object ----

  /** The atomic actions on the shared counter; the ghost fields follow the threads and the tasks. */
  class Counter {
    const limit: Option<nat>
    var count: int
    ghost var posters: map<ThreadId, Poster>
    ghost var waiting: nat
    ghost var started: nat
    ghost var accepted: nat

    ghost function View(): Pool
      reads this
    {
      Pool(limit, count, posters, waiting, started, accepted)
    }

    constructor (limit: Option<nat>)
      ensures View() == Fresh(limit) && PoolInv(View())
    {
      this.limit, count, posters, waiting, started, accepted := limit, 0, map[], 0, 0, 0;
      new;
      NobodyReserves(View());
    }

    /** One round of the compare-exchange loop; `spurious` is the weak exchange failing for no reason. */
    method TryReserve(t: ThreadId, expected: nat, spurious: bool, reloaded: nat) returns (reserved: bool)
      requires PoolInv(View()) && t in posters && posters[t] == Comparing(expected)
      requires limit.Some? && expected < limit.value
      modifies this
      ensures reserved <==> !spurious && old(count) == expected
      ensures View() == Next(old(View()), if reserved then CompareSucceeds(t) else CompareFails(t, reloaded))
      ensures PoolInv(View())
    {
      reserved := !spurious && count == expected;
      NextHolds(View(), if reserved then CompareSucceeds(t) else CompareFails(t, reloaded));
      if reserved {
        count := expected + 1;
        posters := posters[t := Posting(true)];
      } else {
        posters := posters[t := Comparing(reloaded)];
      }
    }

    /** Handing the task to the threads, or undoing the reservation when that throws. */
    method Submit(t: ThreadId, throws: bool)
      requires PoolInv(View()) && t in posters && posters[t].Posting?
      modifies this
      ensures View() == Next(old(View()), if throws then PostThrows(t) else PostReturns(t))
      ensures PoolInv(View()) && count >= 0
    {
      NextHolds(View(), if throws then PostThrows(t) else PostReturns(t));
      if throws {
        if limit.Some? {
          count := count - 1;
        }
      } else {
        waiting, accepted := waiting + 1, accepted + 1;
      }
      posters := posters - {t};
    }

    /** The first action of every wrapped task. */
    method BeginTask()
      requires PoolInv(View()) && waiting > 0
      modifies this
      ensures View() == Next(old(View()), TaskStarts)
      ensures PoolInv(View()) && count >= 0
    {
      NextHolds(View(), TaskStarts);
      if limit.Some? {
        count := count - 1;
      }
      waiting, started := waiting - 1, started + 1;
    }
  }
}
