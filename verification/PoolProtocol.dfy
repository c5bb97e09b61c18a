/**
 * The connection pool as a machine of atomic steps. A thread inside `acquire` takes a slot under the mutex,
 * reconnects without it, and then makes a lease or gives the slot back; other threads and the owners of leases
 * act at any point in between.
 */
module PoolProtocol {
  import opened FiniteSets

  type ThreadId = int

  /** Who answers for a slot in use: the thread still acquiring it, or the live lease. */
  datatype Owner<L> = Acquirer(t: ThreadId) | Lessee(l: L)

  datatype Pool<L(==)> = Pool(inUse: seq<bool>, free: seq<nat>, holds: map<Owner<L>, nat>)

  ghost function Fresh<L>(size: nat): Pool<L> {
    Pool(seq(size, i => false), seq(size, i requires 0 <= i < size => i), map[])
  }

  // ---- the two critical sections ----

  /** `acquire_slot_index`, once a slot is free: the front slot, now in use. */
  ghost function TakeSlot<L>(p: Pool<L>, o: Owner<L>): Pool<L>
    requires p.free != []
  {
    var slot := p.free[0];
    Pool(if slot < |p.inUse| then p.inUse[slot := true] else p.inUse, p.free[1..], p.holds[o := slot])
  }

  /** `release_slot_index`, with its guard: a slot that is not in use is left alone. */
  ghost function GiveSlot<L>(p: Pool<L>, o: Owner<L>): Pool<L>
    requires o in p.holds
  {
    var slot := p.holds[o];
    if slot >= |p.inUse| || !p.inUse[slot] then p.(holds := p.holds - {o})
    else Pool(p.inUse[slot := false], p.free + [slot], p.holds - {o})
  }

  /** The slot passes from one owner to another outside the mutex. */
  ghost function PassSlot<L>(p: Pool<L>, from: Owner<L>, to: Owner<L>): Pool<L>
    requires from in p.holds
  {
    p.(holds := (p.holds - {from})[to := p.holds[from]])
  }

  // ---- steps ----

  datatype Event<L> =
    | Take(t: ThreadId)
    | TimeOut(t: ThreadId)
    | ReconnectFails(t: ThreadId)
    | MakeLease(t: ThreadId, lease: L)
    | Release(lease: L)
    | Move(from: L, to: L)

  /**
   * A thread acquires one slot at a time and times out only while none is free. A lease is made as a new object.
   * Assigning to a live lease is its release followed by a move; destroying one is its release.
   */
  ghost predicate Enabled<L>(p: Pool<L>, e: Event<L>) {
    match e
    case Take(t) => p.free != [] && Acquirer(t) !in p.holds
    case TimeOut(t) => p.free == [] && Acquirer(t) !in p.holds
    case ReconnectFails(t) => Acquirer(t) in p.holds
    case MakeLease(t, l) => Acquirer(t) in p.holds && Lessee(l) !in p.holds
    case Release(_) => true
    case Move(from, to) => from != to && Lessee(to) !in p.holds
  }

  ghost function Next<L>(p: Pool<L>, e: Event<L>): Pool<L>
    requires Enabled(p, e)
  {
    match e
    case Take(t) => TakeSlot(p, Acquirer(t))
    case TimeOut(_) => p
    case ReconnectFails(t) => GiveSlot(p, Acquirer(t))
    case MakeLease(t, l) => PassSlot(p, Acquirer(t), Lessee(l))
    case Release(l) => if Lessee(l) in p.holds then GiveSlot(p, Lessee(l)) else p
    case Move(from, to) => if Lessee(from) in p.holds then PassSlot(p, Lessee(from), Lessee(to)) else p
  }

  ghost predicate Legal<L>(p: Pool<L>, run: seq<Event<L>>)
    decreases |run|
  {
    run == [] || (Enabled(p, run[0]) && Legal(Next(p, run[0]), run[1..]))
  }

  ghost function Final<L>(p: Pool<L>, run: seq<Event<L>>): Pool<L>
    requires Legal(p, run)
    decreases |run|
  {
    if run == [] then p else Final(Next(p, run[0]), run[1..])
  }

  // ---- the invariant ----

  ghost predicate FreeSound<L>(p: Pool<L>) {
    Distinct(p.free) && forall i: nat :: i in p.free <==> i < |p.inUse| && !p.inUse[i]
  }

  ghost predicate OwnersInUse<L>(p: Pool<L>) {
    forall o | o in p.holds :: p.holds[o] < |p.inUse| && p.inUse[p.holds[o]]
  }

  ghost predicate OwnersDistinct<L>(p: Pool<L>) {
    forall a, b | a in p.holds && b in p.holds && p.holds[a] == p.holds[b] :: a == b
  }

  ghost predicate Owned<L>(p: Pool<L>, i: nat) {
    exists o :: o in p.holds && p.holds[o] == i
  }

  /** Every owner's slot is in use, no two owners have the same, and every slot in use has one. */
  ghost predicate OwnersSound<L>(p: Pool<L>) {
    OwnersInUse(p) && OwnersDistinct(p) && forall i: nat | i < |p.inUse| && p.inUse[i] :: Owned(p, i)
  }

  ghost predicate PoolInv<L>(p: Pool<L>) {
    FreeSound(p) && OwnersSound(p)
  }

  lemma FreshHolds<L>(size: nat)
    ensures PoolInv(Fresh<L>(size))
  {
    var p := Fresh<L>(size);
    forall i: nat ensures i in p.free <==> i < |p.inUse| && !p.inUse[i] {
      if i < size { assert p.free[i] == i; }
    }
  }

  lemma FrontTaken(free: seq<nat>)
    requires Distinct(free) && free != []
    ensures Distinct(free[1..]) && forall i: nat :: i in free[1..] <==> i in free && i != free[0]
  {
    forall i: nat ensures i in free[1..] <==> i in free && i != free[0] {
      if i in free && i != free[0] {
        var k :| 0 <= k < |free| && free[k] == i;
        assert free[1..][k - 1] == i;
      }
    }
  }

  lemma TakeHolds<L>(p: Pool<L>, o: Owner<L>)
    requires PoolInv(p) && p.free != [] && o !in p.holds
    ensures PoolInv(TakeSlot(p, o))
    ensures p.free[0] < |p.inUse| && !p.inUse[p.free[0]]
  {
    var slot, q := p.free[0], TakeSlot(p, o);
    assert slot in p.free;
    FrontTaken(p.free);
    TakeOwned(p, q, o, slot);
  }

  lemma TakeOwned<L>(p: Pool<L>, q: Pool<L>, o: Owner<L>, slot: nat)
    requires OwnersSound(p) && o !in p.holds && slot < |p.inUse| && !p.inUse[slot]
    requires q.inUse == p.inUse[slot := true] && q.holds == p.holds[o := slot]
    ensures OwnersSound(q)
  {
    forall i: nat | i < |q.inUse| && q.inUse[i] ensures Owned(q, i) {
      if i == slot {
        assert o in q.holds;
      } else {
        assert Owned(p, i);
        var x :| x in p.holds && p.holds[x] == i;
        assert x in q.holds && q.holds[x] == i;
      }
    }
  }

  /** The guard of the release never fires: an owner's slot is in use, and becomes free once. */
  lemma GiveHolds<L>(p: Pool<L>, o: Owner<L>)
    requires PoolInv(p) && o in p.holds
    ensures PoolInv(GiveSlot(p, o))
    ensures GiveSlot(p, o).free == p.free + [p.holds[o]] && p.holds[o] !in p.free
  {
    var slot, q := p.holds[o], GiveSlot(p, o);
    assert slot !in p.free;
    forall i: nat ensures i in q.free <==> i < |q.inUse| && !q.inUse[i] {
      assert i in q.free <==> i in p.free || i == slot;
    }
    forall i: nat | i < |q.inUse| && q.inUse[i] ensures Owned(q, i) {
      assert Owned(p, i);
      var x :| x in p.holds && p.holds[x] == i;
      assert x in q.holds && q.holds[x] == i;
    }
  }

  lemma PassHolds<L>(p: Pool<L>, from: Owner<L>, to: Owner<L>)
    requires PoolInv(p) && from in p.holds && to !in p.holds
    ensures PoolInv(PassSlot(p, from, to))
  {
    PassOwned(p, PassSlot(p, from, to), from, to);
  }

  lemma PassOwned<L>(p: Pool<L>, q: Pool<L>, from: Owner<L>, to: Owner<L>)
    requires OwnersSound(p) && from in p.holds && to !in p.holds
    requires q.inUse == p.inUse && q.holds == (p.holds - {from})[to := p.holds[from]]
    ensures OwnersSound(q)
  {
    PassDistinct(p, q, from, to);
    forall i: nat | i < |q.inUse| && q.inUse[i] ensures Owned(q, i) {
      assert Owned(p, i);
      var x :| x in p.holds && p.holds[x] == i;
      var y := if x == from then to else x;
      assert y in q.holds && q.holds[y] == i;
    }
  }

  lemma PassDistinct<L>(p: Pool<L>, q: Pool<L>, from: Owner<L>, to: Owner<L>)
    requires OwnersDistinct(p) && OwnersInUse(p) && from in p.holds && to !in p.holds
    requires q.inUse == p.inUse && q.holds == (p.holds - {from})[to := p.holds[from]]
    ensures OwnersDistinct(q) && OwnersInUse(q)
  {
    forall a, b | a in q.holds && b in q.holds && q.holds[a] == q.holds[b] ensures a == b {
      var x, y := if a == to then from else a, if b == to then from else b;
      assert x in p.holds && y in p.holds && p.holds[x] == p.holds[y];
    }
  }

  lemma NextHolds<L>(p: Pool<L>, e: Event<L>)
    requires PoolInv(p) && Enabled(p, e)
    ensures PoolInv(Next(p, e))
    ensures |Next(p, e).inUse| == |p.inUse|
  {
    match e
    case Take(t) => TakeHolds(p, Acquirer(t));
    case TimeOut(_) =>
    case ReconnectFails(t) => GiveHolds(p, Acquirer(t));
    case MakeLease(t, l) => PassHolds(p, Acquirer(t), Lessee(l));
    case Release(l) => if Lessee(l) in p.holds { GiveHolds(p, Lessee(l)); }
    case Move(from, to) => if Lessee(from) in p.holds { PassHolds(p, Lessee(from), Lessee(to)); }
  }

  lemma {:induction false} RunHolds<L>(p: Pool<L>, run: seq<Event<L>>)
    requires PoolInv(p) && Legal(p, run)
    ensures PoolInv(Final(p, run)) && |Final(p, run).inUse| == |p.inUse|
    decreases |run|
  {
    if run != [] {
      NextHolds(p, run[0]);
      RunHolds(Next(p, run[0]), run[1..]);
    }
  }

  // ---- what the invariant says ----

  ghost predicate Reachable<L(!new)>(p: Pool<L>, size: nat) {
    exists run :: Legal(Fresh(size), run) && Final(Fresh(size), run) == p
  }

  lemma ReachableHolds<L(!new)>(p: Pool<L>, size: nat)
    requires Reachable(p, size)
    ensures PoolInv(p) && |p.inUse| == size
  {
    var run :| Legal(Fresh(size), run) && Final(Fresh(size), run) == p;
    FreshHolds<L>(size);
    RunHolds(Fresh(size), run);
  }

  /**
   * Under every interleaving a slot is either free, once and with no owner, or in use with exactly one owner: no two
   * live leases share a slot, and none shares one with a thread that is still acquiring.
   */
  lemma SlotHasOnePlace<L(!new)>(p: Pool<L>, size: nat, slot: nat)
    requires Reachable(p, size) && slot < size
    ensures |p.inUse| == size
    ensures slot in p.free <==> !p.inUse[slot]
    ensures slot in p.free <==> !exists o :: o in p.holds && p.holds[o] == slot
    ensures multiset(p.free)[slot] <= 1
    ensures forall a, b | a in p.holds && b in p.holds && p.holds[a] == slot && p.holds[b] == slot :: a == b
  {
    ReachableHolds(p, size);
    DistinctOnce(p.free, slot);
    if !p.inUse[slot] {
      forall o | o in p.holds ensures p.holds[o] != slot {}
    }
  }

  lemma {:induction false} DistinctOnce(s: seq<nat>, x: nat)
    requires Distinct(s)
    ensures multiset(s)[x] <= 1
    decreases |s|
  {
    if s != [] {
      var n := |s| - 1;
      DistinctOnce(s[..n], x);
      assert s == s[..n] + [s[n]];
      assert multiset(s) == multiset(s[..n]) + multiset{s[n]};
      if x == s[n] {
        assert x !in s[..n];
      }
    }
  }

  /** Free slots and owners add up to all slots: none is lost and none counted twice. */
  lemma SlotsAccounted<L(!new)>(p: Pool<L>, size: nat)
    requires Reachable(p, size)
    ensures |p.free| + |p.holds| == size
  {
    ReachableHolds(p, size);
    SlotsSplit(p);
    DistinctSize(p.free);
    IntervalSize(size);
    OneSlotEach(p.holds);
  }

  lemma SlotsSplit<L>(p: Pool<L>)
    requires PoolInv(p)
    ensures |Interval(0, |p.inUse| - 1)| == |Elements(p.free)| + |SlotsOf(p.holds)|
  {
    var all: set<int>, free: set<int>, owned: set<int> :=
      Interval(0, |p.inUse| - 1), Elements(p.free), SlotsOf(p.holds);
    forall i | i in all ensures i in free || i in owned {
      SlotPlaced(p, i);
    }
    forall i | i in free ensures i in all && i !in owned {
      assert i in p.free;
    }
    forall i | i in owned ensures i in all {
      var o :| o in p.holds && p.holds[o] == i;
    }
    assert all == free + owned;
    UnionSize(free, owned);
  }

  lemma SlotPlaced<L>(p: Pool<L>, i: nat)
    requires PoolInv(p) && i < |p.inUse|
    ensures i in Elements(p.free) || i in SlotsOf(p.holds)
  {
    if p.inUse[i] {
      var o :| o in p.holds && p.holds[o] == i;
      assert p.holds[o] in SlotsOf(p.holds);
    } else {
      assert i in p.free;
    }
  }

  ghost function SlotsOf<O>(holds: map<O, nat>): set<int> {
    set o | o in holds :: holds[o]
  }

  lemma {:induction false} OneSlotEach<O>(holds: map<O, nat>)
    requires forall a, b | a in holds && b in holds && holds[a] == holds[b] :: a == b
    ensures |SlotsOf(holds)| == |holds|
    decreases |holds|
  {
    if holds == map[] {
      assert SlotsOf(holds) == {};
    } else {
      var o := Pick(holds.Keys);
      var rest := holds - {o};
      assert |rest.Keys| == |holds.Keys| - 1 by { assert rest.Keys == holds.Keys - {o}; }
      assert |rest| == |rest.Keys| && |holds| == |holds.Keys|;
      OneSlotEach(rest);
      forall i ensures i in SlotsOf(holds) <==> i in SlotsOf(rest) + {holds[o]} {
        if i in SlotsOf(holds) {
          var x :| x in holds && holds[x] == i;
          if x != o { assert x in rest && rest[x] == i; }
        }
      }
      assert SlotsOf(holds) == SlotsOf(rest) + {holds[o]};
      assert holds[o] !in SlotsOf(rest);
    }
  }

  // ---- what others cannot do ----

  /** The event acts for this owner. */
  predicate Concerns<L(==)>(e: Event<L>, o: Owner<L>) {
    match e
    case Take(t) => o == Acquirer(t)
    case TimeOut(t) => o == Acquirer(t)
    case ReconnectFails(t) => o == Acquirer(t)
    case MakeLease(t, l) => o == Acquirer(t) || o == Lessee(l)
    case Release(l) => o == Lessee(l)
    case Move(from, to) => o == Lessee(from) || o == Lessee(to)
  }

  /** Whatever others do meanwhile, an owner keeps its slot. */
  lemma {:induction false} OthersKeepSlot<L>(p: Pool<L>, run: seq<Event<L>>, o: Owner<L>)
    requires Legal(p, run) && o in p.holds && forall k :: 0 <= k < |run| ==> !Concerns(run[k], o)
    ensures o in Final(p, run).holds && Final(p, run).holds[o] == p.holds[o]
    decreases |run|
  {
    if run != [] {
      var e := run[0];
      assert !Concerns(e, o);
      OthersKeepSlot(Next(p, e), run[1..], o);
    }
  }

  /**
   * A failed reconnect gives back exactly the slot its thread took, whatever others took, released or moved between;
   * every other owner keeps its slot.
   */
  lemma FailedReconnectFreesItsSlot<L>(p: Pool<L>, t: ThreadId, others: seq<Event<L>>)
    requires PoolInv(p) && Enabled(p, Take(t)) && Legal(Next(p, Take(t)), others)
    requires forall k :: 0 <= k < |others| ==> !Concerns(others[k], Acquirer(t))
    ensures Enabled(Final(Next(p, Take(t)), others), ReconnectFails(t))
    ensures
      var before := Final(Next(p, Take(t)), others);
      var after := Next(before, ReconnectFails(t));
      && after.free == before.free + [p.free[0]] && p.free[0] !in before.free
      && after.holds == before.holds - {Acquirer(t)}
  {
    var taken := Next(p, Take(t));
    NextHolds(p, Take(t));
    OthersKeepSlot(taken, others, Acquirer(t));
    RunHolds(taken, others);
    GiveHolds(Final(taken, others), Acquirer(t));
  }
}
