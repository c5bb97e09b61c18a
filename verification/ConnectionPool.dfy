/**
 * The pool object and its leases. Only `AcquireSlot` and `ReleaseSlot` run under the mutex; `acquire` leaves it
 * between them to reconnect, so it is two calls here, and any other calls may come in between. Every call is a
 * step of `PoolProtocol`.
 */
module ConnectionPool {
  import opened PoolProtocol

  datatype PoolError = TimedOut | InvalidArgument | ConnectionFailed
  datatype Acquired<+T> = Got(value: T) | Failed(error: PoolError)

  class State {
    var inUse: seq<bool>
    var free: seq<nat>
    /** Which thread or lease answers for which slot. */
    ghost var holds: map<Owner<Lease>, nat>

    ghost function View(): Pool<Lease>
      reads this
    {
      Pool(inUse, free, holds)
    }

    ghost predicate Valid()
      reads this
    {
      PoolInv(View())
    }

    constructor ()
      ensures View() == Pool([], [], map[])
    {
      inUse, free, holds := [], [], map[];
    }

    method AddSlot()
      modifies this
      ensures View() == Pool(old(inUse) + [false], old(free) + [|old(inUse)|], old(holds))
    {
      free := free + [|inUse|];
      inUse := inUse + [false];
    }

    /** The first half of `acquire`: the front slot, or a timeout while none is free. */
    method AcquireSlot(ghost t: ThreadId, useTimeout: bool) returns (r: Acquired<nat>)
      requires Valid() && Acquirer(t) !in holds && (useTimeout || free != [])
      modifies this
      ensures Valid()
      ensures r.Got? <==> old(free) != []
      ensures r.Got? ==> View() == Next(old(View()), Take(t)) && Acquirer(t) in holds && r.value == holds[Acquirer(t)]
      ensures r.Failed? ==> r.error == TimedOut && View() == old(View())
    {
      if free == [] {
        return Failed(TimedOut);
      }
      TakeHolds(View(), Acquirer(t));
      var slot := free[0];
      free := free[1..];
      inUse := inUse[slot := true];
      holds := holds[Acquirer(t) := slot];
      return Got(slot);
    }

    method AcquireSlotFor(ghost t: ThreadId, timeout: int) returns (r: Acquired<nat>)
      requires Valid() && Acquirer(t) !in holds
      modifies this
      ensures Valid()
      ensures r.Got? <==> timeout >= 0 && old(free) != []
      ensures r.Got? ==> View() == Next(old(View()), Take(t)) && Acquirer(t) in holds && r.value == holds[Acquirer(t)]
      ensures r.Failed? ==> View() == old(View()) && r.error == if timeout < 0 then InvalidArgument else TimedOut
    {
      if timeout < 0 {
        return Failed(InvalidArgument);
      }
      r := AcquireSlot(t, true);
    }

    /** A slot that is not in use is left alone; the slot given back goes to the end of the queue. */
    method ReleaseSlot(slot: nat)
      requires Valid()
      modifies this
      ensures Valid()
      ensures slot >= |old(inUse)| || !old(inUse)[slot] ==> View() == old(View())
      ensures forall o | o in old(holds) && old(holds)[o] == slot :: View() == GiveSlot(old(View()), o)
    {
      if slot >= |inUse| || !inUse[slot] {
        return;
      }
      ghost var owner :| owner in holds && holds[owner] == slot;
      GiveHolds(View(), owner);
      inUse := inUse[slot := false];
      free := free + [slot];
      holds := holds - {owner};
    }

    /** The second half of `acquire`: a lease of the slot taken, or the slot given back after a failed reconnect. */
    method FinishAcquire(ghost t: ThreadId, slot: nat, connected: bool, reconnects: bool) returns (r: Acquired<Lease>)
      requires Valid() && Acquirer(t) in holds && holds[Acquirer(t)] == slot
      modifies this
      ensures Valid()
      ensures r.Got? <==> connected || reconnects
      ensures r.Got? ==>
                && fresh(r.value) && r.value.Known(this) && r.value.pool == this && r.value.slot == slot
                && Lessee(r.value) !in old(holds) && View() == Next(old(View()), MakeLease(t, r.value))
      ensures r.Failed? ==> r.error == ConnectionFailed && View() == Next(old(View()), ReconnectFails(t))
    {
      if !connected && !reconnects {
        ReleaseSlot(slot);
        return Failed(ConnectionFailed);
      }
      var lease := new Lease(this, slot);
      PassHolds(View(), Acquirer(t), Lessee(lease));
      holds := (holds - {Acquirer(t)})[Lessee(lease) := slot];
      return Got(lease);
    }
  }

  /** `create`: one connected slot after another; a failed connection ends it. */
  method Create(size: nat, connects: nat -> bool) returns (r: Acquired<State>)
    ensures r.Got? <==> size > 0 && forall i: nat :: i < size ==> connects(i)
    ensures r.Got? ==> fresh(r.value) && r.value.Valid() && r.value.View() == Fresh(size)
    ensures r.Failed? ==> r.error == if size == 0 then InvalidArgument else ConnectionFailed
  {
    if size == 0 {
      return Failed(InvalidArgument);
    }
    var state := new State();
    for index := 0 to size
      invariant fresh(state) && state.View() == Fresh(index)
      invariant forall i: nat :: i < index ==> connects(i)
    {
      if !connects(index) {
        return Failed(ConnectionFailed);
      }
      state.AddSlot();
    }
    FreshHolds<Lease>(size);
    return Got(state);
  }

  class Lease {
    var pool: State?
    var slot: nat

    constructor (pool: State, slot: nat)
      ensures this.pool == pool && this.slot == slot
    {
      this.pool, this.slot := pool, slot;
    }

    /** The pool has this lease as an owner exactly when it is a live lease of that pool, and of the slot it names. */
    ghost predicate Known(p: State)
      reads this, p
    {
      && (Lessee(this) in p.holds <==> pool == p)
      && (pool == p ==> p.holds[Lessee(this)] == slot)
    }

    /** Releasing, once or again, leaves the lease empty; the slot of a live lease becomes free. */
    method Release()
      requires pool != null ==> pool.Valid() && Known(pool)
      modifies this, pool
      ensures pool == null
      ensures old(pool) != null ==>
                && old(pool).Valid() && Known(old(pool))
                && old(pool).View() == Next(old(pool.View()), Event.Release(this))
    {
      if pool == null {
        return;
      }
      pool.ReleaseSlot(slot);
      pool := null;
      slot := 0;
    }

    /** Moving into an empty lease: the slot changes its owner and nothing else. */
    method TakeOver(other: Lease)
      requires pool == null && this != other
      requires other.pool != null ==> other.pool.Valid() && Known(other.pool) && other.Known(other.pool)
      modifies this, other, other.pool
      ensures pool == old(other.pool) && other.pool == null
      ensures pool != null ==>
                && slot == old(other.slot) && pool.Valid() && Known(pool) && other.Known(pool)
                && pool.View() == Next(old(other.pool.View()), Move(other, this))
    {
      pool, slot := other.pool, other.slot;
      if pool != null {
        PassHolds(pool.View(), Lessee(other), Lessee(this));
        pool.holds := (pool.holds - {Lessee(other)})[Lessee(this) := slot];
      }
      other.pool, other.slot := null, 0;
    }

    /**
     * Move assignment: an own slot is released first, then the other lease's slot taken over; onto itself it does
     * nothing. The two pools may be one or two, and no other owner of either is touched.
     */
    method MoveFrom(other: Lease)
      requires pool != null ==> pool.Valid() && Known(pool) && other.Known(pool)
      requires other.pool != null ==> other.pool.Valid() && Known(other.pool) && other.Known(other.pool)
      modifies this, pool, other, other.pool
      ensures other == this ==> pool == old(pool) && slot == old(slot)
      ensures other != this ==> pool == old(other.pool) && other.pool == null
      ensures other != this && pool != null ==> slot == old(other.slot)
      ensures old(pool) != null ==> old(pool).Valid() && Known(old(pool)) && other.Known(old(pool))
      ensures pool != null ==> pool.Valid() && Known(pool) && other.Known(pool)
      ensures old(pool) != null ==> old(pool).View() == AfterMove(old(pool.View()), this, other)
      ensures pool != null ==> pool.View() == AfterMove(old(other.pool.View()), this, other)
    {
      if this == other {
        return;
      }
      Release();
      TakeOver(other);
    }
  }

  /** What assigning `from` to `to` does to a pool that may know both, one or none of them. */
  ghost function AfterMove(p: Pool<Lease>, to: Lease, from: Lease): Pool<Lease> {
    if from == to then p else Next(Next(p, Event.Release(to)), Move(from, to))
  }

  /** Two live leases of one pool never share a slot. */
  lemma NoSharedSlot(p: State, a: Lease, b: Lease)
    requires p.Valid() && a.Known(p) && b.Known(p) && a.pool == p && b.pool == p && a != b
    ensures a.slot != b.slot
  {
  }
}
