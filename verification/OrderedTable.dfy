/**
 * Tables whose rows carry an explicit position: `testcase_order`, `sample_order`.
 * The statements below are the SQL ones; the lemmas show that on a table whose orders are 1..n they
 * are the plain sequence operations.
 */
module OrderedTable {
  import opened Common
  import opened FiniteSets

  type RowId = int
  datatype Row<+A> = Row(order: int, data: A)
  type Table<A> = map<RowId, Row<A>>

  // ---- the table as a sequence ----

  /** `ids` lists the row ids by position: the orders in the table are exactly 1..|ids|, each used once. */
  ghost predicate Ordered<A>(t: Table<A>, ids: seq<RowId>) {
    && (forall k :: 0 <= k < |ids| ==> ids[k] in t && t[ids[k]].order == k + 1)
    && (forall id | id in t :: 1 <= t[id].order <= |ids| && ids[t[id].order - 1] == id)
  }

  ghost predicate WellOrdered<A>(t: Table<A>) {
    exists ids :: Ordered(t, ids)
  }

  lemma NotLonger<A>(t: Table<A>, a: seq<RowId>, b: seq<RowId>)
    requires Ordered(t, a) && Ordered(t, b)
    ensures |a| <= |b|
  {
    if |a| > 0 {
      var last := a[|a| - 1];
      assert last in t && t[last].order == |a|;
      assert t[last].order <= |b|;
    }
  }

  lemma OrderedUnique<A>(t: Table<A>, a: seq<RowId>, b: seq<RowId>)
    requires Ordered(t, a) && Ordered(t, b)
    ensures a == b
  {
    NotLonger(t, a, b);
    NotLonger(t, b, a);
    forall k | 0 <= k < |a| ensures a[k] == b[k] {
      assert a[k] in t;
    }
  }

  ghost function IdsOf<A>(t: Table<A>): (ids: seq<RowId>)
    requires WellOrdered(t)
    ensures Ordered(t, ids)
  {
    var ids :| Ordered(t, ids);
    ids
  }

  lemma IdsAre<A>(t: Table<A>, ids: seq<RowId>)
    requires Ordered(t, ids)
    ensures WellOrdered(t) && IdsOf(t) == ids
  {
    OrderedUnique(t, ids, IdsOf(t));
  }

  /** The contents of the table in position order. */
  ghost function Listing<A>(t: Table<A>): (s: seq<A>)
    requires WellOrdered(t)
    ensures |s| == |IdsOf(t)|
  {
    var ids := IdsOf(t);
    seq(|ids|, k requires 0 <= k < |ids| => t[ids[k]].data)
  }

  lemma ListingIs<A>(t: Table<A>, ids: seq<RowId>, s: seq<A>)
    requires Ordered(t, ids) && |s| == |ids|
    requires forall k :: 0 <= k < |ids| ==> t[ids[k]].data == s[k]
    ensures WellOrdered(t) && Listing(t) == s
  {
    IdsAre(t, ids);
  }

  /** `COUNT(*)` is the number of positions. */
  lemma OrderedSize<A>(t: Table<A>, ids: seq<RowId>)
    requires Ordered(t, ids)
    ensures |t| == |ids|
  {
    DistinctSize(ids);
    forall id ensures id in t.Keys <==> id in Elements(ids) {
      if id in t { assert ids[t[id].order - 1] == id; }
    }
    assert t.Keys == Elements(ids);
  }

  lemma EmptyOrdered<A>(t: Table<A>)
    requires t == map[]
    ensures Ordered(t, []) && WellOrdered(t) && Listing(t) == []
  {
    IdsAre(t, []);
  }

  function Orders<A>(t: Table<A>): set<int> {
    set id | id in t :: t[id].order
  }

  lemma OrdersAre<A>(t: Table<A>)
    requires WellOrdered(t)
    ensures forall o :: o in Orders(t) <==> 1 <= o <= |t|
  {
    var ids := IdsOf(t);
    OrderedSize(t, ids);
    forall o ensures o in Orders(t) <==> 1 <= o <= |t| {
      if 1 <= o <= |t| {
        var id := ids[o - 1];
        assert id in t && t[id].order == o;
      }
    }
  }

  // ---- the statements ----

  function IdsAt<A>(t: Table<A>, order: int): set<RowId> {
    set id | id in t && t[id].order == order
  }

  lemma OrdersOccupied<A>(t: Table<A>, order: int)
    ensures order in Orders(t) <==> IdsAt(t, order) != {}
  {
    if order in Orders(t) {
      var id :| id in t && t[id].order == order;
      assert id in IdsAt(t, order);
    }
    if IdsAt(t, order) != {} {
      var id := Pick(IdsAt(t, order));
      assert id in t && t[id].order == order;
    }
  }

  /** `INSERT` of one row: the unique (problem, order) constraint rejects a taken position. */
  function InsertAt<A>(t: Table<A>, id: RowId, order: int, data: A): Result<Table<A>> {
    if IdsAt(t, order) != {} then Err(Conflict) else Ok(t[id := Row(order, data)])
  }

  /** `UPDATE ... WHERE order = $2`. */
  function SetAt<A>(t: Table<A>, order: int, data: A): Result<Table<A>> {
    if IdsAt(t, order) == {} then Err(NotFound)
    else Ok(map id | id in t :: if t[id].order == order then t[id].(data := data) else t[id])
  }

  /** `DELETE ... WHERE order = $2` followed by `SET order = order - 1 WHERE order > $2`. */
  function DeleteAndShift<A>(t: Table<A>, order: int): Result<Table<A>> {
    if IdsAt(t, order) == {} then Err(NotFound)
    else Ok(map id | id in t && t[id].order != order ::
              if t[id].order > order then t[id].(order := t[id].order - 1) else t[id])
  }

  /** The CASE expression of the move. */
  function MovedOrder(order: int, source: int, target: int): int {
    if order == source then target
    else if source < target && order > source && order <= target then order - 1
    else if source > target && order >= target && order < source then order + 1
    else order
  }

  function Between<A>(t: Table<A>, low: int, high: int): set<RowId> {
    set id | id in t && low <= t[id].order <= high
  }

  function MoveRows<A>(t: Table<A>, source: int, target: int): Table<A> {
    var low, high := if source < target then source else target, if source < target then target else source;
    map id | id in t ::
      if low <= t[id].order <= high then t[id].(order := MovedOrder(t[id].order, source, target)) else t[id]
  }

  /** `move_testcase`, with its affected-row check. */
  function Move<A>(t: Table<A>, source: int, target: int): Result<Table<A>> {
    if source <= 0 || target <= 0 then Err(InvalidReference)
    else if IdsAt(t, source) == {} then Err(NotFound)
    else if source == target then Ok(t)
    else
      var low, high := if source < target then source else target, if source < target then target else source;
      if |Between(t, low, high)| != high - low + 1 then Err(Conflict)
      else Ok(MoveRows(t, source, target))
  }

  // ---- insert ----

  lemma InsertAppends<A>(t: Table<A>, id: RowId, data: A)
    requires WellOrdered(t) && id !in t
    ensures InsertAt(t, id, |t| + 1, data).Ok?
    ensures
      var t' := InsertAt(t, id, |t| + 1, data).value;
      WellOrdered(t') && Listing(t') == Listing(t) + [data] && |t'| == |t| + 1
  {
    var ids := IdsOf(t);
    OrderedSize(t, ids);
    forall x | x in t ensures t[x].order != |t| + 1 {}
    assert IdsAt(t, |t| + 1) == {};
    var t' := t[id := Row(|t| + 1, data)];
    assert Ordered(t', ids + [id]);
    ListingIs(t', ids + [id], Listing(t) + [data]);
  }

  // ---- update ----

  lemma PositionExists<A>(t: Table<A>, order: int)
    requires WellOrdered(t)
    ensures IdsAt(t, order) != {} <==> 1 <= order <= |t|
    ensures 1 <= order <= |t| ==> |IdsOf(t)| == |t| && IdsAt(t, order) == {IdsOf(t)[order - 1]}
  {
    var ids := IdsOf(t);
    OrderedSize(t, ids);
    forall id | id in IdsAt(t, order) ensures 1 <= order <= |t| && id == ids[order - 1] {
      assert id in t;
    }
    if 1 <= order <= |t| {
      assert ids[order - 1] in IdsAt(t, order);
    }
  }

  lemma SetUpdates<A>(t: Table<A>, order: int, data: A)
    requires WellOrdered(t)
    ensures SetAt(t, order, data).Ok? <==> 1 <= order <= |t|
    ensures 1 <= order <= |t| ==>
              var t' := SetAt(t, order, data).value;
              && WellOrdered(t') && |Listing(t)| == |t| && t'.Keys == t.Keys
              && Listing(t') == Listing(t)[order - 1 := data]
  {
    PositionExists(t, order);
    if 1 <= order <= |t| {
      var t' := SetAt(t, order, data).value;
      SetKeepsOrder(t, order, data);
      ListingIs(t', IdsOf(t), Listing(t)[order - 1 := data]);
    }
  }

  lemma SetKeepsOrder<A>(t: Table<A>, order: int, data: A)
    requires WellOrdered(t) && SetAt(t, order, data).Ok? && 1 <= order <= |t|
    ensures
      var ids, t' := IdsOf(t), SetAt(t, order, data).value;
      && |ids| == |t| && Ordered(t', ids) && t'.Keys == t.Keys
      && forall k :: 0 <= k < |t| ==> t'[ids[k]].data == if k == order - 1 then data else t[ids[k]].data
  {
    var ids, t' := IdsOf(t), SetAt(t, order, data).value;
    OrderedSize(t, ids);
    forall id | id in t' ensures 1 <= t'[id].order <= |ids| && ids[t'[id].order - 1] == id {
      assert id in t;
    }
    forall k | 0 <= k < |ids| ensures ids[k] in t' && t'[ids[k]].order == k + 1 {
      assert ids[k] in t;
    }
  }

  // ---- delete and shift ----

  function Without<T>(s: seq<T>, k: int): seq<T>
    requires 0 <= k < |s|
  {
    s[..k] + s[k + 1..]
  }

  lemma DeletedOrdered<A>(t: Table<A>, order: int)
    requires WellOrdered(t) && |IdsOf(t)| == |t| && 1 <= order <= |t| && DeleteAndShift(t, order).Ok?
    ensures Ordered(DeleteAndShift(t, order).value, Without(IdsOf(t), order - 1))
  {
    var ids, t' := IdsOf(t), DeleteAndShift(t, order).value;
    var ids' := Without(ids, order - 1);
    forall k | 0 <= k < |ids'| ensures ids'[k] in t' && t'[ids'[k]].order == k + 1 {
      assert ids'[k] == if k < order - 1 then ids[k] else ids[k + 1];
    }
    forall id | id in t' ensures 1 <= t'[id].order <= |ids'| && ids'[t'[id].order - 1] == id {
      assert id in t && ids[t[id].order - 1] == id;
    }
  }

  lemma DeleteRemoves<A>(t: Table<A>, order: int)
    requires WellOrdered(t)
    ensures DeleteAndShift(t, order).Ok? <==> 1 <= order <= |t|
    ensures 1 <= order <= |t| ==>
              var t' := DeleteAndShift(t, order).value;
              WellOrdered(t') && |Listing(t)| == |t| && Listing(t') == Without(Listing(t), order - 1) && |t'| == |t| - 1
  {
    PositionExists(t, order);
    if 1 <= order <= |t| {
      var ids, t' := IdsOf(t), DeleteAndShift(t, order).value;
      var ids' := Without(ids, order - 1);
      DeletedOrdered(t, order);
      forall k | 0 <= k < |ids'| ensures t'[ids'[k]].data == Without(Listing(t), order - 1)[k] {
        assert ids'[k] == if k < order - 1 then ids[k] else ids[k + 1];
      }
      ListingIs(t', ids', Without(Listing(t), order - 1));
      OrderedSize(t', ids');
    }
  }

  // ---- move ----

  /** Element `i` taken out and put back at position `j`. */
  function Moved<T>(s: seq<T>, i: int, j: int): (r: seq<T>)
    requires 0 <= i < |s| && 0 <= j < |s|
    ensures |r| == |s|
  {
    var rest := Without(s, i);
    rest[..j] + [s[i]] + rest[j..]
  }

  /** Where the moved sequence has which element: the inverse of the CASE expression. */
  lemma MovedAt<T>(s: seq<T>, i: int, j: int, k: int)
    requires 0 <= i < |s| && 0 <= j < |s| && 0 <= k < |s|
    ensures 0 <= MovedOrder(k + 1, i + 1, j + 1) - 1 < |s|
    ensures Moved(s, i, j)[MovedOrder(k + 1, i + 1, j + 1) - 1] == s[k]
  {
  }

  /** Moving back undoes a move. */
  lemma MoveBackSeq<T>(s: seq<T>, i: int, j: int)
    requires 0 <= i < |s| && 0 <= j < |s|
    ensures Moved(Moved(s, i, j), j, i) == s
  {
    var m := Moved(s, i, j);
    var back := Moved(m, j, i);
    forall k | 0 <= k < |s| ensures back[k] == s[k] {
      var o := MovedOrder(k + 1, i + 1, j + 1);
      MovedAt(s, i, j, k);
      MovedAt(m, j, i, o - 1);
      assert MovedOrder(o, j + 1, i + 1) == k + 1;
    }
  }

  /** The UPDATE touches one row per position of the range that exists. */
  lemma {:induction false} BetweenSize<A>(t: Table<A>, low: int, high: int)
    requires WellOrdered(t) && 1 <= low <= high && low <= |t|
    ensures |Between(t, low, high)| == (if high <= |t| then high else |t|) - low + 1
  {
    var ids := IdsOf(t);
    OrderedSize(t, ids);
    var top := if high <= |t| then high else |t|;
    var range := ids[low - 1..top];
    forall id ensures id in Between(t, low, high) <==> id in Elements(range) {
      if id in Between(t, low, high) {
        assert range[t[id].order - low] == id;
      }
      if id in Elements(range) {
        var k :| 0 <= k < |range| && range[k] == id;
        assert ids[low - 1 + k] == id;
      }
    }
    assert Between(t, low, high) == Elements(range);
    forall a, b | 0 <= a < b < |range| ensures range[a] != range[b] {
      assert t[range[a]].order == low + a && t[range[b]].order == low + b;
    }
    DistinctSize(range);
  }

  /** The row that lands on a position is the one the reverse rotation points to. */
  lemma ReverseRotation(order: int, source: int, target: int)
    ensures MovedOrder(MovedOrder(order, target, source), source, target) == order
  {
  }

  /** Which element of the original sequence stands at position `k` after the move. */
  lemma MovedFrom<T>(s: seq<T>, i: int, j: int, k: int)
    requires 0 <= i < |s| && 0 <= j < |s| && 0 <= k < |s|
    ensures 0 <= MovedOrder(k + 1, j + 1, i + 1) - 1 < |s|
    ensures Moved(s, i, j)[k] == s[MovedOrder(k + 1, j + 1, i + 1) - 1]
  {
    var o := MovedOrder(k + 1, j + 1, i + 1);
    ReverseRotation(k + 1, i + 1, j + 1);
    MovedAt(s, i, j, o - 1);
  }

  lemma MovedRow<A>(t: Table<A>, source: int, target: int, id: RowId)
    requires WellOrdered(t) && 1 <= source <= |t| && 1 <= target <= |t| && |IdsOf(t)| == |t| && id in t
    ensures
      var o := MoveRows(t, source, target)[id].order;
      1 <= o <= |t| && Moved(IdsOf(t), source - 1, target - 1)[o - 1] == id
  {
    var ids := IdsOf(t);
    assert ids[t[id].order - 1] == id;
    MovedAt(ids, source - 1, target - 1, t[id].order - 1);
  }

  lemma MovedPosition<A>(t: Table<A>, source: int, target: int, k: int)
    requires WellOrdered(t) && 1 <= source <= |t| && 1 <= target <= |t| && |IdsOf(t)| == |t| && 0 <= k < |t|
    ensures
      var t', id := MoveRows(t, source, target), Moved(IdsOf(t), source - 1, target - 1)[k];
      id in t && t'[id].order == k + 1 && t'[id].data == Moved(Listing(t), source - 1, target - 1)[k]
  {
    var ids, o := IdsOf(t), MovedOrder(k + 1, target, source);
    MovedFrom(ids, source - 1, target - 1, k);
    MovedFrom(Listing(t), source - 1, target - 1, k);
    ReverseRotation(k + 1, source, target);
    assert ids[o - 1] in t && t[ids[o - 1]].order == o;
  }

  lemma MoveRowsMoves<A>(t: Table<A>, source: int, target: int)
    requires WellOrdered(t) && 1 <= source <= |t| && 1 <= target <= |t| && |IdsOf(t)| == |t|
    ensures Ordered(MoveRows(t, source, target), Moved(IdsOf(t), source - 1, target - 1))
    ensures WellOrdered(MoveRows(t, source, target))
    ensures IdsOf(MoveRows(t, source, target)) == Moved(IdsOf(t), source - 1, target - 1)
    ensures Listing(MoveRows(t, source, target)) == Moved(Listing(t), source - 1, target - 1)
  {
    var t', ids' := MoveRows(t, source, target), Moved(IdsOf(t), source - 1, target - 1);
    forall id | id in t' ensures 1 <= t'[id].order <= |ids'| && ids'[t'[id].order - 1] == id {
      MovedRow(t, source, target, id);
    }
    forall k | 0 <= k < |ids'|
      ensures ids'[k] in t' && t'[ids'[k]].order == k + 1
      ensures t'[ids'[k]].data == Moved(Listing(t), source - 1, target - 1)[k]
    {
      MovedPosition(t, source, target, k);
    }
    IdsAre(t', ids');
    ListingIs(t', ids', Moved(Listing(t), source - 1, target - 1));
  }

  /**
   * A move succeeds exactly when both positions exist, and then the table is the sequence with the source
   * element taken out and put back at the target; row ids and contents travel together.
   */
  lemma MoveExact<A>(t: Table<A>, source: int, target: int)
    requires WellOrdered(t)
    ensures Move(t, source, target).Ok? <==> 1 <= source <= |t| && 1 <= target <= |t|
    ensures Move(t, source, target).Err? ==>
              Move(t, source, target).error ==
              if source <= 0 || target <= 0 then InvalidReference else if source > |t| then NotFound else Conflict
    ensures Move(t, source, target).Ok? ==>
              var t' := Move(t, source, target).value;
              && t'.Keys == t.Keys && WellOrdered(t') && |Listing(t)| == |t|
              && Listing(t') == Moved(Listing(t), source - 1, target - 1)
              && IdsOf(t') == Moved(IdsOf(t), source - 1, target - 1)
  {
    PositionExists(t, source);
    var ids := IdsOf(t);
    OrderedSize(t, ids);
    if 1 <= source <= |t| && target > 0 {
      if source == target {
        assert Moved(ids, source - 1, target - 1) == ids;
        assert Moved(Listing(t), source - 1, target - 1) == Listing(t);
      } else {
        BetweenSize(t, if source < target then source else target, if source < target then target else source);
        if target <= |t| {
          MoveRowsMoves(t, source, target);
        }
      }
    }
  }

  /** The structural half of `MoveExact`. */
  lemma MoveKeepsOrder<A>(t: Table<A>, source: int, target: int)
    requires WellOrdered(t)
    ensures Move(t, source, target).Ok? <==> 1 <= source <= |t| && 1 <= target <= |t|
    ensures Move(t, source, target).Err? ==>
              Move(t, source, target).error ==
              if source <= 0 || target <= 0 then InvalidReference else if source > |t| then NotFound else Conflict
    ensures Move(t, source, target).Ok? ==>
              var t' := Move(t, source, target).value;
              t'.Keys == t.Keys && WellOrdered(t') && |t'| == |t|
  {
    MoveExact(t, source, target);
    if Move(t, source, target).Ok? {
      var t' := Move(t, source, target).value;
      assert |t'.Keys| == |t.Keys|;
    }
  }

  /** The structural half of `DeleteRemoves`. */
  lemma DeleteKeepsOrder<A>(t: Table<A>, order: int)
    requires WellOrdered(t)
    ensures DeleteAndShift(t, order).Ok? <==> 1 <= order <= |t|
    ensures 1 <= order <= |t| ==>
              var t' := DeleteAndShift(t, order).value;
              && WellOrdered(t') && |t'| == |t| - 1 && t'.Keys <= t.Keys
              && forall id | id in t' :: t'[id].data == t[id].data
  {
    DeleteRemoves(t, order);
  }

  lemma MoveKeepsData<A>(t: Table<A>, source: int, target: int, id: RowId)
    requires Move(t, source, target).Ok? && id in t
    ensures id in Move(t, source, target).value
    ensures Move(t, source, target).value[id].data == t[id].data
  {
  }

  /** Moving a row and moving it back restores the table itself, ids included. */
  lemma MoveBackRestores<A>(t: Table<A>, source: int, target: int)
    requires WellOrdered(t) && 1 <= source <= |t| && 1 <= target <= |t|
    ensures Move(t, source, target).Ok?
    ensures Move(Move(t, source, target).value, target, source) == Ok(t)
  {
    MoveExact(t, source, target);
    var t' := Move(t, source, target).value;
    assert |t'| == |t| by { assert |t'.Keys| == |t.Keys|; }
    MoveExact(t', target, source);
    if source != target {
      RowsMovedBack(t, source, target);
    }
  }

  lemma RowsMovedBack<A>(t: Table<A>, source: int, target: int)
    ensures MoveRows(MoveRows(t, source, target), target, source) == t
  {
    var back := MoveRows(MoveRows(t, source, target), target, source);
    forall id | id in t ensures back[id] == t[id] {
      ReverseRotation(t[id].order, target, source);
    }
    assert back == t;
  }
}
