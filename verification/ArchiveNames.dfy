/** The file names of a testcase archive: which listings are accepted, and which pair every testcase comes from. */
module ArchiveNames {
  import opened Common
  import opened FiniteSets
  import opened ProblemTables

  const MAX_ORDER := 999

  // ---- names ----

  predicate IsDigit(c: char) {
    '0' <= c <= '9'
  }

  function Value(c: char): int {
    c as int - '0' as int
  }

  function Digit(d: int): (c: char)
    requires 0 <= d <= 9
    ensures IsDigit(c) && Value(c) == d
  {
    ('0' as int + d) as char
  }

  predicate IsInputFile(name: string) {
    |name| == 6 && name[3] == '.' && name[4..] == "in"
  }

  predicate IsOutputFile(name: string) {
    |name| == 7 && name[3] == '.' && name[4..] == "out"
  }

  predicate HasValidDigits(name: string)
    requires |name| >= 3
  {
    IsDigit(name[0]) && IsDigit(name[1]) && IsDigit(name[2])
  }

  function MakeOrder(name: string): int
    requires |name| >= 3
  {
    Value(name[0]) * 100 + Value(name[1]) * 10 + Value(name[2])
  }

  /** A name of the form 001.in or 001.out. */
  predicate WellFormed(name: string) {
    (IsInputFile(name) || IsOutputFile(name)) && HasValidDigits(name)
  }

  /** The three digits of an order. */
  function Digits(order: int): (s: string)
    requires 0 <= order <= MAX_ORDER
    ensures |s| == 3
  {
    [Digit(order / 100), Digit(order / 10 % 10), Digit(order % 10)]
  }

  function InputName(order: int): string
    requires 0 <= order <= MAX_ORDER
  {
    Digits(order) + ".in"
  }

  function OutputName(order: int): string
    requires 0 <= order <= MAX_ORDER
  {
    Digits(order) + ".out"
  }

  /** Decoding the digits of an order gives the order back. */
  lemma FormatDecodes(order: int)
    requires 0 <= order <= MAX_ORDER
    ensures WellFormed(InputName(order)) && IsInputFile(InputName(order)) && MakeOrder(InputName(order)) == order
    ensures WellFormed(OutputName(order)) && IsOutputFile(OutputName(order)) && MakeOrder(OutputName(order)) == order
    ensures InputName(order) != OutputName(order) && InputName(order) != "" && OutputName(order) != ""
  {
    assert order == order / 100 * 100 + order / 10 % 10 * 10 + order % 10 by {
      assert order / 10 == order / 100 * 10 + order / 10 % 10;
    }
  }

  /** A well-formed name is the name of the order it decodes to. */
  lemma DecodeFormats(name: string)
    requires WellFormed(name)
    ensures 0 <= MakeOrder(name) <= MAX_ORDER
    ensures IsInputFile(name) ==> name == InputName(MakeOrder(name))
    ensures IsOutputFile(name) ==> name == OutputName(MakeOrder(name))
  {
    var a, b, c := Value(name[0]), Value(name[1]), Value(name[2]);
    var order := a * 100 + b * 10 + c;
    assert order / 10 == a * 10 + b;
    assert order / 100 == a;
    assert name[0] == Digit(a) && name[1] == Digit(b) && name[2] == Digit(c);
    assert name == name[..3] + [name[3]] + name[4..];
  }

  // ---- formatting ----

  /** `std::to_string` of a non-negative number. */
  function Decimal(n: nat): (s: string)
    ensures s != ""
  {
    if n < 10 then [Digit(n)] else Decimal(n / 10) + [Digit(n % 10)]
  }

  /** `std::to_string`. */
  function ToString(n: int): (s: string)
    ensures s != ""
  {
    if n < 0 then "-" + Decimal(-n) else Decimal(n)
  }

  function Zeros(n: nat): (s: string)
    ensures |s| == n
  {
    seq(n, i => '0')
  }

  /** Zeros in front until there are three characters; for an order this is its three digits. */
  method FormatOrder(order: int) returns (s: string)
    ensures |s| >= 3 && |s| >= |ToString(order)| && s == Zeros(|s| - |ToString(order)|) + ToString(order)
    ensures |s| == 3 || s == ToString(order)
    ensures 0 <= order <= MAX_ORDER ==> s == Digits(order)
  {
    s := ToString(order);
    while |s| < 3
      invariant |ToString(order)| <= |s| && s == Zeros(|s| - |ToString(order)|) + ToString(order)
      invariant |s| <= 3 || s == ToString(order)
      decreases 3 - |s|
    {
      s := ['0'] + s;
    }
    if 0 <= order <= MAX_ORDER {
      PaddedDigits(order);
    }
  }

  lemma PaddedDigits(order: int)
    requires 0 <= order <= MAX_ORDER
    ensures |ToString(order)| <= 3 && Zeros(3 - |ToString(order)|) + ToString(order) == Digits(order)
  {
    DecimalDigits(order);
  }

  lemma DecimalDigits(order: nat)
    ensures order < 10 ==> Decimal(order) == [Digit(order)]
    ensures 10 <= order < 100 ==> Decimal(order) == [Digit(order / 10), Digit(order % 10)]
    ensures 100 <= order <= MAX_ORDER ==> Decimal(order) == Digits(order)
    ensures order > MAX_ORDER ==> |Decimal(order)| > 3
  {
    if order >= 10 {
      DecimalDigits(order / 10);
    }
  }

  // ---- the reference: which listings are complete ----

  /** The listing {001.in, 001.out, ..., n.in, n.out}. */
  function Expected(n: int): seq<string>
    requires 0 <= n <= MAX_ORDER
  {
    if n == 0 then [] else Expected(n - 1) + [InputName(n), OutputName(n)]
  }

  /** As multisets the listing is the expected one: nothing missing, nothing extra, nothing twice. */
  ghost predicate CompleteUpTo(names: seq<string>, n: int) {
    0 <= n <= MAX_ORDER && multiset(names) == multiset(Expected(n))
  }

  predicate Expects(n: int, name: string) {
    WellFormed(name) && 1 <= MakeOrder(name) <= n
  }

  lemma {:induction false} ExpectedMeans(n: int)
    requires 0 <= n <= MAX_ORDER
    ensures Distinct(Expected(n))
    ensures forall name :: name in Expected(n) <==> Expects(n, name)
  {
    if n > 0 {
      ExpectedMeans(n - 1);
      FormatDecodes(n);
      forall name ensures name in Expected(n) <==> Expects(n, name) {
        if WellFormed(name) && MakeOrder(name) == n {
          DecodeFormats(name);
        }
      }
      var earlier := Expected(n - 1);
      assert !Expects(n - 1, InputName(n)) && !Expects(n - 1, OutputName(n));
      assert InputName(n) !in earlier && OutputName(n) !in earlier;
    }
  }

  /** A sequence has no duplicates exactly when its multiset counts nothing twice. */
  lemma {:induction false} DistinctCounts<T>(s: seq<T>)
    ensures Distinct(s) <==> forall x :: multiset(s)[x] <= 1
    decreases |s|
  {
    if s != [] {
      var n := |s| - 1;
      var init, last := s[..n], s[n];
      DistinctCounts(init);
      assert s == init + [last];
      assert multiset(s) == multiset(init) + multiset{last};
      if Distinct(init) && last !in init {
        forall x ensures multiset(s)[x] <= 1 {
          assert x == last ==> multiset(init)[x] == 0;
        }
      } else if Distinct(init) {
        assert multiset(s)[last] >= 2;
        var i :| 0 <= i < n && init[i] == last;
        assert s[i] == s[n];
      } else {
        var x :| multiset(init)[x] > 1;
        assert multiset(s)[x] > 1;
        var i, j :| 0 <= i < j < |init| && init[i] == init[j];
        assert s[i] == s[j];
      }
    }
  }

  /** Duplicate-free listings are equal as multisets exactly when they have the same elements. */
  lemma SameElements<T>(a: seq<T>, b: seq<T>)
    requires Distinct(a) && Distinct(b) && forall x :: x in a <==> x in b
    ensures multiset(a) == multiset(b)
  {
    DistinctCounts(a);
    DistinctCounts(b);
    forall x ensures multiset(a)[x] == multiset(b)[x] {
      assert x in a <==> x in multiset(a);
      assert x in b <==> x in multiset(b);
    }
  }

  /** A listing is complete up to n exactly when it is duplicate-free and lists exactly the expected names. */
  lemma CompleteMeans(names: seq<string>, n: int)
    requires 0 <= n <= MAX_ORDER
    ensures CompleteUpTo(names, n) <==> Distinct(names) && forall name :: name in names <==> Expects(n, name)
  {
    ExpectedMeans(n);
    if CompleteUpTo(names, n) {
      DistinctCounts(Expected(n));
      DistinctCounts(names);
      forall name ensures name in names <==> Expects(n, name) {
        assert name in names <==> name in multiset(names);
        assert name in Expected(n) <==> name in multiset(Expected(n));
      }
    }
    if Distinct(names) && forall name :: name in names <==> Expects(n, name) {
      SameElements(names, Expected(n));
    }
  }

  // ---- the map ----

  datatype Entry = Entry(inputName: string, outputName: string)
  type EntryMap = map<int, Entry>

  datatype Rejection =
    | BadName
    | OrderOutOfRange
    | DuplicateInput(order: int)
    | DuplicateOutput(order: int)
    | MissingPair(order: int)
    | NotContinuous

  datatype Parsed = Accepted(entries: EntryMap) | Rejected(reason: Rejection)

  /** The entry a listing gives an order. */
  function EntryFor(names: seq<string>, order: int): Entry
    requires 0 <= order <= MAX_ORDER
  {
    Entry(if InputName(order) in names then InputName(order) else "",
          if OutputName(order) in names then OutputName(order) else "")
  }

  predicate Listed(names: seq<string>, order: int)
    requires 0 <= order <= MAX_ORDER
  {
    InputName(order) in names || OutputName(order) in names
  }

  /** The names collected so far are well formed, in range and distinct, and the map holds exactly their pairs. */
  ghost predicate Collected(names: seq<string>, m: EntryMap) {
    && Distinct(names)
    && (forall name | name in names :: Expects(MAX_ORDER, name))
    && (forall order | order in m ::
          1 <= order <= MAX_ORDER && Listed(names, order) && m[order] == EntryFor(names, order))
    && (forall order | 1 <= order <= MAX_ORDER && Listed(names, order) :: order in m)
  }

  /** Why a listing was rejected, in terms of the listing. */
  ghost predicate Explains(names: seq<string>, reason: Rejection) {
    match reason
    case BadName => exists name :: name in names && !WellFormed(name)
    case OrderOutOfRange => exists name :: name in names && WellFormed(name) && MakeOrder(name) == 0
    case DuplicateInput(order) => 1 <= order <= MAX_ORDER && multiset(names)[InputName(order)] >= 2
    case DuplicateOutput(order) => 1 <= order <= MAX_ORDER && multiset(names)[OutputName(order)] >= 2
    case MissingPair(order) =>
      1 <= order <= MAX_ORDER && Listed(names, order) && (InputName(order) !in names || OutputName(order) !in names)
    case NotContinuous =>
      exists order :: 1 < order <= MAX_ORDER && Listed(names, order) && !Listed(names, order - 1)
  }

  /** A listing that is complete up to some n gives no reason to reject it. */
  lemma CompleteIsNotRejected(names: seq<string>, reason: Rejection, n: int)
    requires CompleteUpTo(names, n)
    ensures !Explains(names, reason)
  {
    CompleteMeans(names, n);
    match reason
    case MissingPair(order) =>
      if 1 <= order <= MAX_ORDER {
        CompleteLists(names, n, order);
      }
    case NotContinuous =>
      forall order | 1 < order <= MAX_ORDER && Listed(names, order) ensures Listed(names, order - 1) {
        CompleteLists(names, n, order);
        CompleteLists(names, n, order - 1);
      }
    case DuplicateInput(_) => DistinctCounts(names);
    case DuplicateOutput(_) => DistinctCounts(names);
    case _ =>
  }

  /** A complete listing has both names of an order or neither. */
  lemma CompleteLists(names: seq<string>, n: int, order: int)
    requires 1 <= order <= MAX_ORDER && forall name :: name in names <==> Expects(n, name)
    ensures InputName(order) in names <==> order <= n
    ensures OutputName(order) in names <==> order <= n
  {
    NamesOf(n, order);
  }

  lemma NamesOf(n: int, order: int)
    requires 1 <= order <= MAX_ORDER
    ensures Expects(n, InputName(order)) <==> order <= n
    ensures Expects(n, OutputName(order)) <==> order <= n
  {
    FormatDecodes(order);
  }

  // ---- parsing ----

  function Half(e: Entry, isInput: bool): string {
    if isInput then e.inputName else e.outputName
  }

  function Duplicate(order: int, isInput: bool): Rejection {
    if isInput then DuplicateInput(order) else DuplicateOutput(order)
  }

  /**
   * Stores a name in its half of the entry and leaves the other half alone; a half that is taken is kept, and
   * reported as a duplicate of that half.
   */
  method SetEntryName(entry: Entry, order: int, isInput: bool, name: string)
    returns (updated: Entry, failure: Option<Rejection>)
    ensures failure.None? <==> Half(entry, isInput) == ""
    ensures failure.None? ==> Half(updated, isInput) == name && Half(updated, !isInput) == Half(entry, !isInput)
    ensures failure.Some? ==> updated == entry && failure.value == Duplicate(order, isInput)
  {
    if isInput {
      if entry.inputName != "" {
        return entry, Some(DuplicateInput(order));
      }
      return entry.(inputName := name), None;
    }
    if entry.outputName != "" {
      return entry, Some(DuplicateOutput(order));
    }
    return entry.(outputName := name), None;
  }

  /** One more name in the map: what the loop of the parser does with a name it accepts. */
  lemma CollectOne(names: seq<string>, m: EntryMap, name: string, order: int)
    requires Collected(names, m) && WellFormed(name) && order == MakeOrder(name) && 1 <= order <= MAX_ORDER
    requires name !in names
    ensures
      var entry := if order in m then m[order] else Entry("", "");
      var updated := if IsInputFile(name) then entry.(inputName := name) else entry.(outputName := name);
      Collected(names + [name], m[order := updated])
  {
    DecodeFormats(name);
    var all := names + [name];
    forall o | 1 <= o <= MAX_ORDER && o != order
      ensures Listed(all, o) == Listed(names, o) && EntryFor(all, o) == EntryFor(names, o)
    {
      FormatDecodes(o);
    }
    FormatDecodes(order);
  }

  /** A name already collected is found in its entry, and appears twice in what has been read. */
  lemma DuplicateFound(names: seq<string>, m: EntryMap, rest: seq<string>, name: string)
    requires Collected(names, m) && WellFormed(name) && 1 <= MakeOrder(name) <= MAX_ORDER
    ensures MakeOrder(name) !in m ==> name !in names
    ensures MakeOrder(name) in m && IsInputFile(name) ==> (m[MakeOrder(name)].inputName != "" <==> name in names)
    ensures MakeOrder(name) in m && IsOutputFile(name) ==> (m[MakeOrder(name)].outputName != "" <==> name in names)
    ensures name in names ==> multiset(names + [name] + rest)[name] >= 2
  {
    DecodeFormats(name);
    FormatDecodes(MakeOrder(name));
    if name in names {
      assert name in multiset(names);
      assert multiset(names + [name] + rest) == multiset(names) + multiset{name} + multiset(rest);
    }
  }

  /** The loop body of the parser: checks one name and stores it, or says what is wrong with the listing. */
  method StoreName(ghost before: seq<string>, ghost rest: seq<string>, m: EntryMap, name: string)
    returns (updated: EntryMap, failure: Option<Rejection>)
    requires Collected(before, m)
    ensures failure.None? ==> Collected(before + [name], updated)
    ensures failure.Some? ==> Explains(before + [name] + rest, failure.value)
  {
    updated := m;
    assert name in before + [name] + rest;
    var isInput, isOutput := IsInputFile(name), IsOutputFile(name);
    if (!isInput && !isOutput) || !HasValidDigits(name) {
      assert !WellFormed(name);
      return m, Some(BadName);
    }
    DecodeFormats(name);
    var order := MakeOrder(name);
    if order <= 0 || order > MAX_ORDER {
      return m, Some(OrderOutOfRange);
    }
    DuplicateFound(before, m, rest, name);
    var entry := if order in m then m[order] else Entry("", "");
    entry, failure := SetEntryName(entry, order, isInput, name);
    if failure.None? {
      CollectOne(before, m, name, order);
      updated := m[order := entry];
    }
  }

  method Collect(names: seq<string>) returns (r: Parsed)
    ensures r.Accepted? ==> Collected(names, r.entries)
    ensures r.Rejected? ==> Explains(names, r.reason)
  {
    var m: EntryMap := map[];
    for i := 0 to |names|
      invariant Collected(names[..i], m)
    {
      assert names == names[..i] + [names[i]] + names[i + 1..];
      assert names[..i + 1] == names[..i] + [names[i]];
      var failure;
      m, failure := StoreName(names[..i], names[i + 1..], m, names[i]);
      if failure.Some? {
        return Rejected(failure.value);
      }
    }
    assert names[..|names|] == names;
    return Accepted(m);
  }

  /** The map of a complete listing: order i has its own pair. */
  function PairsUpTo(n: int): (m: EntryMap)
    requires 0 <= n <= MAX_ORDER
    ensures forall k :: k in m <==> 1 <= k <= n
  {
    map k | 1 <= k <= n :: Entry(InputName(k), OutputName(k))
  }

  predicate IsPair(e: Entry) {
    e.inputName != "" && e.outputName != ""
  }

  /** The first `i` orders of the walk were 1..i, each with a pair. */
  ghost predicate CountsUp(m: EntryMap, orders: seq<int>, i: int) {
    && 0 <= i <= |orders|
    && forall k :: 0 <= k < i ==> orders[k] == k + 1 && k + 1 in m && IsPair(m[k + 1])
  }

  /** Where the walk stops, and why. */
  ghost predicate StopsAt(m: EntryMap, orders: seq<int>, i: int, reason: Rejection) {
    && 0 <= i < |orders| && CountsUp(m, orders, i) && orders[i] in m
    && reason == (if IsPair(m[orders[i]]) then NotContinuous else MissingPair(orders[i]))
    && (IsPair(m[orders[i]]) ==> orders[i] != i + 1)
  }

  /** Walks the map in ascending order: every entry must be a pair, and the orders must count up from 1. */
  method ValidateContinuous(m: EntryMap) returns (failure: Option<Rejection>, ghost at: int)
    ensures failure.Some? ==> StopsAt(m, SortAscending(m.Keys), at, failure.value)
    ensures failure.None? ==> CountsUp(m, SortAscending(m.Keys), |SortAscending(m.Keys)|)
  {
    SortAscendingSorts(m.Keys);
    failure, at := Walk(m, SortAscending(m.Keys));
  }

  lemma CountsOneMore(m: EntryMap, orders: seq<int>, i: int)
    requires CountsUp(m, orders, i) && i < |orders| && orders[i] == i + 1 && i + 1 in m && IsPair(m[i + 1])
    ensures CountsUp(m, orders, i + 1)
  {
    forall k | 0 <= k < i + 1 ensures orders[k] == k + 1 && k + 1 in m && IsPair(m[k + 1]) {
      if k < i { assert orders[k] == k + 1; }
    }
  }

  method Walk(m: EntryMap, orders: seq<int>) returns (failure: Option<Rejection>, ghost at: int)
    requires Elements(orders) == m.Keys
    ensures failure.Some? ==> StopsAt(m, orders, at, failure.value)
    ensures failure.None? ==> CountsUp(m, orders, |orders|)
  {
    var expected := 1;
    for i := 0 to |orders|
      invariant expected == i + 1 && CountsUp(m, orders, i)
    {
      var order := orders[i];
      assert order in Elements(orders);
      if m[order].inputName == "" || m[order].outputName == "" {
        return Some(MissingPair(order)), i;
      }
      if order != expected {
        return Some(NotContinuous), i;
      }
      CountsOneMore(m, orders, i);
      expected := expected + 1;
    }
    return None, |orders|;
  }

  /** A walk that never stops has gone over 1..n. */
  lemma WalkCovers(m: EntryMap)
    requires CountsUp(m, SortAscending(m.Keys), |SortAscending(m.Keys)|)
    ensures forall k :: k in m <==> 1 <= k <= |m|
    ensures forall k | k in m :: IsPair(m[k])
  {
    var orders := SortAscending(m.Keys);
    SortAscendingSorts(m.Keys);
    DistinctSize(orders);
    assert |m| == |m.Keys| == |orders|;
    forall k ensures k in m <==> 1 <= k <= |orders| {
      if k in m { assert k in Elements(orders); }
      if 1 <= k <= |orders| { assert orders[k - 1] == k; }
    }
    forall k | k in m ensures IsPair(m[k]) {
      assert orders[k - 1] == k;
    }
  }

  /** The order before the one out of line has no entry. */
  lemma StopHasGap(m: EntryMap, i: int)
    requires StopsAt(m, SortAscending(m.Keys), i, NotContinuous)
    ensures
      var order := SortAscending(m.Keys)[i];
      order in m && order - 1 !in m && (1 <= order ==> 1 < order)
  {
    var orders := SortAscending(m.Keys);
    SortAscendingSorts(m.Keys);
    var order := orders[i];
    if i > 0 { assert orders[i - 1] < order; }
    forall j | 0 <= j < |orders| && 1 <= order ensures orders[j] != order - 1 {
      if j < i { assert orders[j] == j + 1; }
    }
    forall j | 0 <= j < |orders| && order < 1 ensures orders[j] != order - 1 {
      assert i == 0;
    }
    assert order - 1 !in Elements(orders);
  }

  /** An entry is a pair exactly when both names were listed. */
  lemma EntryIsPair(names: seq<string>, m: EntryMap, order: int)
    requires Collected(names, m) && order in m
    ensures 1 <= order <= MAX_ORDER && Listed(names, order)
    ensures IsPair(m[order]) <==> InputName(order) in names && OutputName(order) in names
    ensures IsPair(m[order]) ==> m[order] == Entry(InputName(order), OutputName(order))
  {
    FormatDecodes(order);
    assert m[order] == EntryFor(names, order);
  }

  /** Where the walk over a collected listing stops, the listing has the defect reported. */
  lemma StopExplains(names: seq<string>, m: EntryMap, i: int, reason: Rejection)
    requires Collected(names, m) && StopsAt(m, SortAscending(m.Keys), i, reason)
    ensures Explains(names, reason)
  {
    var order := SortAscending(m.Keys)[i];
    EntryIsPair(names, m, order);
    if IsPair(m[order]) {
      StopHasGap(m, i);
      assert Listed(names, order) && !Listed(names, order - 1);
    }
  }

  lemma WalkIsPairs(names: seq<string>, m: EntryMap)
    requires Collected(names, m) && CountsUp(m, SortAscending(m.Keys), |SortAscending(m.Keys)|)
    ensures |m| <= MAX_ORDER && m == PairsUpTo(|m|)
  {
    WalkCovers(m);
    if |m| > 0 {
      EntryIsPair(names, m, |m|);
    }
    forall k | k in m ensures m[k] == PairsUpTo(|m|)[k] {
      EntryIsPair(names, m, k);
    }
  }

  /**
   * The parser accepts a listing exactly when, as a multiset and so in whatever order, it is
   * {001.in, 001.out, ..., n.in, n.out} for some n up to 999; the map then sends every order to its own pair.
   * A rejection names a defect the listing has.
   */
  method Parse(names: seq<string>) returns (r: Parsed)
    ensures r.Accepted? <==> exists n :: CompleteUpTo(names, n)
    ensures r.Accepted? ==>
              |r.entries| <= MAX_ORDER && CompleteUpTo(names, |r.entries|) && r.entries == PairsUpTo(|r.entries|)
    ensures r.Rejected? ==> Explains(names, r.reason)
  {
    r := Collect(names);
    if r.Accepted? {
      var failure, at := ValidateContinuous(r.entries);
      if failure.Some? {
        StopExplains(names, r.entries, at, failure.value);
        r := Rejected(failure.value);
      } else {
        WalkIsPairs(names, r.entries);
        CollectedIsComplete(names, r.entries);
      }
    }
    if r.Rejected? {
      forall n ensures !CompleteUpTo(names, n) {
        if CompleteUpTo(names, n) { CompleteIsNotRejected(names, r.reason, n); }
      }
    }
  }

  lemma CollectedIsComplete(names: seq<string>, m: EntryMap)
    requires Collected(names, m) && |m| <= MAX_ORDER && m == PairsUpTo(|m|)
    ensures CompleteUpTo(names, |m|)
  {
    var n := |m|;
    forall name ensures name in names <==> Expects(n, name) {
      if name in names {
        assert Expects(MAX_ORDER, name);
      }
      if Expects(MAX_ORDER, name) {
        CollectedName(names, m, name);
      }
    }
    CompleteMeans(names, n);
  }

  /** With every entry a pair, a name was listed exactly when its order is in the map. */
  lemma CollectedName(names: seq<string>, m: EntryMap, name: string)
    requires Collected(names, m) && |m| <= MAX_ORDER && m == PairsUpTo(|m|) && Expects(MAX_ORDER, name)
    ensures name in names <==> MakeOrder(name) <= |m|
  {
    var order := MakeOrder(name);
    DecodeFormats(name);
    FormatDecodes(order);
    if name in names {
      assert Listed(names, order);
    }
    if order in m {
      assert m[order] == EntryFor(names, order);
    }
  }

  // ---- loading ----

  datatype Loaded = Cases(contents: seq<Content>) | Unreadable(name: string)

  predicate Readable(files: map<string, string>, m: EntryMap) {
    forall k | k in m :: m[k].inputName in files && m[k].outputName in files
  }

  /** Reads the pairs in ascending order into a growing vector; the first unreadable file ends it. */
  method Load(files: map<string, string>, m: EntryMap) returns (r: Loaded)
    ensures r.Cases? <==> Readable(files, m)
    ensures r.Cases? ==> |r.contents| == |SortAscending(m.Keys)|
    ensures r.Cases? ==> forall i :: 0 <= i < |r.contents| ==>
              && SortAscending(m.Keys)[i] in m
              && var entry := m[SortAscending(m.Keys)[i]];
              && entry.inputName in files && entry.outputName in files
              && r.contents[i] == Content(files[entry.inputName], files[entry.outputName])
    ensures r.Unreadable? ==>
              r.name !in files && exists k :: k in m && (m[k].inputName == r.name || m[k].outputName == r.name)
  {
    var orders := SortAscending(m.Keys);
    SortAscendingSorts(m.Keys);
    var contents: seq<Content> := [];
    for i := 0 to |orders|
      invariant |contents| == i
      invariant forall k :: 0 <= k < i ==>
        && orders[k] in m && m[orders[k]].inputName in files && m[orders[k]].outputName in files
        && contents[k] == Content(files[m[orders[k]].inputName], files[m[orders[k]].outputName])
    {
      assert orders[i] in Elements(orders);
      var entry := m[orders[i]];
      if entry.inputName !in files {
        return Unreadable(entry.inputName);
      }
      if entry.outputName !in files {
        return Unreadable(entry.outputName);
      }
      contents := contents + [Content(files[entry.inputName], files[entry.outputName])];
    }
    forall k | k in m ensures m[k].inputName in files && m[k].outputName in files {
      assert k in Elements(orders);
    }
    return Cases(contents);
  }

  /** The i-th testcase loaded from a complete archive comes from file pair i. */
  method LoadArchive(files: map<string, string>, names: seq<string>, n: int) returns (r: Loaded)
    requires CompleteUpTo(names, n) && forall name | name in names :: name in files
    ensures r.Cases? && |r.contents| == n
    ensures forall i :: 1 <= i <= n ==>
              && InputName(i) in files && OutputName(i) in files
              && r.contents[i - 1] == Content(files[InputName(i)], files[OutputName(i)])
  {
    var parsed := Parse(names);
    CompleteOnce(names, n, |parsed.entries|);
    ArchiveReadable(files, names, n);
    r := LoadPairs(files, n, parsed.entries);
  }

  method LoadPairs(files: map<string, string>, n: int, m: EntryMap) returns (r: Loaded)
    requires 0 <= n <= MAX_ORDER && m == PairsUpTo(n)
    requires forall k :: 1 <= k <= n ==> InputName(k) in files && OutputName(k) in files
    ensures r.Cases? && |r.contents| == n
    ensures forall i :: 1 <= i <= n ==> r.contents[i - 1] == Content(files[InputName(i)], files[OutputName(i)])
  {
    OrdersOfPairs(n);
    assert forall k | k in m :: m[k] == Entry(InputName(k), OutputName(k));
    r := Load(files, m);
    forall i | 1 <= i <= n ensures r.contents[i - 1] == Content(files[InputName(i)], files[OutputName(i)]) {
      assert SortAscending(m.Keys)[i - 1] == i;
    }
  }

  lemma ArchiveReadable(files: map<string, string>, names: seq<string>, n: int)
    requires CompleteUpTo(names, n) && forall name | name in names :: name in files
    ensures forall k :: 1 <= k <= n ==> InputName(k) in files && OutputName(k) in files
  {
    CompleteMeans(names, n);
    forall k | 1 <= k <= n ensures InputName(k) in files && OutputName(k) in files {
      NamesOf(n, k);
    }
  }

  lemma OrdersOfPairs(n: int)
    requires 0 <= n <= MAX_ORDER
    ensures SortAscending(PairsUpTo(n).Keys) == seq(n, i => i + 1)
  {
    assert PairsUpTo(n).Keys == Interval(1, n);
    SortedInterval(n);
  }

  /** A listing is complete up to one n only. */
  lemma CompleteOnce(names: seq<string>, a: int, b: int)
    requires CompleteUpTo(names, a) && CompleteUpTo(names, b)
    ensures a == b
  {
    CompleteMeans(names, a);
    CompleteMeans(names, b);
    if a > 0 { NamesOf(a, a); NamesOf(b, a); }
    if b > 0 { NamesOf(a, b); NamesOf(b, b); }
  }
}
