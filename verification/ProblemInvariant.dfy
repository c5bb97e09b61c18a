/** The invariant of one problem's tables, and what every problem operation does to the sequences it stands for. */
module ProblemInvariant {
  import opened Common
  import opened FiniteSets
  import opened OrderedTable
  import opened ProblemTables
  import opened TextCounts
  import opened ProblemOps

  // ---- the invariant ----

  /** Positions are exactly 1..n, the cached counts agree, and fresh ids are above every used one. */
  ghost predicate ContentSound(p: Problem) {
    && p.statement.Some?
    && WellOrdered(p.testcases) && p.statement.value.testcaseCount == |p.testcases|
    && WellOrdered(p.samples) && p.statement.value.sampleCount == |p.samples|
    && (forall id | id in p.testcases :: id < p.nextCaseId)
    && (forall id | id in p.samples :: id < p.nextSampleId)
    && (forall id | id in p.testcases :: p.testcases[id].data == Measured(p.testcases[id].data.content))
  }

  function Contents(data: seq<CaseData>): seq<Content> {
    seq(|data|, k requires 0 <= k < |data| => data[k].content)
  }

  /** The testcase contents in order. */
  ghost function Cases(p: Problem): seq<Content>
    requires WellOrdered(p.testcases)
  {
    Contents(Listing(p.testcases))
  }

  /** A published version is complete: its rows are exactly the orders 1..n of its manifest. */
  ghost predicate SnapshotComplete(row: ManifestRow, cases: PublishedCases) {
    row.testcaseCount >= 0 && forall o :: o in cases <==> 1 <= o <= row.testcaseCount
  }

  ghost predicate SnapshotsComplete(p: Problem) {
    && p.version >= 1
    && (forall v :: v in p.manifests <==> 1 <= v <= p.version)
    && (forall v :: v in p.published <==> 1 <= v <= p.version)
    && (forall v | v in p.manifests :: SnapshotComplete(p.manifests[v], p.published[v]))
  }

  /** What the judge would be given for the tables as they are now. */
  ghost function Live(p: Problem): Manifest
    requires WellOrdered(p.testcases) && p.limits.Some?
  {
    var cs := Cases(p);
    Manifest(p.limits.value, seq(|cs|, k requires 0 <= k < |cs| => (k + 1, cs[k])))
  }

  /** The current version's snapshot is the live content. */
  ghost predicate LivePublished(p: Problem) {
    && p.limits.Some? && ValidLimits(p.limits.value)
    && WellOrdered(p.testcases)
    && FetchManifest(p, p.version) == Ok(Live(p))
  }

  ghost predicate ProblemInv(p: Problem) {
    ContentSound(p) && SnapshotsComplete(p) && LivePublished(p)
  }

  // ---- fetching ----

  /** A complete snapshot fetches, never as inconsistent, and lists its rows in order 1..n. */
  lemma FetchComplete(p: Problem, v: int)
    requires SnapshotsComplete(p) && 1 <= v <= p.version
    ensures
      var row, cases := p.manifests[v], p.published[v];
      FetchManifest(p, v) ==
      Ok(Manifest(
           row.limits,
           seq(row.testcaseCount, k requires 0 <= k < row.testcaseCount => (k + 1, cases[k + 1].content))))
  {
    var row, cases := p.manifests[v], p.published[v];
    assert SnapshotComplete(row, cases);
    assert cases.Keys == Interval(1, row.testcaseCount);
    SortedInterval(row.testcaseCount);
    var rows := PublishedRows(cases);
    assert |rows| == row.testcaseCount;
    assert rows == seq(row.testcaseCount, k requires 0 <= k < row.testcaseCount => (k + 1, cases[k + 1].content));
  }

  /** A stored version is reported as inconsistent exactly when its rows are not as many as its manifest says. */
  lemma FetchChecksCount(p: Problem, v: int)
    requires v > 0 && v in p.manifests && v in p.published
    ensures FetchManifest(p, v) == Err(Internal) <==> |p.published[v]| != p.manifests[v].testcaseCount
    ensures FetchManifest(p, v).Ok? <==> |p.published[v]| == p.manifests[v].testcaseCount
  {
    var keys := p.published[v].Keys;
    SortAscendingSorts(keys);
    DistinctSize(SortAscending(keys));
    assert |keys| == |p.published[v]|;
  }

  // ---- publishing ----

  lemma ByOrderIs(t: CaseTable)
    requires WellOrdered(t)
    ensures |Listing(t)| == |t|
    ensures forall o :: o in ByOrder(t) <==> 1 <= o <= |t|
    ensures forall o :: 1 <= o <= |t| ==> ByOrder(t)[o] == Listing(t)[o - 1]
  {
    var ids := IdsOf(t);
    OrderedSize(t, ids);
    OrdersAre(t);
    forall o | 1 <= o <= |t| ensures ByOrder(t)[o] == Listing(t)[o - 1] {
      assert o in Orders(t);
      OrdersOccupied(t, o);
      var id := Max(IdsAt(t, o));
      assert ids[t[id].order - 1] == id;
    }
  }

  /** What one publication leaves of the content: everything but the version and the two snapshot tables. */
  ghost predicate SameContent(p: Problem, q: Problem) {
    q == p.(version := q.version, manifests := q.manifests, published := q.published)
  }

  /** Older snapshots are never altered. */
  ghost predicate KeepsSnapshots(p: Problem, q: Problem) {
    && p.version <= q.version
    && (forall v | 1 <= v <= p.version :: FetchManifest(q, v) == FetchManifest(p, v))
  }

  lemma SnapshotsChain(p: Problem, q: Problem, r: Problem)
    requires KeepsSnapshots(p, q) && KeepsSnapshots(q, r)
    ensures KeepsSnapshots(p, r)
  {
    forall v | 1 <= v <= p.version ensures FetchManifest(r, v) == FetchManifest(p, v) {
      assert FetchManifest(q, v) == FetchManifest(p, v);
    }
  }

  /**
   * Bumping and publishing always succeeds on sound content, creates exactly one new version holding the
   * live content, and alters no older one.
   */
  lemma BumpPublishes(prior: Problem, p: Problem)
    requires SnapshotsComplete(prior) && ContentSound(p)
    requires p.version == prior.version && p.manifests == prior.manifests && p.published == prior.published
    requires p.limits.Some? && ValidLimits(p.limits.value)
    ensures BumpAndPublish(p).Ok?
    ensures
      var q := BumpAndPublish(p).value;
      ProblemInv(q) && q.version == prior.version + 1 && SameContent(p, q) && KeepsSnapshots(prior, q)
  {
    BumpCompletes(prior, p);
    var q := BumpAndPublish(p).value;
    SameContentSound(p, q);
    PublishedIsLive(q);
  }

  /** The snapshot tables after a bump: one more complete version, the older ones as they were. */
  lemma BumpCompletes(prior: Problem, p: Problem)
    requires SnapshotsComplete(prior) && WellOrdered(p.testcases)
    requires p.version == prior.version && p.manifests == prior.manifests && p.published == prior.published
    requires p.limits.Some?
    ensures BumpAndPublish(p).Ok?
    ensures SnapshotsComplete(BumpAndPublish(p).value) && KeepsSnapshots(prior, BumpAndPublish(p).value)
  {
    ByOrderIs(p.testcases);
    var row := ManifestRow(p.limits.value, |p.testcases|);
    NewVersionComplete(prior, BumpAndPublish(p).value, row, ByOrder(p.testcases));
  }

  /** Adding one complete version keeps the versions complete and fetches every older one as before. */
  lemma NewVersionComplete(prior: Problem, q: Problem, row: ManifestRow, cases: PublishedCases)
    requires SnapshotsComplete(prior) && SnapshotComplete(row, cases) && q.version == prior.version + 1
    requires q.manifests == prior.manifests[q.version := row] && q.published == prior.published[q.version := cases]
    ensures SnapshotsComplete(q) && KeepsSnapshots(prior, q)
  {
    forall v | v in q.manifests ensures SnapshotComplete(q.manifests[v], q.published[v]) {
      if v != q.version { assert SnapshotComplete(prior.manifests[v], prior.published[v]); }
    }
    forall v | 1 <= v <= prior.version ensures FetchManifest(q, v) == FetchManifest(prior, v) {
      assert q.manifests[v] == prior.manifests[v] && q.published[v] == prior.published[v];
    }
  }

  lemma SameContentSound(p: Problem, q: Problem)
    requires ContentSound(p) && SameContent(p, q)
    ensures ContentSound(q)
  {
  }

  /** A snapshot just copied from the live tables fetches as the live content. */
  lemma PublishedIsLive(q: Problem)
    requires SnapshotsComplete(q) && WellOrdered(q.testcases) && q.limits.Some?
    requires q.manifests[q.version] == ManifestRow(q.limits.value, |q.testcases|)
    requires q.published[q.version] == ByOrder(q.testcases)
    ensures FetchManifest(q, q.version) == Ok(Live(q))
  {
    ByOrderIs(q.testcases);
    FetchComplete(q, q.version);
    assert FetchManifest(q, q.version).value.testcases == Live(q).testcases;
  }

  /** A change of the testcases leaves title, limits, samples and texts alone. */
  ghost predicate OnlyCases(p: Problem, q: Problem) {
    && q.title == p.title && q.limits == p.limits && q.samples == p.samples
    && p.statement.Some? && q.statement.Some?
    && q.statement.value == p.statement.value.(testcaseCount := q.statement.value.testcaseCount)
  }

  /** A change of the samples leaves title, limits, testcases and texts alone. */
  ghost predicate OnlySamples(p: Problem, q: Problem) {
    && q.title == p.title && q.limits == p.limits && q.testcases == p.testcases
    && p.statement.Some? && q.statement.Some?
    && q.statement.value == p.statement.value.(sampleCount := q.statement.value.sampleCount)
  }

  // ---- problem and content ----

  /** A new problem starts at version 1 with an empty published snapshot. */
  lemma CreateProblemSound(title: string)
    ensures CreateProblem(title).Ok? <==> title != ""
    ensures title == "" ==> CreateProblem(title) == Err(InvalidInput)
    ensures title != "" ==>
              var q := CreateProblem(title).value;
              && ProblemInv(q) && q.version == 1 && q.title == title && q.samples == map[]
              && q.statement == Some(Statement("", "", "", None, 0, 0))
              && Live(q) == Manifest(Limits(256, 1000), [])
  {
    if title != "" {
      NewProblemSound(title);
      var q := CreateProblem(title).value;
      ByOrderIs(q.testcases);
      PublishedIsLive(q);
    }
  }

  lemma NewProblemSound(title: string)
    requires title != ""
    ensures CreateProblem(title).Ok?
    ensures
      var q := CreateProblem(title).value;
      ContentSound(q) && SnapshotsComplete(q) && Listing(q.testcases) == []
  {
    var q := CreateProblem(title).value;
    var noCases: CaseTable, noSamples: SampleTable := map[], map[];
    EmptyOrdered(noCases);
    EmptyOrdered(noSamples);
    assert q.testcases == noCases && q.samples == noSamples;
    assert Orders(noCases) == {} && ByOrder(noCases) == map[];
    FirstSnapshot(q);
  }

  lemma FirstSnapshot(q: Problem)
    requires q.version == 1
    requires q.manifests == map[1 := ManifestRow(INITIAL_LIMITS, 0)] && q.published == map[1 := map[]]
    ensures SnapshotsComplete(q)
  {
    assert SnapshotComplete(q.manifests[1], q.published[1]);
  }

  /** Title, limits and statement changes keep testcases and samples and publish one new version. */
  lemma ContentChangeSound(p: Problem, q: Problem)
    requires ProblemInv(p)
    requires q == p.(title := q.title, limits := q.limits, statement := q.statement)
    requires q.limits.Some? && ValidLimits(q.limits.value) && q.statement.Some?
    requires q.statement.value.testcaseCount == p.statement.value.testcaseCount
    requires q.statement.value.sampleCount == p.statement.value.sampleCount
    ensures BumpAndPublish(q).Ok? && ProblemInv(BumpAndPublish(q).value)
    ensures KeepsSnapshots(p, BumpAndPublish(q).value) && SameContent(q, BumpAndPublish(q).value)
    ensures BumpAndPublish(q).value.version == p.version + 1
  {
    BumpPublishes(p, q);
  }

  /** Renaming fails only for an empty title, changes nothing but the title, and publishes the same content again. */
  lemma UpdateProblemSound(p: Problem, title: string)
    requires ProblemInv(p)
    ensures UpdateProblem(p, title).Ok? <==> title != ""
    ensures title == "" ==> UpdateProblem(p, title) == Err(InvalidInput)
    ensures title != "" ==>
              var q := UpdateProblem(p, title).value;
              && ProblemInv(q) && KeepsSnapshots(p, q) && q.version == p.version + 1
              && SameContent(p.(title := title), q) && Live(q) == Live(p)
  {
    if title != "" {
      ContentChangeSound(p, p.(title := title));
    }
  }

  /** Setting the limits fails only for non-positive ones, changes nothing else, and publishes them. */
  lemma SetLimitsSound(p: Problem, l: Limits)
    requires ProblemInv(p)
    ensures SetLimits(p, l).Ok? <==> l.memoryMb > 0 && l.timeMs > 0
    ensures SetLimits(p, l).Err? ==> SetLimits(p, l) == Err(InvalidInput)
    ensures l.memoryMb > 0 && l.timeMs > 0 ==>
              var q := SetLimits(p, l).value;
              && ProblemInv(q) && KeepsSnapshots(p, q) && q.version == p.version + 1
              && SameContent(p.(limits := Some(l)), q) && Live(q) == Live(p).(limits := l)
  {
    if ValidLimits(l) {
      ContentChangeSound(p, p.(limits := Some(l)));
    }
  }

  /** Setting the statement fails only for a missing text, keeps the cached counts, and stores an empty note as NULL. */
  lemma SetStatementSound(p: Problem, d: string, i: string, o: string, n: Option<string>)
    requires ProblemInv(p)
    ensures SetStatement(p, d, i, o, n).Ok? <==> d != "" && i != "" && o != ""
    ensures SetStatement(p, d, i, o, n).Err? ==> SetStatement(p, d, i, o, n) == Err(InvalidInput)
    ensures SetStatement(p, d, i, o, n).Ok? ==>
              var q := SetStatement(p, d, i, o, n).value;
              && ProblemInv(q) && KeepsSnapshots(p, q) && q.version == p.version + 1 && Live(q) == Live(p)
              && q.statement == Some(Statement(d, i, o, if n == Some("") then None else n, |p.samples|, |p.testcases|))
              && q.title == p.title && q.samples == p.samples
  {
    var st := EnsureStatement(p).(
      description := d, inputFormat := i, outputFormat := o, note := if n == Some("") then None else n);
    if d != "" && i != "" && o != "" {
      ContentChangeSound(p, p.(statement := Some(st)));
    }
  }

  // ---- samples ----

  /** A change of the samples alone keeps the live snapshot current without a bump. */
  lemma SamplesDoNotPublish(p: Problem, q: Problem)
    requires ProblemInv(p) && ContentSound(q)
    requires q.version == p.version && q.limits == p.limits && q.testcases == p.testcases
    requires q.manifests == p.manifests && q.published == p.published
    ensures ProblemInv(q) && KeepsSnapshots(p, q) && Live(q) == Live(p)
  {
    forall v ensures FetchManifest(q, v) == FetchManifest(p, v) {}
  }

  /** `create_sample` appends without bumping, and the published snapshot is still the live content. */
  lemma CreateSampleSound(p: Problem, c: Content)
    requires ProblemInv(p)
    ensures CreateSample(p, c).Ok?
    ensures
      var q := CreateSample(p, c).value;
      && ProblemInv(q) && KeepsSnapshots(p, q) && q.version == p.version && Live(q) == Live(p)
      && Listing(q.samples) == Listing(p.samples) + [c] && OnlySamples(p, q)
  {
    InsertAppends(p.samples, p.nextSampleId, c);
    SamplesDoNotPublish(p, CreateSample(p, c).value);
  }

  lemma SetSampleSound(p: Problem, order: int, c: Content)
    requires ProblemInv(p)
    ensures SetSample(p, order, c).Ok? <==> 1 <= order <= |p.samples|
    ensures SetSample(p, order, c).Err? ==>
              SetSample(p, order, c).error == if order <= 0 then InvalidReference else NotFound
    ensures SetSample(p, order, c).Ok? ==>
              var q := SetSample(p, order, c).value;
              && ProblemInv(q) && KeepsSnapshots(p, q) && q.version == p.version + 1
              && |Listing(p.samples)| == |p.samples|
              && Listing(q.samples) == Listing(p.samples)[order - 1 := c] && OnlySamples(p, q)
  {
    SetUpdates(p.samples, order, c);
    if 1 <= order <= |p.samples| {
      var rows := SetAt(p.samples, order, c).value;
      assert |rows| == |p.samples| by { assert |rows.Keys| == |p.samples.Keys|; }
      BumpPublishes(p, p.(samples := rows));
    }
  }

  /** Deleting removes the last sample, and fails exactly when there is none. */
  lemma DeleteSampleSound(p: Problem)
    requires ProblemInv(p)
    ensures DeleteSample(p).Ok? <==> |p.samples| > 0
    ensures |p.samples| == 0 ==> DeleteSample(p) == Err(ValidationError)
    ensures |p.samples| > 0 ==>
              var q := DeleteSample(p).value;
              && ProblemInv(q) && KeepsSnapshots(p, q) && q.version == p.version + 1
              && |Listing(p.samples)| == |p.samples|
              && Listing(q.samples) == Listing(p.samples)[..|p.samples| - 1] && OnlySamples(p, q)
  {
    var n := |p.samples|;
    var ids := IdsOf(p.samples);
    OrderedSize(p.samples, ids);
    if n > 0 {
      OrdersAre(p.samples);
      assert n in Orders(p.samples);
      assert Max(Orders(p.samples)) == n;
      DeleteLastRow(p.samples);
      DeleteRemoves(p.samples, n);
      var rows := DeleteAndShift(p.samples, n).value;
      assert Without(Listing(p.samples), n - 1) == Listing(p.samples)[..n - 1];
      var st := p.statement.value;
      BumpPublishes(p, p.(samples := rows, statement := Some(st.(sampleCount := st.sampleCount - 1))));
    } else {
      OrdersAre(p.samples);
      assert Orders(p.samples) == {};
    }
  }

  /** At the last position deleting needs no shift. */
  lemma DeleteLastRow(t: SampleTable)
    requires WellOrdered(t) && |t| > 0
    ensures DeleteAndShift(t, |t|) == Ok(map id | id in t && t[id].order != |t| :: t[id])
  {
    OrderedSize(t, IdsOf(t));
    PositionExists(t, |t|);
    forall id | id in t ensures t[id].order <= |t| {}
    assert DeleteAndShift(t, |t|).value == map id | id in t && t[id].order != |t| :: t[id];
  }

  // ---- testcases ----

  /** Contents of a listing whose data carry the right counts. */
  lemma CasesOf(p: Problem, cs: seq<Content>)
    requires WellOrdered(p.testcases) && |Listing(p.testcases)| == |cs|
    requires forall k :: 0 <= k < |cs| ==> Listing(p.testcases)[k].content == cs[k]
    ensures Cases(p) == cs
  {
  }

  ghost predicate OnlyCasesChanged(p: Problem, q: Problem) {
    && q.version == p.version && q.title == p.title && q.limits == p.limits && q.samples == p.samples
    && q.manifests == p.manifests && q.published == p.published && q.nextSampleId == p.nextSampleId
  }

  lemma AppendHeadTail<T>(a: seq<T>, b: seq<T>)
    requires b != []
    ensures a + [b[0]] + b[1..] == a + b
  {
  }

  /** Appending is well defined on sound content and appends. */
  lemma AppendCaseSound(p: Problem, c: Content)
    requires ContentSound(p)
    ensures AppendCase(p, c).Ok?
    ensures
      var q := AppendCase(p, c).value;
      && ContentSound(q) && Cases(q) == Cases(p) + [c] && |q.testcases| == |p.testcases| + 1
      && Listing(q.testcases) == Listing(p.testcases) + [Measured(c)]
      && OnlyCasesChanged(p, q) && OnlyCases(p, q)
  {
    InsertAppends(p.testcases, p.nextCaseId, Measured(c));
    var q := AppendCase(p, c).value;
    CasesOf(q, Cases(p) + [c]);
  }

  lemma CreateTestcaseSound(p: Problem, c: Content)
    requires ProblemInv(p)
    ensures CreateTestcase(p, c).Ok?
    ensures
      var q := CreateTestcase(p, c).value;
      && ProblemInv(q) && KeepsSnapshots(p, q) && q.version == p.version + 1
      && Cases(q) == Cases(p) + [c] && OnlyCases(p, q)
      && Listing(q.testcases) == Listing(p.testcases) + [CaseData(
           c,
           |c.input|, if c.input == "" then 0 else |Lines(c.input)|,
           |c.output|, if c.output == "" then 0 else |Lines(c.output)|)]
  {
    AppendCaseSound(p, c);
    MeasuredCounts(c);
    BumpPublishes(p, AppendCase(p, c).value);
  }

  lemma SetTestcaseSound(p: Problem, order: int, c: Content)
    requires ProblemInv(p)
    ensures SetTestcase(p, order, c).Ok? <==> 1 <= order <= |p.testcases|
    ensures SetTestcase(p, order, c).Err? ==>
              SetTestcase(p, order, c).error == if order <= 0 then InvalidReference else NotFound
    ensures SetTestcase(p, order, c).Ok? ==>
              var q := SetTestcase(p, order, c).value;
              && ProblemInv(q) && KeepsSnapshots(p, q) && q.version == p.version + 1
              && |Cases(p)| == |p.testcases| && Cases(q) == Cases(p)[order - 1 := c] && OnlyCases(p, q)
              && Listing(q.testcases) == Listing(p.testcases)[order - 1 := CaseData(
                   c,
                   |c.input|, if c.input == "" then 0 else |Lines(c.input)|,
                   |c.output|, if c.output == "" then 0 else |Lines(c.output)|)]
  {
    SetUpdates(p.testcases, order, Measured(c));
    MeasuredCounts(c);
    if 1 <= order <= |p.testcases| {
      var rows := SetAt(p.testcases, order, Measured(c)).value;
      var q := p.(testcases := rows);
      assert |rows| == |p.testcases| by { assert |rows.Keys| == |p.testcases.Keys|; }
      CasesOf(q, Cases(p)[order - 1 := c]);
      BumpPublishes(p, q);
    }
  }

  /** The move service: exact success condition, sequence meaning, and a bump only for a real move. */
  lemma MoveTestcaseSound(p: Problem, source: int, target: int)
    requires ProblemInv(p)
    ensures MoveTestcase(p, source, target).Ok? <==> 1 <= source <= |p.testcases| && 1 <= target <= |p.testcases|
    ensures MoveTestcase(p, source, target).Err? ==>
              MoveTestcase(p, source, target).error ==
              if target <= 0 then ValidationError
              else if source <= 0 then InvalidReference
              else if source > |p.testcases| then NotFound
              else Conflict
    ensures MoveTestcase(p, source, target).Ok? ==>
              var q := MoveTestcase(p, source, target).value;
              && ProblemInv(q) && KeepsSnapshots(p, q)
              && q.version == p.version + (if source == target then 0 else 1)
              && |Cases(p)| == |p.testcases| && Cases(q) == Moved(Cases(p), source - 1, target - 1) && OnlyCases(p, q)
  {
    MoveKeepsOrder(p.testcases, source, target);
    if 1 <= source <= |p.testcases| && 1 <= target <= |p.testcases| {
      var q := p.(testcases := Move(p.testcases, source, target).value);
      MovedCases(p, q, source, target);
      if source != target {
        MovedSound(p, source, target);
        BumpPublishes(p, q);
      }
    }
  }

  lemma CasesSize(p: Problem)
    requires WellOrdered(p.testcases)
    ensures |Cases(p)| == |p.testcases|
  {
    OrderedSize(p.testcases, IdsOf(p.testcases));
  }

  /** What the judge is given depends on the limits and the listed testcases only. */
  lemma LiveIsCases(p: Problem, q: Problem)
    requires WellOrdered(p.testcases) && WellOrdered(q.testcases) && p.limits.Some? && q.limits == p.limits
    requires Cases(q) == Cases(p)
    ensures Live(q) == Live(p)
  {
  }

  /** Moving a testcase and moving it back restores the testcases and publishes the original content again. */
  lemma MoveThereAndBack(p: Problem, q: Problem, source: int, target: int)
    requires ProblemInv(p) && MoveTestcase(p, source, target) == Ok(q)
    ensures MoveTestcase(q, target, source).Ok?
    ensures
      var back := MoveTestcase(q, target, source).value;
      ProblemInv(back) && Cases(back) == Cases(p) && Live(back) == Live(p) && KeepsSnapshots(p, back)
  {
    MoveTestcaseSound(p, source, target);
    assert 1 <= source <= |Cases(p)| && 1 <= target <= |Cases(p)|;
    assert Cases(q) == Moved(Cases(p), source - 1, target - 1);
    CasesSize(q);
    MoveTestcaseSound(q, target, source);
    var back := MoveTestcase(q, target, source).value;
    MovedBack(p, q, back, source, target);
    SnapshotsChain(p, q, back);
  }

  lemma MovedBack(p: Problem, q: Problem, back: Problem, source: int, target: int)
    requires WellOrdered(p.testcases) && WellOrdered(q.testcases) && WellOrdered(back.testcases)
    requires p.limits.Some? && back.limits == p.limits
    requires 1 <= source <= |Cases(p)| && 1 <= target <= |Cases(p)| && |Cases(q)| == |Cases(p)|
    requires Cases(q) == Moved(Cases(p), source - 1, target - 1)
    requires Cases(back) == Moved(Cases(q), target - 1, source - 1)
    ensures Cases(back) == Cases(p) && Live(back) == Live(p)
  {
    MoveBackSeq(Cases(p), source - 1, target - 1);
    LiveIsCases(p, back);
  }

  lemma MovedSound(p: Problem, source: int, target: int)
    requires ContentSound(p) && Move(p.testcases, source, target).Ok?
    ensures ContentSound(p.(testcases := Move(p.testcases, source, target).value))
  {
    MoveKeepsOrder(p.testcases, source, target);
    var rows := Move(p.testcases, source, target).value;
    forall id | id in rows ensures rows[id].data == Measured(rows[id].data.content) && id < p.nextCaseId {
      MoveKeepsData(p.testcases, source, target, id);
    }
  }

  lemma MovedCases(p: Problem, q: Problem, source: int, target: int)
    requires WellOrdered(p.testcases) && Move(p.testcases, source, target) == Ok(q.testcases)
    ensures WellOrdered(q.testcases) && |Cases(p)| == |p.testcases|
    ensures 1 <= source <= |p.testcases| && 1 <= target <= |p.testcases|
    ensures Cases(q) == Moved(Cases(p), source - 1, target - 1)
  {
    MoveExact(p.testcases, source, target);
    MovedContents(Listing(p.testcases), source - 1, target - 1);
  }

  lemma MovedContents(data: seq<CaseData>, i: int, j: int)
    requires 0 <= i < |data| && 0 <= j < |data|
    ensures Contents(Moved(data, i, j)) == Moved(Contents(data), i, j)
  {
    forall k | 0 <= k < |data| ensures Contents(Moved(data, i, j))[k] == Moved(Contents(data), i, j)[k] {
      MovedFrom(data, i, j, k);
      MovedFrom(Contents(data), i, j, k);
    }
  }

  lemma DeleteTestcaseSound(p: Problem, order: int)
    requires ProblemInv(p)
    ensures DeleteTestcase(p, order).Ok? <==> 1 <= order <= |p.testcases|
    ensures DeleteTestcase(p, order).Err? ==>
              DeleteTestcase(p, order).error == if order <= 0 then InvalidReference else NotFound
    ensures DeleteTestcase(p, order).Ok? ==>
              var q := DeleteTestcase(p, order).value;
              && ProblemInv(q) && KeepsSnapshots(p, q) && q.version == p.version + 1
              && |Cases(p)| == |p.testcases| && Cases(q) == Without(Cases(p), order - 1) && OnlyCases(p, q)
  {
    DeleteKeepsOrder(p.testcases, order);
    if 1 <= order <= |p.testcases| {
      var rows := DeleteAndShift(p.testcases, order).value;
      var st := p.statement.value;
      var q := p.(testcases := rows, statement := Some(st.(testcaseCount := st.testcaseCount - 1)));
      DeletedCases(p, q, order);
      BumpPublishes(p, q);
    }
  }

  lemma DeletedCases(p: Problem, q: Problem, order: int)
    requires WellOrdered(p.testcases) && DeleteAndShift(p.testcases, order) == Ok(q.testcases)
    ensures WellOrdered(q.testcases) && |Cases(p)| == |p.testcases| && 1 <= order <= |p.testcases|
    ensures Cases(q) == Without(Cases(p), order - 1)
  {
    DeleteRemoves(p.testcases, order);
    assert Contents(Without(Listing(p.testcases), order - 1)) == Without(Contents(Listing(p.testcases)), order - 1);
  }

  /** On any tables, sound or not, a deletion that commits takes one off a cached count that had one to give. */
  lemma CountsStayNonNegative(p: Problem, order: int)
    ensures DeleteSample(p).Ok? ==>
              && p.statement.Some? && DeleteSample(p).value.statement.Some?
              && 0 <= DeleteSample(p).value.statement.value.sampleCount == p.statement.value.sampleCount - 1
    ensures DeleteTestcase(p, order).Ok? ==>
              && p.statement.Some? && DeleteTestcase(p, order).value.statement.Some?
              && 0 <= DeleteTestcase(p, order).value.statement.value.testcaseCount
              && DeleteTestcase(p, order).value.statement.value.testcaseCount == p.statement.value.testcaseCount - 1
  {
  }

  lemma ClearCasesSound(p: Problem)
    requires ContentSound(p)
    ensures ClearCases(p).Ok? && ContentSound(ClearCases(p).value) && Cases(ClearCases(p).value) == []
  {
    EmptyOrdered(ClearCases(p).value.testcases);
  }

  lemma DeleteAllSound(p: Problem)
    requires ProblemInv(p)
    ensures DeleteAllTestcases(p).Ok?
    ensures
      var q := DeleteAllTestcases(p).value;
      && ProblemInv(q) && KeepsSnapshots(p, q) && Cases(q) == [] && OnlyCases(p, q)
      && q.version == p.version + (if |p.testcases| == 0 then 0 else 1)
  {
    if |p.testcases| == 0 {
      OrderedSize(p.testcases, IdsOf(p.testcases));
    } else {
      ClearCasesSound(p);
      BumpPublishes(p, ClearCases(p).value);
    }
  }

  lemma {:induction false} AppendCasesSound(p: Problem, cs: seq<Content>)
    requires ContentSound(p)
    ensures AppendCases(p, cs).Ok?
    ensures
      var q := AppendCases(p, cs).value;
      && ContentSound(q) && Cases(q) == Cases(p) + cs
      && OnlyCasesChanged(p, q) && OnlyCases(p, q)
    decreases |cs|
  {
    if cs == [] {
      assert Cases(p) + cs == Cases(p);
    } else {
      AppendCaseSound(p, cs[0]);
      var first := AppendCase(p, cs[0]).value;
      AppendCasesSound(first, cs[1..]);
      AppendHeadTail(Cases(p), cs);
    }
  }

  /** Clearing only when rows exist and then appending leaves exactly the given list. */
  lemma RefilledSound(p: Problem, cs: seq<Content>)
    requires ContentSound(p)
    ensures Refilled(p, cs).Ok?
    ensures
      var q := Refilled(p, cs).value;
      && ContentSound(q) && Cases(q) == cs && OnlyCasesChanged(p, q) && OnlyCases(p, q)
      && (|p.testcases| == 0 && cs == [] ==> q == p)
  {
    OrderedSize(p.testcases, IdsOf(p.testcases));
    ClearCasesSound(p);
    var cleared := if |p.testcases| > 0 then ClearCases(p).value else p;
    AppendCasesSound(cleared, cs);
    assert Cases(cleared) == [] && Cases(cleared) + cs == cs;
    assert p.(statement := Some(EnsureStatement(p))) == p;
  }

  /**
   * Replacing yields exactly the given list in order. Skipping the clear when no row exists is sound
   * because the cached count is then already zero.
   */
  lemma ReplaceSound(p: Problem, cs: seq<Content>)
    requires ProblemInv(p)
    ensures ReplaceTestcases(p, cs).Ok? <==> |cs| <= 999
    ensures ReplaceTestcases(p, cs).Err? ==> ReplaceTestcases(p, cs) == Err(ValidationError)
    ensures |cs| <= 999 ==>
              var q := ReplaceTestcases(p, cs).value;
              && ProblemInv(q) && KeepsSnapshots(p, q) && Cases(q) == cs && OnlyCases(p, q)
              && q.version == p.version + (if |p.testcases| == 0 && cs == [] then 0 else 1)
  {
    if |cs| <= MAX_REPLACED {
      RefilledSound(p, cs);
      if |p.testcases| > 0 || cs != [] {
        BumpPublishes(p, Refilled(p, cs).value);
      }
    }
  }
}
