/**
 * The problem services as they run on one problem's tables: statements in order, inside transactions that
 * undo them on failure. Every method is tied to the operation of `ProblemOps` it carries out.
 */
module ProblemDatabase {
  import opened Common
  import opened FiniteSets
  import opened OrderedTable
  import opened ProblemTables
  import opened TextCounts
  import opened ProblemOps
  import opened ProblemInvariant

  /** A whole transaction did what `expected` says: committed, or failed and left the tables as they were. */
  ghost predicate Commits<U>(r: Result<U>, expected: Result<Problem>, before: Problem, now: Problem) {
    Performs(r, expected, now) && (r.Err? ==> now == before)
  }

  /** Deleting the row of the last position leaves the other samples in order, and the count has one to give. */
  lemma LastSampleDeleted(p: Problem, last: int)
    requires ContentSound(p) && Orders(p.samples) != {} && last == Max(Orders(p.samples))
    ensures last == |p.samples| > 0 && |Listing(p.samples)| == |p.samples| && p.statement.value.sampleCount > 0
    ensures
      var rows := map id | id in p.samples && p.samples[id].order != last :: p.samples[id];
      && WellOrdered(rows) && |rows| == |p.samples| - 1
      && Listing(rows) == Listing(p.samples)[..|p.samples| - 1]
  {
    var n := |p.samples|;
    OrdersAre(p.samples);
    assert Max(Orders(p.samples)) in Orders(p.samples);
    assert n in Orders(p.samples);
    DeleteLastRow(p.samples);
    DeleteRemoves(p.samples, n);
    assert Without(Listing(p.samples), n - 1) == Listing(p.samples)[..n - 1];
  }

  /** What the two services below need of their operation. */
  lemma CaseDropped(p: Problem, order: int)
    requires ProblemInv(p)
    ensures DeleteTestcase(p, order).Ok? <==> 1 <= order <= |p.testcases|
    ensures DeleteTestcase(p, order).Ok? ==>
              && ProblemInv(DeleteTestcase(p, order).value) && |Cases(p)| == |p.testcases|
              && Cases(DeleteTestcase(p, order).value) == Without(Cases(p), order - 1)
  {
    DeleteTestcaseSound(p, order);
  }

  lemma CasesReplaced(p: Problem, cs: seq<Content>)
    requires ProblemInv(p)
    ensures ReplaceTestcases(p, cs).Ok? <==> |cs| <= 999
    ensures |cs| <= 999 ==>
              var q := ReplaceTestcases(p, cs).value;
              ProblemInv(q) && Cases(q) == cs && q.statement.Some? && q.statement.value.testcaseCount == |cs|
  {
    ReplaceSound(p, cs);
    if |cs| <= 999 { CasesSize(ReplaceTestcases(p, cs).value); }
  }

  class ProblemStore {
    var version: int
    var title: string
    var limits: Option<Limits>
    var statement: Option<Statement>
    var testcases: CaseTable
    var samples: SampleTable
    var manifests: map<int, ManifestRow>
    var published: map<int, PublishedCases>
    var nextCaseId: RowId
    var nextSampleId: RowId

    function View(): Problem
      reads this
    {
      Problem(version, title, limits, statement, testcases, samples, manifests, published, nextCaseId, nextSampleId)
    }

    /** The row `INSERT INTO problems` creates, before limits, statement and snapshot exist. */
    constructor (title: string)
      ensures View() == Problem(1, title, None, None, map[], map[], map[], map[], 1, 1)
    {
      version, this.title, limits, statement := 1, title, None, None;
      testcases, samples, manifests, published := map[], map[], map[], map[];
      nextCaseId, nextSampleId := 1, 1;
    }

    method Rollback(saved: Problem)
      modifies this
      ensures View() == saved
    {
      version, title, limits, statement := saved.version, saved.title, saved.limits, saved.statement;
      testcases, samples, manifests, published := saved.testcases, saved.samples, saved.manifests, saved.published;
      nextCaseId, nextSampleId := saved.nextCaseId, saved.nextSampleId;
    }

    // ---- problem_version_repository, problem_snapshot_repository ----

    /** Upserts the manifest of the current version and replaces its testcase rows. */
    method PublishCurrentSnapshot() returns (r: Result<()>)
      modifies `manifests, `published
      ensures Performs(r, Publish(old(View())), View())
    {
      if limits.None? {
        return Err(NotFound);
      }
      manifests := manifests[version := ManifestRow(limits.value, |testcases|)];
      published := published - {version};
      published := published[version := ByOrder(testcases)];
      return Ok(());
    }

    method IncreaseVersionAndPublish() returns (r: Result<int>)
      modifies `version, `manifests, `published
      ensures Performs(r, BumpAndPublish(old(View())), View())
      ensures r.Ok? ==> r.value == version == old(version) + 1
    {
      version := version + 1;
      var _ :- PublishCurrentSnapshot();
      return Ok(version);
    }

    /** Reads a published version row by row and checks the row count against its manifest. */
    method Fetch(v: int) returns (r: Result<Manifest>)
      ensures r == FetchManifest(View(), v)
    {
      if v <= 0 {
        return Err(InvalidReference);
      }
      if v !in manifests {
        return Err(NotFound);
      }
      var rows := if v in published then published[v] else map[];
      var orders := SortAscending(rows.Keys);
      SortAscendingSorts(rows.Keys);
      var cases: seq<(int, Content)> := [];
      for i := 0 to |orders|
        invariant |cases| == i
        invariant forall k :: 0 <= k < i ==> orders[k] in rows && cases[k] == (orders[k], rows[orders[k]].content)
      {
        assert orders[i] in Elements(orders);
        cases := cases + [(orders[i], rows[orders[i]].content)];
      }
      assert cases == PublishedRows(rows);
      if |cases| != manifests[v].testcaseCount {
        return Err(Internal);
      }
      return Ok(Manifest(manifests[v].limits, cases));
    }

    // ---- problem_command_service, problem_content_service ----

    method EnsureStatementRow()
      modifies `statement
      ensures View() == old(View()).(statement := Some(EnsureStatement(old(View()))))
    {
      if statement.None? {
        statement := Some(Statement("", "", "", None, 0, 0));
      }
    }

    /** Renaming publishes a new version of the same content. */
    method UpdateTitle(newTitle: string) returns (r: Result<int>)
      modifies this
      ensures Commits(r, UpdateProblem(old(View()), newTitle), old(View()), View())
      ensures r.Ok? ==> r.value == version
      ensures old(ProblemInv(View())) ==> ProblemInv(View())
    {
      var saved := View();
      if newTitle == "" {
        return Err(InvalidInput);
      }
      title := newTitle;
      if ProblemInv(saved) {
        ContentChangeSound(saved, View());
      }
      r := IncreaseVersionAndPublish();
      if r.Err? {
        Rollback(saved);
      }
    }

    method UpdateLimits(l: Limits) returns (r: Result<int>)
      modifies this
      ensures Commits(r, SetLimits(old(View()), l), old(View()), View())
      ensures r.Ok? ==> r.value == version
      ensures old(ProblemInv(View())) ==> ProblemInv(View())
    {
      var saved := View();
      if !ValidLimits(l) {
        return Err(InvalidInput);
      }
      limits := Some(l);
      if ProblemInv(saved) {
        ContentChangeSound(saved, View());
      }
      r := IncreaseVersionAndPublish();
      if r.Err? {
        Rollback(saved);
      }
    }

    /** The upsert of the texts: a new row has no samples or testcases, an existing one keeps its counts. */
    method WriteTexts(description: string, inputFormat: string, outputFormat: string, note: Option<string>)
      modifies `statement
      ensures statement.Some?
      ensures statement == Some(EnsureStatement(old(View())).(
                description := description, inputFormat := inputFormat, outputFormat := outputFormat,
                note := if note == Some("") then None else note))
    {
      EnsureStatementRow();
      statement := Some(statement.value.(
        description := description, inputFormat := inputFormat, outputFormat := outputFormat,
        note := if note == Some("") then None else note));
    }

    method UpdateStatement(description: string, inputFormat: string, outputFormat: string, note: Option<string>)
      returns (r: Result<int>)
      modifies this
      ensures Commits(r, SetStatement(old(View()), description, inputFormat, outputFormat, note), old(View()), View())
      ensures r.Ok? ==> r.value == version
      ensures old(ProblemInv(View())) ==> ProblemInv(View())
    {
      var saved := View();
      if description == "" || inputFormat == "" || outputFormat == "" {
        return Err(InvalidInput);
      }
      WriteTexts(description, inputFormat, outputFormat, note);
      if ProblemInv(saved) {
        ContentChangeSound(saved, View());
      }
      r := IncreaseVersionAndPublish();
      if r.Err? {
        Rollback(saved);
      }
    }

    // ---- samples ----

    /** Appends a sample; the version stays as it is. */
    method AddSample(c: Content) returns (r: Result<int>)
      modifies this
      ensures Commits(r, CreateSample(old(View()), c), old(View()), View())
      ensures r.Ok? ==> r.value == version == old(version)
      ensures old(ProblemInv(View())) ==> r.Ok? && ProblemInv(View())
    {
      var saved := View();
      if ProblemInv(saved) {
        CreateSampleSound(saved, c);
      }
      EnsureStatementRow();
      statement := Some(statement.value.(sampleCount := statement.value.sampleCount + 1));
      var order := statement.value.sampleCount;
      if IdsAt(samples, order) != {} {
        Rollback(saved);
        return Err(Conflict);
      }
      samples := samples[nextSampleId := Row(order, c)];
      nextSampleId := nextSampleId + 1;
      return Ok(version);
    }

    method SetSampleRow(order: int, c: Content) returns (r: Result<()>)
      modifies `samples
      ensures Performs(r, SetAt(old(samples), order, c), samples)
    {
      if IdsAt(samples, order) == {} {
        return Err(NotFound);
      }
      samples := map id | id in samples :: if samples[id].order == order then samples[id].(data := c) else samples[id];
      assert samples == SetAt(old(samples), order, c).value;
      return Ok(());
    }

    method UpdateSample(order: int, c: Content) returns (r: Result<int>)
      modifies this
      ensures Commits(r, SetSample(old(View()), order, c), old(View()), View())
      ensures r.Ok? ==> r.value == version
      ensures old(ProblemInv(View())) ==> (r.Ok? <==> 1 <= order <= |old(samples)|) && ProblemInv(View())
    {
      var saved := View();
      if ProblemInv(saved) {
        SetSampleSound(saved, order, c);
      }
      if order <= 0 {
        return Err(InvalidReference);
      }
      var written := SetSampleRow(order, c);
      if written.Ok? {
        r := IncreaseVersionAndPublish();
      } else {
        r := Err(written.error);
      }
      if r.Err? {
        Rollback(saved);
      }
    }

    /** Deletes the last sample row and counts it off. */
    method DeleteLastSample(last: int) returns (r: Result<()>)
      requires Orders(samples) != {} && last == Max(Orders(samples))
      modifies `samples, `statement
      ensures old(ContentSound(View())) ==>
                && r.Ok? && ContentSound(View()) && |old(samples)| > 0
                && |old(Listing(samples))| == |old(samples)|
                && Listing(samples) == old(Listing(samples))[..|old(samples)| - 1]
      ensures r == if old(statement).Some? && old(statement).value.sampleCount > 0 then Ok(()) else Err(Conflict)
      ensures r.Ok? ==>
                && samples == (map id | id in old(samples) && old(samples)[id].order != last :: old(samples)[id])
                && statement == Some(old(statement).value.(sampleCount := old(statement).value.sampleCount - 1))
    {
      if ContentSound(View()) {
        LastSampleDeleted(View(), last);
      }
      samples := map id | id in samples && samples[id].order != last :: samples[id];
      if statement.None? || statement.value.sampleCount <= 0 {
        return Err(Conflict);
      }
      statement := Some(statement.value.(sampleCount := statement.value.sampleCount - 1));
      return Ok(());
    }

    method DropSample() returns (r: Result<int>)
      modifies this
      ensures Commits(r, DeleteSample(old(View())), old(View()), View())
      ensures r.Ok? ==> r.value == version
      ensures old(ProblemInv(View())) ==> (r.Ok? <==> old(|samples|) > 0) && ProblemInv(View())
    {
      var saved := View();
      if ProblemInv(saved) {
        DeleteSampleSound(saved);
      }
      if Orders(samples) == {} {
        return Err(ValidationError);
      }
      var last := Max(Orders(samples));
      if last <= 0 {
        return Err(InvalidReference);
      }
      var deleted := DeleteLastSample(last);
      if deleted.Ok? {
        r := IncreaseVersionAndPublish();
      } else {
        r := Err(deleted.error);
      }
      if r.Err? {
        Rollback(saved);
      }
    }

    // ---- testcases ----

    /** Increases the cached count and inserts the row at the position it now names. */
    method AppendTestcase(c: Content) returns (r: Result<()>)
      modifies `statement, `testcases, `nextCaseId
      ensures Performs(r, AppendCase(old(View()), c), View())
    {
      if statement.None? {
        return Err(NotFound);
      }
      statement := Some(statement.value.(testcaseCount := statement.value.testcaseCount + 1));
      var order := statement.value.testcaseCount;
      if order <= 0 {
        return Err(InvalidReference);
      }
      if IdsAt(testcases, order) != {} {
        return Err(Conflict);
      }
      testcases := testcases[nextCaseId := Row(order, Measured(c))];
      nextCaseId := nextCaseId + 1;
      return Ok(());
    }

    method AddTestcase(c: Content) returns (r: Result<int>)
      modifies this
      ensures Commits(r, CreateTestcase(old(View()), c), old(View()), View())
      ensures r.Ok? ==> r.value == version
      ensures old(ProblemInv(View())) ==> r.Ok? && ProblemInv(View()) && Cases(View()) == old(Cases(View())) + [c]
    {
      var saved := View();
      if ProblemInv(saved) {
        CreateTestcaseSound(saved, c);
      }
      EnsureStatementRow();
      var appended := AppendTestcase(c);
      if appended.Ok? {
        r := IncreaseVersionAndPublish();
      } else {
        r := Err(appended.error);
      }
      if r.Err? {
        Rollback(saved);
      }
    }

    method SetTestcaseRow(order: int, c: Content) returns (r: Result<()>)
      modifies `testcases
      ensures Performs(r, SetAt(old(testcases), order, Measured(c)), testcases)
    {
      if IdsAt(testcases, order) == {} {
        return Err(NotFound);
      }
      testcases := map id | id in testcases ::
        if testcases[id].order == order then testcases[id].(data := Measured(c)) else testcases[id];
      assert testcases == SetAt(old(testcases), order, Measured(c)).value;
      return Ok(());
    }

    method UpdateTestcase(order: int, c: Content) returns (r: Result<int>)
      modifies this
      ensures Commits(r, SetTestcase(old(View()), order, c), old(View()), View())
      ensures r.Ok? ==> r.value == version
      ensures old(ProblemInv(View())) ==> (r.Ok? <==> 1 <= order <= |old(testcases)|) && ProblemInv(View())
    {
      var saved := View();
      if ProblemInv(saved) {
        SetTestcaseSound(saved, order, c);
      }
      if order <= 0 {
        return Err(InvalidReference);
      }
      var written := SetTestcaseRow(order, c);
      if written.Ok? {
        r := IncreaseVersionAndPublish();
      } else {
        r := Err(written.error);
      }
      if r.Err? {
        Rollback(saved);
      }
    }

    /** The range rotation and its check that every position of the range had a row. */
    method RotateOrders(source: int, target: int) returns (r: Result<()>)
      modifies `testcases
      ensures Performs(r, Move(old(testcases), source, target), testcases)
    {
      if source <= 0 || target <= 0 {
        return Err(InvalidReference);
      }
      if IdsAt(testcases, source) == {} {
        return Err(NotFound);
      }
      if source == target {
        return Ok(());
      }
      var low := if source < target then source else target;
      var high := if source < target then target else source;
      var affected := Between(testcases, low, high);
      testcases := map id | id in testcases ::
        if id in affected then testcases[id].(order := MovedOrder(testcases[id].order, source, target))
        else testcases[id];
      assert testcases == MoveRows(old(testcases), source, target);
      if |affected| != high - low + 1 {
        return Err(Conflict);
      }
      return Ok(());
    }

    /** Moving succeeds exactly between existing positions, and then reinserts the source row at the target. */
    method MoveCase(source: int, target: int) returns (r: Result<int>)
      modifies this
      ensures Commits(r, MoveTestcase(old(View()), source, target), old(View()), View())
      ensures r.Ok? ==> r.value == version
      ensures old(ProblemInv(View())) ==>
                && ProblemInv(View())
                && (r.Ok? <==> 1 <= source <= |old(testcases)| && 1 <= target <= |old(testcases)|)
                && (r.Ok? ==> |old(Cases(View()))| == |old(testcases)|
                              && Cases(View()) == Moved(old(Cases(View())), source - 1, target - 1))
    {
      var saved := View();
      if ProblemInv(saved) {
        MoveTestcaseSound(saved, source, target);
      }
      if target <= 0 {
        return Err(ValidationError);
      }
      var moved := RotateOrders(source, target);
      if moved.Err? {
        r := Err(moved.error);
      } else if source == target {
        r := Ok(version);
      } else {
        r := IncreaseVersionAndPublish();
      }
      if r.Err? {
        Rollback(saved);
      }
    }

    /** Deletes the row at a position and closes the gap behind it. */
    method DeleteTestcaseRow(order: int) returns (r: Result<()>)
      modifies `testcases
      ensures Performs(r, DeleteAndShift(old(testcases), order), testcases)
    {
      if IdsAt(testcases, order) == {} {
        return Err(NotFound);
      }
      testcases := map id | id in testcases && testcases[id].order != order :: testcases[id];
      testcases := map id | id in testcases ::
        if testcases[id].order > order then testcases[id].(order := testcases[id].order - 1) else testcases[id];
      assert testcases == DeleteAndShift(old(testcases), order).value;
      return Ok(());
    }

    /** After one testcase row went, the cached count agrees with the rows again. */
    method DecreaseTestcaseCount() returns (r: Result<()>)
      modifies `statement
      ensures old(statement.Some? && statement.value.testcaseCount == |testcases| + 1) ==>
                r.Ok? && statement.Some? && statement.value.testcaseCount == |testcases|
      ensures r == if old(statement).Some? && old(statement).value.testcaseCount > 0 then Ok(()) else Err(Conflict)
      ensures r.Ok? ==>
                statement == Some(old(statement).value.(testcaseCount := old(statement).value.testcaseCount - 1))
    {
      if statement.None? || statement.value.testcaseCount <= 0 {
        return Err(Conflict);
      }
      statement := Some(statement.value.(testcaseCount := statement.value.testcaseCount - 1));
      return Ok(());
    }

    method DropTestcase(order: int) returns (r: Result<int>)
      modifies this
      ensures Commits(r, DeleteTestcase(old(View()), order), old(View()), View())
      ensures r.Ok? ==> r.value == version
      ensures old(ProblemInv(View())) ==>
                && ProblemInv(View())
                && (r.Ok? <==> 1 <= order <= |old(testcases)|)
                && (r.Ok? ==> |old(Cases(View()))| == |old(testcases)|
                              && Cases(View()) == Without(old(Cases(View())), order - 1))
    {
      var saved := View();
      if ProblemInv(saved) {
        CaseDropped(saved, order);
      }
      if order <= 0 {
        return Err(InvalidReference);
      }
      var deleted := DeleteTestcaseRow(order);
      if deleted.Ok? {
        deleted := DecreaseTestcaseCount();
      }
      if deleted.Ok? {
        r := IncreaseVersionAndPublish();
      } else {
        r := Err(deleted.error);
      }
      if r.Err? {
        Rollback(saved);
      }
    }

    method ClearTestcases() returns (r: Result<()>)
      modifies `testcases, `statement
      ensures Performs(r, ClearCases(old(View())), View())
    {
      testcases := map[];
      if statement.None? {
        return Err(NotFound);
      }
      statement := Some(statement.value.(testcaseCount := 0));
      return Ok(());
    }

    method DropAllTestcases() returns (r: Result<int>)
      modifies this
      ensures Commits(r, DeleteAllTestcases(old(View())), old(View()), View())
      ensures r.Ok? ==> r.value == version
      ensures old(ProblemInv(View())) ==> r.Ok? && ProblemInv(View()) && Cases(View()) == []
    {
      var saved := View();
      if ProblemInv(saved) {
        DeleteAllSound(saved);
      }
      if |testcases| <= 0 {
        return Ok(version);
      }
      var cleared := ClearTestcases();
      if cleared.Ok? {
        r := IncreaseVersionAndPublish();
      } else {
        r := Err(cleared.error);
      }
      if r.Err? {
        Rollback(saved);
      }
    }

    /**
     * The loop of `replace_testcases`: one count increase and one insert per given testcase. The last count is
     * returned, and zero when there was none.
     */
    method AppendAll(cs: seq<Content>) returns (r: Result<int>)
      modifies `statement, `testcases, `nextCaseId
      ensures Performs(r, AppendCases(old(View()), cs), View())
      ensures r.Ok? && cs == [] ==> r.value == 0
      ensures r.Ok? && cs != [] ==> statement.Some? && r.value == statement.value.testcaseCount
    {
      var count := 0;
      for i := 0 to |cs|
        invariant AppendCases(View(), cs[i..]) == AppendCases(old(View()), cs)
        invariant if i == 0 then count == 0 else statement.Some? && count == statement.value.testcaseCount
      {
        assert cs[i..] != [] && cs[i..][0] == cs[i] && cs[i..][1..] == cs[i + 1..];
        var _ :- AppendTestcase(cs[i]);
        count := statement.value.testcaseCount;
      }
      return Ok(count);
    }

    method Refill(cs: seq<Content>) returns (r: Result<int>)
      modifies `statement, `testcases, `nextCaseId
      ensures Performs(r, Refilled(old(View()), cs), View())
      ensures r.Ok? && cs == [] ==> r.value == 0
      ensures r.Ok? && cs != [] ==> statement.Some? && r.value == statement.value.testcaseCount
    {
      EnsureStatementRow();
      if |testcases| > 0 {
        var _ :- ClearTestcases();
      }
      r := AppendAll(cs);
    }

    /** Replacing leaves exactly the given testcases in the given order, and returns their number and the version. */
    method ReplaceAll(cs: seq<Content>) returns (r: Result<(int, int)>)
      modifies this
      ensures Commits(r, ReplaceTestcases(old(View()), cs), old(View()), View())
      ensures r.Ok? ==> r.value.1 == version
      ensures old(ProblemInv(View())) ==>
                && ProblemInv(View())
                && (r.Ok? <==> |cs| <= 999)
                && (r.Ok? ==> Cases(View()) == cs && r.value.0 == |cs|)
    {
      var saved := View();
      if ProblemInv(saved) {
        CasesReplaced(saved, cs);
      }
      if |cs| > MAX_REPLACED {
        return Err(ValidationError);
      }
      var changes := |testcases| > 0 || cs != [];
      var filled := Refill(cs);
      if filled.Err? {
        Rollback(saved);
        return Err(filled.error);
      }
      if changes {
        var published := IncreaseVersionAndPublish();
        if published.Err? {
          Rollback(saved);
          return Err(published.error);
        }
      }
      return Ok((filled.value, version));
    }
  }

  /** `create_problem`: the problem row, its limits and statement, and the first snapshot. */
  method CreateStored(title: string) returns (r: Result<ProblemStore>)
    ensures r.Ok? <==> CreateProblem(title).Ok?
    ensures r.Ok? ==> fresh(r.value) && CreateProblem(title) == Ok(r.value.View()) && ProblemInv(r.value.View())
    ensures r.Err? ==> CreateProblem(title) == Err(r.error)
  {
    CreateProblemSound(title);
    if title == "" {
      return Err(InvalidInput);
    }
    var store := new ProblemStore(title);
    store.limits := Some(INITIAL_LIMITS);
    store.EnsureStatementRow();
    var _ := store.PublishCurrentSnapshot();
    return Ok(store);
  }
}
