/**
 * The problem services as transactions on one problem's tables: every mutation, when it bumps the
 * version, and the snapshot it publishes. `Err` rolls back.
 */
module ProblemOps {
  import opened Common
  import opened FiniteSets
  import opened OrderedTable
  import opened ProblemTables
  import opened TextCounts

  const INITIAL_LIMITS := Limits(256, 1000)
  const MAX_REPLACED := 999

  predicate ValidLimits(l: Limits) {
    l.memoryMb > 0 && l.timeMs > 0
  }

  // ---- publishing ----

  function CaseAt(t: CaseTable, order: int): CaseData
    requires order in Orders(t)
  {
    OrdersOccupied(t, order);
    t[Max(IdsAt(t, order))].data
  }

  /** The testcase rows by order, as the snapshot INSERT copies them. */
  function ByOrder(t: CaseTable): PublishedCases {
    map o | o in Orders(t) :: CaseAt(t, o)
  }

  /** `publish_current_snapshot`: upsert the manifest of the current version, replace its testcase rows. */
  function Publish(p: Problem): Result<Problem> {
    if p.limits.None? then Err(NotFound)
    else Ok(p.(manifests := p.manifests[p.version := ManifestRow(p.limits.value, |p.testcases|)],
               published := p.published[p.version := ByOrder(p.testcases)]))
  }

  /** `increase_version_and_publish_current_snapshot`. */
  function BumpAndPublish(p: Problem): Result<Problem> {
    Publish(p.(version := p.version + 1))
  }

  datatype Manifest = Manifest(limits: Limits, testcases: seq<(int, Content)>)

  /** The rows of `ORDER BY testcase_order ASC`. */
  function PublishedRows(rows: PublishedCases): seq<(int, Content)> {
    var orders := SortAscending(rows.Keys);
    SortAscendingSorts(rows.Keys);
    assert forall k :: 0 <= k < |orders| ==> orders[k] in Elements(orders);
    seq(|orders|, k requires 0 <= k < |orders| => (orders[k], rows[orders[k]].content))
  }

  /** `fetch_manifest`, with its consistency check. */
  function FetchManifest(p: Problem, version: int): Result<Manifest> {
    if version <= 0 then Err(InvalidReference)
    else if version !in p.manifests then Err(NotFound)
    else
      var rows := PublishedRows(if version in p.published then p.published[version] else map[]);
      if |rows| != p.manifests[version].testcaseCount then Err(Internal)
      else Ok(Manifest(p.manifests[version].limits, rows))
  }

  // ---- problem and content ----

  function EnsureStatement(p: Problem): Statement {
    if p.statement.Some? then p.statement.value else Statement("", "", "", None, 0, 0)
  }

  function CreateProblem(title: string): Result<Problem> {
    if title == "" then Err(InvalidInput)
    else
      var p := Problem(1, title, Some(INITIAL_LIMITS), None, map[], map[], map[], map[], 1, 1);
      Publish(p.(statement := Some(EnsureStatement(p))))
  }

  function UpdateProblem(p: Problem, title: string): Result<Problem> {
    if title == "" then Err(InvalidInput) else BumpAndPublish(p.(title := title))
  }

  function SetLimits(p: Problem, l: Limits): Result<Problem> {
    if !ValidLimits(l) then Err(InvalidInput) else BumpAndPublish(p.(limits := Some(l)))
  }

  function SetStatement(
    p: Problem, description: string, inputFormat: string, outputFormat: string, note: Option<string>): Result<Problem>
  {
    if description == "" || inputFormat == "" || outputFormat == "" then Err(InvalidInput)
    else
      var st := EnsureStatement(p).(
        description := description, inputFormat := inputFormat, outputFormat := outputFormat,
        note := if note == Some("") then None else note);
      BumpAndPublish(p.(statement := Some(st)))
  }

  // ---- samples ----

  /** Creating a sample does not bump the version. */
  function CreateSample(p: Problem, c: Content): Result<Problem> {
    var st := EnsureStatement(p);
    var count := st.sampleCount + 1;
    var rows :- InsertAt(p.samples, p.nextSampleId, count, c);
    Ok(p.(statement := Some(st.(sampleCount := count)), samples := rows, nextSampleId := p.nextSampleId + 1))
  }

  function SetSample(p: Problem, order: int, c: Content): Result<Problem> {
    if order <= 0 then Err(InvalidReference)
    else
      var rows :- SetAt(p.samples, order, c);
      BumpAndPublish(p.(samples := rows))
  }

  /** Deletes the last sample; the cached count is guarded by `sample_count > 0`. */
  function DeleteSample(p: Problem): Result<Problem> {
    if Orders(p.samples) == {} then Err(ValidationError)
    else
      var last := Max(Orders(p.samples));
      if last <= 0 then Err(InvalidReference)
      else if p.statement.None? || p.statement.value.sampleCount <= 0 then Err(Conflict)
      else
        var rows := map id | id in p.samples && p.samples[id].order != last :: p.samples[id];
        BumpAndPublish(p.(samples := rows,
                          statement := Some(p.statement.value.(sampleCount := p.statement.value.sampleCount - 1))))
  }

  // ---- testcases ----

  /** One increase-count-then-insert pair. */
  function AppendCase(p: Problem, c: Content): Result<Problem> {
    if p.statement.None? then Err(NotFound)
    else
      var count := p.statement.value.testcaseCount + 1;
      if count <= 0 then Err(InvalidReference)
      else
        var rows :- InsertAt(p.testcases, p.nextCaseId, count, Measured(c));
        Ok(p.(statement := Some(p.statement.value.(testcaseCount := count)),
              testcases := rows, nextCaseId := p.nextCaseId + 1))
  }

  function CreateTestcase(p: Problem, c: Content): Result<Problem> {
    var appended :- AppendCase(p.(statement := Some(EnsureStatement(p))), c);
    BumpAndPublish(appended)
  }

  function SetTestcase(p: Problem, order: int, c: Content): Result<Problem> {
    if order <= 0 then Err(InvalidReference)
    else
      var rows :- SetAt(p.testcases, order, Measured(c));
      BumpAndPublish(p.(testcases := rows))
  }

  /** Moving onto the same position only reads. */
  function MoveTestcase(p: Problem, source: int, target: int): Result<Problem> {
    if target <= 0 then Err(ValidationError)
    else
      var rows :- Move(p.testcases, source, target);
      if source == target then Ok(p) else BumpAndPublish(p.(testcases := rows))
  }

  function DeleteTestcase(p: Problem, order: int): Result<Problem> {
    if order <= 0 then Err(InvalidReference)
    else
      var rows :- DeleteAndShift(p.testcases, order);
      if p.statement.None? || p.statement.value.testcaseCount <= 0 then Err(Conflict)
      else
        var st := p.statement.value;
        BumpAndPublish(p.(testcases := rows, statement := Some(st.(testcaseCount := st.testcaseCount - 1))))
  }

  /** Removes all testcase rows and clears the cached count. */
  function ClearCases(p: Problem): Result<Problem> {
    if p.statement.None? then Err(NotFound)
    else Ok(p.(testcases := map[], statement := Some(p.statement.value.(testcaseCount := 0))))
  }

  function DeleteAllTestcases(p: Problem): Result<Problem> {
    if |p.testcases| == 0 then Ok(p)
    else
      var cleared :- ClearCases(p);
      BumpAndPublish(cleared)
  }

  function AppendCases(p: Problem, cs: seq<Content>): Result<Problem>
    decreases |cs|
  {
    if cs == [] then Ok(p)
    else
      var first :- AppendCase(p, cs[0]);
      AppendCases(first, cs[1..])
  }

  /** Clears only when rows exist, then appends one by one. */
  function Refilled(p: Problem, cs: seq<Content>): Result<Problem> {
    var ensured := p.(statement := Some(EnsureStatement(p)));
    var cleared :- (if |p.testcases| > 0 then ClearCases(ensured) else Ok(ensured));
    AppendCases(cleared, cs)
  }

  /** Publishes only when something changed. */
  function ReplaceTestcases(p: Problem, cs: seq<Content>): Result<Problem> {
    if |cs| > MAX_REPLACED then Err(ValidationError)
    else
      var filled :- Refilled(p, cs);
      if |p.testcases| > 0 || cs != [] then BumpAndPublish(filled) else Ok(filled)
  }
}
