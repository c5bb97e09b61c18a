/** The rows of the problem schema that belong to one problem. */
module ProblemTables {
  import opened Common
  import opened OrderedTable

  datatype Limits = Limits(memoryMb: int, timeMs: int)

  /** `problem_statements`, with the two cached counts it carries. */
  datatype Statement = Statement(
    description: string,
    inputFormat: string,
    outputFormat: string,
    note: Option<string>,
    sampleCount: int,
    testcaseCount: int)

  /** The input and output of a testcase or sample, as a caller supplies them. */
  datatype Content = Content(input: string, output: string)

  /** The columns of a testcase row beside its id and order. */
  datatype CaseData = CaseData(
    content: Content,
    inputChars: int,
    inputLines: int,
    outputChars: int,
    outputLines: int)

  type CaseTable = Table<CaseData>
  type SampleTable = Table<Content>

  /** A `problem_version_manifests` row. */
  datatype ManifestRow = ManifestRow(limits: Limits, testcaseCount: int)

  /** The `problem_version_testcases` rows of one version, by their order (the rest of the primary key). */
  type PublishedCases = map<int, CaseData>

  datatype Problem = Problem(
    version: int,
    title: string,
    limits: Option<Limits>,
    statement: Option<Statement>,
    testcases: CaseTable,
    samples: SampleTable,
    manifests: map<int, ManifestRow>,
    published: map<int, PublishedCases>,
    nextCaseId: RowId,
    nextSampleId: RowId)
}
