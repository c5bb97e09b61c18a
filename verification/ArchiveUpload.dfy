/** Uploading a testcase archive: its listing is parsed, its files are loaded, and they replace the testcases. */
module ArchiveUpload {
  import opened Common
  import opened ProblemTables
  import opened ProblemInvariant
  import opened ProblemDatabase
  import opened FiniteSets
  import opened ArchiveNames

  datatype Archive =
    | Readable(contents: seq<Content>)
    | BadArchive(reason: Rejection)
    | UnreadableFile(name: string)

  /** Testcase i is what the files i.in and i.out hold. */
  ghost predicate FromPairs(files: map<string, string>, contents: seq<Content>) {
    && |contents| <= 999
    && forall i :: 1 <= i <= |contents| ==>
         && InputName(i) in files && OutputName(i) in files
         && contents[i - 1] == Content(files[InputName(i)], files[OutputName(i)])
  }

  /** The pairs 1..n hold exactly the names a listing complete up to n must have. */
  lemma PairsHoldExpected(files: map<string, string>, n: int)
    requires 0 <= n <= MAX_ORDER
    ensures (forall k | k in PairsUpTo(n) :: InputName(k) in files && OutputName(k) in files) <==>
            (forall name | Expects(n, name) :: name in files)
  {
    if forall k | k in PairsUpTo(n) :: InputName(k) in files && OutputName(k) in files {
      forall name | Expects(n, name) ensures name in files {
        DecodeFormats(name);
        assert MakeOrder(name) in PairsUpTo(n);
      }
    }
    if forall name | Expects(n, name) :: name in files {
      forall k | k in PairsUpTo(n) ensures InputName(k) in files && OutputName(k) in files {
        NamesOf(n, k);
      }
    }
  }

  /** Loads the pairs 1..n; a file that cannot be read is one of theirs. */
  method LoadUpTo(files: map<string, string>, n: int, m: EntryMap) returns (r: Loaded)
    requires 0 <= n <= MAX_ORDER && m == PairsUpTo(n)
    ensures r.Cases? <==> forall name | Expects(n, name) :: name in files
    ensures r.Cases? ==> |r.contents| == n && FromPairs(files, r.contents)
    ensures r.Unreadable? ==> r.name !in files && Expects(n, r.name)
  {
    OrdersOfPairs(n);
    r := Load(files, m);
    assert forall k | k in m :: m[k] == Entry(InputName(k), OutputName(k));
    PairsHoldExpected(files, n);
    if r.Cases? {
      forall i | 1 <= i <= n
        ensures InputName(i) in files && OutputName(i) in files
        ensures r.contents[i - 1] == Content(files[InputName(i)], files[OutputName(i)])
      {
        assert SortAscending(m.Keys)[i - 1] == i;
      }
    } else {
      var k :| k in m && (m[k].inputName == r.name || m[k].outputName == r.name);
      NamesOf(n, k);
    }
  }

  /** The testcases of an archive: one per file pair of a listing that is complete up to some n. */
  method ReadArchive(files: map<string, string>, names: seq<string>) returns (r: Archive)
    ensures r.BadArchive? <==> !exists n :: CompleteUpTo(names, n)
    ensures r.BadArchive? ==> Explains(names, r.reason)
    ensures r.UnreadableFile? ==> r.name in names && r.name !in files
    ensures r.Readable? ==>
              && CompleteUpTo(names, |r.contents|) && FromPairs(files, r.contents)
              && forall name | name in names :: name in files
  {
    var parsed := Parse(names);
    if parsed.Rejected? {
      return BadArchive(parsed.reason);
    }
    var n := |parsed.entries|;
    CompleteMeans(names, n);
    var loaded := LoadUpTo(files, n, parsed.entries);
    return match loaded
      case Cases(contents) => Readable(contents)
      case Unreadable(name) => UnreadableFile(name);
  }

  /**
   * On a sound problem every archive that can be read is stored, since none is too long: its testcases are then the
   * file pairs in order, and their number is returned with the new version. No other archive changes anything.
   */
  method Upload(store: ProblemStore, files: map<string, string>, names: seq<string>)
    returns (archive: Archive, r: Result<(int, int)>)
    requires ProblemInv(store.View())
    modifies store
    ensures ProblemInv(store.View())
    ensures r.Ok? <==> archive.Readable?
    ensures archive.BadArchive? <==> !exists n :: CompleteUpTo(names, n)
    ensures archive.UnreadableFile? ==> archive.name in names && archive.name !in files
    ensures r.Ok? ==>
              && CompleteUpTo(names, r.value.0) && r.value.1 == store.version
              && |ProblemInvariant.Cases(store.View())| == r.value.0
              && FromPairs(files, ProblemInvariant.Cases(store.View()))
    ensures r.Err? ==> store.View() == old(store.View())
  {
    archive := ReadArchive(files, names);
    if !archive.Readable? {
      return archive, Err(ValidationError);
    }
    r := store.ReplaceAll(archive.contents);
  }
}
