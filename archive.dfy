/** Choosing which archive entry a download ends with (main.go:
    isRelevantSubtitle and the entry loop of downloadSubtitle; the older
    revision's loop is the same without the relevance test). Fetching and
    unzipping are not modelled: an archive is its list of entries, each with the
    outcome of opening it, creating its file and copying it out. */
module Archive {
  import opened Common
  import opened Text

  /** `irrelevantExtensions` of `isRelevantSubtitle`. */
  const IrrelevantExtensions: seq<string> := [".nfo"]

  /** A file name is relevant unless its lower-cased form ends with an
      irrelevant extension. */
  predicate Relevant(fileName: string) {
    forall k :: 0 <= k < |IrrelevantExtensions| ==> !HasSuffix(ToLower(fileName), IrrelevantExtensions[k])
  }

  /** `isRelevantSubtitle`. */
  method IsRelevantSubtitle(fileName: string) returns (isRelevant: bool)
    ensures isRelevant <==> !HasSuffix(ToLower(fileName), ".nfo")
    ensures isRelevant == Relevant(fileName)
  {
    isRelevant := true;
    var lowerCasedName := ToLower(fileName);
    for k := 0 to |IrrelevantExtensions|
      invariant isRelevant == forall m :: 0 <= m < k ==> !HasSuffix(lowerCasedName, IrrelevantExtensions[m])
    {
      if HasSuffix(lowerCasedName, IrrelevantExtensions[k]) {
        isRelevant := false;
        break;
      }
    }
    assert IrrelevantExtensions[0] == ".nfo";
  }

  /** The relevance test ignores case: a name and its lower-cased form are
      judged alike. */
  lemma RelevantIgnoresCase(fileName: string)
    ensures Relevant(fileName) <==> Relevant(ToLower(fileName))
  {
    ToLowerIdempotent(fileName);
  }

  /** `path.Join(dir, name)` without its lexical clean-up: an empty part is
      dropped, and the result is empty only when both parts are. */
  function PathJoin(dir: string, name: string): (r: string)
    ensures r == "" <==> dir == "" && name == ""
    ensures dir != "" && name != "" ==> r == dir + "/" + name
  {
    if dir == "" then name
    else if name == "" then dir
    else dir + "/" + name
  }

  /** One entry of a zip archive, with the outcome of extracting it. */
  datatype ArchiveEntry = ArchiveEntry(name: string, extraction: Outcome)

  const NoFilesInArchive := "no files in the archive"

  /** Whether the entry loop extracts an entry: with the relevance test, only
      relevant ones; without it, all of them. */
  predicate Extracted(e: ArchiveEntry, filtered: bool) {
    !filtered || Relevant(e.name)
  }

  /** What the entry loop and the test after it return, from `entries` on, when
      the destination chosen so far is `dest`. */
  function Unpack(folder: string, entries: seq<ArchiveEntry>, filtered: bool, dest: string): Result<string>
    decreases |entries|
  {
    if |entries| == 0 then
      if dest == "" then Err(NoFilesInArchive) else Ok(dest)
    else if !Extracted(entries[0], filtered) then
      Unpack(folder, entries[1..], filtered, dest)
    else if entries[0].extraction.Fail? then
      Err(entries[0].extraction.error)
    else
      Unpack(folder, entries[1..], filtered, PathJoin(folder, entries[0].name))
  }

  /** The last entry the loop extracts, if any: an extracted entry of the
      archive after which no entry is extracted. */
  function LastExtracted(entries: seq<ArchiveEntry>, filtered: bool): (r: Option<ArchiveEntry>)
    ensures r.Some? ==> Extracted(r.value, filtered)
    ensures r.Some? ==>
      exists i :: (0 <= i < |entries| && entries[i] == r.value &&
                   forall j :: i < j < |entries| ==> !Extracted(entries[j], filtered))
    decreases |entries|
  {
    if |entries| == 0 then None
    else
      var last := entries[|entries| - 1];
      if Extracted(last, filtered) then Some(last)
      else
        var init := entries[..|entries| - 1];
        var r := LastExtracted(init, filtered);
        assert forall i :: 0 <= i < |init| ==> init[i] == entries[i];
        r
  }

  /** Every entry the loop extracts is extracted without error. */
  predicate ExtractionsPass(entries: seq<ArchiveEntry>, filtered: bool) {
    forall i :: 0 <= i < |entries| && Extracted(entries[i], filtered) ==> entries[i].extraction.Pass?
  }

  /** `downloadSubtitle` (the entry loop and the test after it). */
  method DownloadSubtitle(outputFolder: string, archive: seq<ArchiveEntry>) returns (r: Result<string>)
    ensures r == Unpack(outputFolder, archive, true, "")
  {
    var outputDest := "";
    for i := 0 to |archive|
      invariant Unpack(outputFolder, archive, true, "") == Unpack(outputFolder, archive[i..], true, outputDest)
    {
      var file := archive[i];
      assert archive[i..][1..] == archive[i + 1..];
      var relevant := IsRelevantSubtitle(file.name);
      if !relevant {
        continue;
      }
      if file.extraction.Fail? {
        return Err(file.extraction.error);
      }
      outputDest := PathJoin(outputFolder, file.name);
    }
    if outputDest == "" {
      return Err(NoFilesInArchive);
    }
    return Ok(outputDest);
  }

  /** When no extraction fails, the loop ends with the last extracted entry,
      or with the destination it started from when it extracts nothing. An
      empty output folder is allowed as long as no entry name is empty (an
      empty folder joined with an empty name is the empty path, which the
      loop takes for "nothing extracted"). */
  lemma {:induction false} UnpackPicksLast(folder: string, entries: seq<ArchiveEntry>, filtered: bool, dest: string)
    requires folder != "" || forall i :: 0 <= i < |entries| ==> entries[i].name != ""
    requires ExtractionsPass(entries, filtered)
    ensures Unpack(folder, entries, filtered, dest) ==
      match LastExtracted(entries, filtered)
      case None => if dest == "" then Err(NoFilesInArchive) else Ok(dest)
      case Some(e) => Ok(PathJoin(folder, e.name))
    decreases |entries|
  {
    if |entries| > 0 {
      var next := if Extracted(entries[0], filtered) then PathJoin(folder, entries[0].name) else dest;
      assert ExtractionsPass(entries[1..], filtered) by {
        forall i | 0 <= i < |entries| - 1 && Extracted(entries[1..][i], filtered)
          ensures entries[1..][i].extraction.Pass?
        {
          assert entries[1..][i] == entries[i + 1];
        }
      }
      assert forall i :: 0 <= i < |entries| - 1 ==> entries[1..][i] == entries[i + 1];
      UnpackPicksLast(folder, entries[1..], filtered, next);
      LastExtractedOfCons(entries, filtered);
    }
  }

  /** The last extracted entry of a non-empty list is that of its tail, or its
      head when the tail extracts nothing. */
  lemma {:induction false} LastExtractedOfCons(entries: seq<ArchiveEntry>, filtered: bool)
    requires |entries| > 0
    ensures LastExtracted(entries, filtered) ==
      if LastExtracted(entries[1..], filtered).Some? then LastExtracted(entries[1..], filtered)
      else if Extracted(entries[0], filtered) then Some(entries[0])
      else None
    decreases |entries|
  {
    if |entries| > 1 {
      var init := entries[..|entries| - 1];
      assert init[1..] == entries[1..][..|entries[1..]| - 1];
      assert entries[1..][|entries[1..]| - 1] == entries[|entries| - 1];
      assert init[0] == entries[0];
      LastExtractedOfCons(init, filtered);
    }
  }

  /** The first extracted entry that fails decides the result: its error is
      returned and later entries are not looked at. */
  lemma {:induction false} UnpackStopsAtFailure(
    folder: string, entries: seq<ArchiveEntry>, filtered: bool, dest: string, i: nat)
    requires i < |entries| && Extracted(entries[i], filtered) && entries[i].extraction.Fail?
    requires ExtractionsPass(entries[..i], filtered)
    ensures Unpack(folder, entries, filtered, dest) == Err(entries[i].extraction.error)
    decreases i
  {
    if i > 0 {
      var next := if Extracted(entries[0], filtered) then PathJoin(folder, entries[0].name) else dest;
      assert entries[..i][0] == entries[0];
      var between := entries[1..][..i - 1];
      assert ExtractionsPass(between, filtered) by {
        forall k | 0 <= k < i - 1 && Extracted(between[k], filtered)
          ensures between[k].extraction.Pass?
        {
          assert between[k] == entries[..i][k + 1];
        }
      }
      UnpackStopsAtFailure(folder, entries[1..], filtered, next, i - 1);
    }
  }

  /** The download ends with the last relevant entry joined onto the output
      folder, and fails with "no files in the archive" exactly when no entry is
      relevant. */
  lemma DownloadPicksLastRelevant(outputFolder: string, archive: seq<ArchiveEntry>)
    requires outputFolder != "" || forall i :: 0 <= i < |archive| ==> archive[i].name != ""
    requires ExtractionsPass(archive, true)
    ensures Unpack(outputFolder, archive, true, "") == Err(NoFilesInArchive) <==>
      forall i :: 0 <= i < |archive| ==> !Relevant(archive[i].name)
    ensures LastExtracted(archive, true).Some? ==>
      Unpack(outputFolder, archive, true, "") == Ok(PathJoin(outputFolder, LastExtracted(archive, true).value.name))
  {
    UnpackPicksLast(outputFolder, archive, true, "");
    NoneExtractedIff(archive, true);
  }

  /** Nothing is extracted exactly when no entry qualifies. */
  lemma {:induction false} NoneExtractedIff(entries: seq<ArchiveEntry>, filtered: bool)
    ensures LastExtracted(entries, filtered).None? <==>
      forall i :: 0 <= i < |entries| ==> !Extracted(entries[i], filtered)
    decreases |entries|
  {
    if |entries| > 0 {
      var init := entries[..|entries| - 1];
      NoneExtractedIff(init, filtered);
      assert forall i :: 0 <= i < |init| ==> init[i] == entries[i];
    }
  }
}
