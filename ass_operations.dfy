/**
 * `convert_ass_to_srt`: turning one `.ass` subtitle file into the `.srt`
 * file beside it. The converter library is an oracle: it yields the SRT
 * contents, or `None` when any step of reading, converting or exporting
 * raised.
 */
module AssOperations {
  import opened Wrappers
  import opened Paths
  import opened Files
  import opened Stats

  /** How a job ended, and the filesystem after it. */
  datatype JobResult = JobResult(outcome: Outcome, state: FsState)

  /** `ass_file.with_suffix(".srt")`. */
  function SrtOutput(ass: Path): (srt: Path)
    requires Name(ass) != ""
    ensures Parent(srt) == Parent(ass)
    ensures Name(srt) == Stem(Name(ass)) + ".srt"
  {
    WithSuffix(ass, ".srt")
  }

  /**
   * One conversion job: an existing SRT file is left alone (skipped, has
   * language); a dry run changes nothing (processed); otherwise the
   * conversion either raised (skipped, no SRT) or wrote the SRT file, after
   * which, with `cleanup`, the ASS file is unlinked. An unlink that raises is
   * caught like a conversion error.
   */
  function AssJob(s: FsState, ass: Path, cleanup: bool, dryRun: bool, conversion: Option<Bytes>): JobResult
    requires Name(ass) != ""
  {
    var srt := SrtOutput(ass);
    if s.Exists(srt) then JobResult(SkippedHasLang, s)
    else if dryRun then JobResult(Processed, s)
    else
      match conversion
      case None => JobResult(SkippedNoSrt, s)
      case Some(data) =>
        var written := Written(s, srt, data);
        if !cleanup then JobResult(Processed, written)
        else
          var e := Unlinked(written, ass);
          JobResult(if e.ok then Processed else SkippedNoSrt, e.state)
  }

  /** The names `rglob("*.ass")` yields: those ending in `.ass`, the bare name `.ass` included. */
  predicate IsAssName(name: string)
  {
    |name| >= 4 && name[|name| - 4..] == ".ass"
  }

  /**
   * An ASS file's SRT output is a different file: a name with the suffix
   * `.ass` gets `.srt` instead, and the bare name `.ass`, which has no
   * suffix, gets `.srt` appended.
   */
  lemma SrtOutputIsAnotherFile(ass: Path)
    requires IsAssName(Name(ass))
    ensures SrtOutput(ass) != ass
  {
    var name := Name(ass);
    var dot := |name| - 4;
    var i := LastIndexOf(name, '.');
    assert name[dot] == '.' && name[dot + 1] == 'a' && name[dot + 2] == 's' && name[dot + 3] == 's' by {
      assert name[dot..][0] == '.' && name[dot..][1] == 'a' && name[dot..][2] == 's' && name[dot..][3] == 's';
    }
    assert i == dot;
    if dot > 0 {
      assert Stem(name) == name[..dot];
      assert Name(SrtOutput(ass))[dot + 1] == 's' != name[dot + 1];
    } else {
      assert |Name(SrtOutput(ass))| == |name| + 4;
    }
  }

  /** Every conversion error is caught: a job always ends in one of the three outcome counters. */
  lemma AssJobNeverRaises(s: FsState, ass: Path, cleanup: bool, dryRun: bool, conversion: Option<Bytes>)
    requires Name(ass) != ""
    ensures AssJob(s, ass, cleanup, dryRun, conversion).outcome != Raised
  {
  }

  /** Which counter a job reaches. */
  lemma AssJobOutcome(s: FsState, ass: Path, cleanup: bool, dryRun: bool, conversion: Option<Bytes>)
    requires IsAssName(Name(ass))
    ensures var o := AssJob(s, ass, cleanup, dryRun, conversion).outcome;
      && (o == SkippedHasLang <==> s.Exists(SrtOutput(ass)))
      && (o == Processed <==> !s.Exists(SrtOutput(ass)) && (dryRun || (conversion.Some? && (!cleanup || ass in s.files))))
  {
    SrtOutputIsAnotherFile(ass);
  }

  /** An existing SRT file is never overwritten, and a dry run changes nothing. */
  lemma AssJobLeavesAlone(s: FsState, ass: Path, cleanup: bool, dryRun: bool, conversion: Option<Bytes>)
    requires Name(ass) != ""
    requires s.Exists(SrtOutput(ass)) || dryRun || conversion.None?
    ensures AssJob(s, ass, cleanup, dryRun, conversion).state == s
  {
  }

  /**
   * A conversion that went through: the SRT file holds the converted text,
   * and the ASS file is gone exactly when `cleanup` was asked for; no other
   * file changes.
   */
  lemma AssJobConverts(s: FsState, ass: Path, cleanup: bool, data: Bytes)
    requires IsAssName(Name(ass)) && ass in s.files
    requires !s.Exists(SrtOutput(ass))
    ensures var r := AssJob(s, ass, cleanup, false, Some(data));
      && r.outcome == Processed
      && r.state.files == (if cleanup then s.files - {ass} else s.files)[SrtOutput(ass) := data]
      && r.state.dirs == s.dirs
  {
    SrtOutputIsAnotherFile(ass);
    var srt := SrtOutput(ass);
    if cleanup {
      assert s.files[srt := data] - {ass} == (s.files - {ass})[srt := data];
    }
  }

  /** The ASS file is deleted only after its SRT file was written. */
  lemma AssDeletedOnlyAfterConversion(s: FsState, ass: Path, cleanup: bool, dryRun: bool, conversion: Option<Bytes>)
    requires IsAssName(Name(ass)) && ass in s.files
    requires ass !in AssJob(s, ass, cleanup, dryRun, conversion).state.files
    ensures cleanup && !dryRun && conversion.Some?
    ensures AssJob(s, ass, cleanup, dryRun, conversion).outcome == Processed
    ensures AssJob(s, ass, cleanup, dryRun, conversion).state.files[SrtOutput(ass)] == conversion.value
  {
    SrtOutputIsAnotherFile(ass);
  }

  /** `convert_ass_to_srt`: counts the file, then exactly one outcome, changing the filesystem as `AssJob` says. */
  method ConvertAssToSrt(fsys: FileSystem, stats: ProcessingStats, ass: Path, cleanup: bool, dryRun: bool, conversion: Option<Bytes>)
    returns (outcome: Outcome)
    requires Name(ass) != ""
    modifies fsys, stats
    ensures JobResult(outcome, fsys.State()) == AssJob(old(fsys.State()), ass, cleanup, dryRun, conversion)
    ensures stats.Snapshot() == Record(old(stats.Snapshot()), outcome)
  {
    stats.total := stats.total + 1;
    var srt := SrtOutput(ass);
    if srt in fsys.files || srt in fsys.dirs {
      stats.skippedHasLang := stats.skippedHasLang + 1;
      return SkippedHasLang;
    }
    if dryRun {
      stats.processed := stats.processed + 1;
      return Processed;
    }
    match conversion {
      case None =>
        outcome := SkippedNoSrt;
      case Some(data) =>
        fsys.Write(srt, data);
        outcome := Processed;
        if cleanup {
          var ok := fsys.Unlink(ass);
          if !ok {
            outcome := SkippedNoSrt;
          }
        }
    }
    if outcome == Processed {
      stats.processed := stats.processed + 1;
    } else {
      stats.skippedNoSrt := stats.skippedNoSrt + 1;
    }
  }
}
