/**
 * The commands `run`, `export` and `to-srt`: resolving their options against
 * the configuration file, the per-file jobs of `run` and `export`, and the
 * sequential loops over the files found under the root.
 *
 * Per-file behaviour of the container library is given by oracles: for
 * `run`, a `Container` per file (its probe result and what merging does);
 * for `export`, whether a container has an embedded track in a language;
 * for `to-srt`, the converter's result per file.
 */
module Cli {
  import opened Wrappers
  import opened Text
  import opened Paths
  import opened Files
  import opened Stats
  import opened LanguageUtils
  import opened MkvOperations
  import opened AssOperations

  // ----- the `run` job -----

  /** The arguments `process_single_mkv` gets besides the file, its stats and the verbosity. */
  datatype MergeSettings = MergeSettings(
    langCheck: string,
    langSet: string,
    root: Path,
    outputDir: Option<Path>,
    ignoreMuxErrors: bool,
    dryRun: bool)

  /** What the container library does with one file: its probe result and what merging a track into it does. */
  datatype Container = Container(probe: Option<seq<Track>>, mux: MuxOutcome)

  /** Where `process_single_mkv` writes. */
  function MergeTarget(mkv: Path, cfg: MergeSettings): Path
  {
    OutputPath(mkv, cfg.root, cfg.outputDir)
  }

  /** The filesystem after `compute_output_path` has created the output directories, and whether that raised. */
  function Prepared(s: FsState, mkv: Path, cfg: MergeSettings): Effect
  {
    if cfg.outputDir.None? then Effect(true, s) else MadeDirs(s, Parent(MergeTarget(mkv, cfg)))
  }

  /** The job gets as far as the merge itself. */
  ghost predicate ReachesMux(s: FsState, mkv: Path, cfg: MergeSettings, c: Container, natLe: (Path, Path) -> bool)
    requires Name(mkv) != "" && TotalOrder(natLe)
  {
    && !HasLanguageInSet(cfg.langSet, ProbedLanguages(c.probe))
    && FindSrtFile(s, mkv, cfg.langCheck, natLe).Some?
    && Prepared(s, mkv, cfg).ok
    && !cfg.dryRun
  }

  /**
   * The part of `process_single_mkv` after a sidecar was found: compute the
   * output path (creating its directory, which may raise), stop there on a
   * dry run, and otherwise merge, writing through `tmp` as
   * `mux_with_subtitle` does.
   */
  function MergeStep(s: FsState, mkv: Path, cfg: MergeSettings, mux: MuxOutcome, tmp: Path): JobResult
  {
    var made := Prepared(s, mkv, cfg);
    if !made.ok then JobResult(Raised, made.state)
    else if cfg.dryRun then JobResult(Processed, made.state)
    else
      var e := MuxProtocol(made.state, mkv, MergeTarget(mkv, cfg), tmp, mux, cfg.ignoreMuxErrors);
      JobResult(if e.ok then Processed else Raised, e.state)
  }

  /**
   * `process_single_mkv`: skip when the container already has a subtitle in
   * the language to set; skip when no sidecar is found; otherwise `MergeStep`.
   */
  function MergeJob(s: FsState, mkv: Path, cfg: MergeSettings, c: Container, natLe: (Path, Path) -> bool, tmp: Path): JobResult
    requires Name(mkv) != "" && TotalOrder(natLe)
  {
    if HasLanguageInSet(cfg.langSet, ProbedLanguages(c.probe)) then JobResult(SkippedHasLang, s)
    else SidecarStep(s, mkv, cfg, c.mux, natLe, tmp)
  }

  /** The part of `process_single_mkv` after the language check: skip when no sidecar is found, else `MergeStep`. */
  function SidecarStep(s: FsState, mkv: Path, cfg: MergeSettings, mux: MuxOutcome, natLe: (Path, Path) -> bool, tmp: Path): JobResult
    requires Name(mkv) != "" && TotalOrder(natLe)
  {
    if FindSrtFile(s, mkv, cfg.langCheck, natLe).None? then JobResult(SkippedNoSrt, s)
    else MergeStep(s, mkv, cfg, mux, tmp)
  }

  /** `MergeStep` on the filesystem. */
  method PerformMergeStep(fsys: FileSystem, mkv: Path, cfg: MergeSettings, mux: MuxOutcome)
    returns (outcome: Outcome, tmp: Path)
    modifies fsys
    ensures !cfg.dryRun && Prepared(old(fsys.State()), mkv, cfg).ok ==>
      ValidTemp(Prepared(old(fsys.State()), mkv, cfg).state, mkv, MergeTarget(mkv, cfg), tmp)
    ensures JobResult(outcome, fsys.State()) == MergeStep(old(fsys.State()), mkv, cfg, mux, tmp)
  {
    tmp := mkv;
    var ok, target := ComputeOutputPath(fsys, mkv, cfg.root, cfg.outputDir);
    if !ok {
      return Raised, tmp;
    }
    if cfg.dryRun {
      return Processed, tmp;
    }
    ok, tmp := MuxWithSubtitle(fsys, mkv, target, mux, cfg.ignoreMuxErrors);
    outcome := if ok then Processed else Raised;
  }

  /**
   * `process_single_mkv` on the filesystem and the shared counters: `total`
   * is counted first, and the counter of the outcome once the job has one.
   */
  method ProcessSingleMkv(fsys: FileSystem, stats: ProcessingStats, mkv: Path, cfg: MergeSettings, c: Container, natLe: (Path, Path) -> bool)
    returns (outcome: Outcome, tmp: Path)
    requires Name(mkv) != "" && TotalOrder(natLe)
    modifies fsys, stats
    ensures ReachesMux(old(fsys.State()), mkv, cfg, c, natLe) ==>
      ValidTemp(Prepared(old(fsys.State()), mkv, cfg).state, mkv, MergeTarget(mkv, cfg), tmp)
    ensures JobResult(outcome, fsys.State()) == MergeJob(old(fsys.State()), mkv, cfg, c, natLe, tmp)
    ensures stats.Snapshot() == Record(old(stats.Snapshot()), outcome)
  {
    ghost var before := stats.Snapshot();
    stats.total := stats.total + 1;
    ghost var counted := stats.Snapshot();
    tmp := mkv;
    var langs := ProbeSubtitleLanguages(c.probe);
    if HasLanguageInSet(cfg.langSet, langs) {
      outcome := SkippedHasLang;
    } else {
      outcome, tmp := PerformSidecarStep(fsys, mkv, cfg, c.mux, natLe);
    }
    assert stats.Snapshot() == counted;
    stats.Count(outcome);
    assert stats.Snapshot() == Record(before, outcome);
  }

  /** `SidecarStep` on the filesystem. */
  method PerformSidecarStep(fsys: FileSystem, mkv: Path, cfg: MergeSettings, mux: MuxOutcome, natLe: (Path, Path) -> bool)
    returns (outcome: Outcome, tmp: Path)
    requires Name(mkv) != "" && TotalOrder(natLe)
    modifies fsys
    ensures FindSrtFile(old(fsys.State()), mkv, cfg.langCheck, natLe).Some? && !cfg.dryRun && Prepared(old(fsys.State()), mkv, cfg).ok ==>
      ValidTemp(Prepared(old(fsys.State()), mkv, cfg).state, mkv, MergeTarget(mkv, cfg), tmp)
    ensures JobResult(outcome, fsys.State()) == SidecarStep(old(fsys.State()), mkv, cfg, mux, natLe, tmp)
  {
    tmp := mkv;
    var srt := FindSrtFile(fsys.State(), mkv, cfg.langCheck, natLe);
    if srt.None? {
      return SkippedNoSrt, tmp;
    }
    outcome, tmp := PerformMergeStep(fsys, mkv, cfg, mux);
  }

  /** Which counter a `run` job reaches: exactly one branch is taken. */
  lemma MergeJobOutcome(s: FsState, mkv: Path, cfg: MergeSettings, c: Container, natLe: (Path, Path) -> bool, tmp: Path)
    requires Name(mkv) != "" && TotalOrder(natLe)
    ensures var o := MergeJob(s, mkv, cfg, c, natLe, tmp).outcome;
      && (o == SkippedHasLang <==> HasLanguageInSet(cfg.langSet, ProbedLanguages(c.probe)))
      && (o == SkippedNoSrt <==> !HasLanguageInSet(cfg.langSet, ProbedLanguages(c.probe)) && FindSrtFile(s, mkv, cfg.langCheck, natLe).None?)
      && (o == Processed && cfg.dryRun ==> Prepared(s, mkv, cfg).ok)
      && (o == Raised ==> !cfg.dryRun || !Prepared(s, mkv, cfg).ok)
  {
  }

  /** A container that cannot be probed counts as having no subtitles, so it is never skipped for having the language. */
  lemma ProbeFailureNeverSkipsForLanguage(s: FsState, mkv: Path, cfg: MergeSettings, mux: MuxOutcome, natLe: (Path, Path) -> bool, tmp: Path)
    requires Name(mkv) != "" && TotalOrder(natLe)
    ensures MergeJob(s, mkv, cfg, Container(None, mux), natLe, tmp).outcome != SkippedHasLang
  {
    NothingInEmptySet(cfg.langSet);
  }

  /** Skipped files are not touched. */
  lemma SkippedJobChangesNothing(s: FsState, mkv: Path, cfg: MergeSettings, c: Container, natLe: (Path, Path) -> bool, tmp: Path)
    requires Name(mkv) != "" && TotalOrder(natLe)
    requires MergeJob(s, mkv, cfg, c, natLe, tmp).outcome in {SkippedHasLang, SkippedNoSrt}
    ensures MergeJob(s, mkv, cfg, c, natLe, tmp).state == s
  {
  }

  /** A dry run writes no file; it may still create the output directories. */
  lemma DryRunWritesNoFile(s: FsState, mkv: Path, cfg: MergeSettings, mux: MuxOutcome, tmp: Path)
    requires cfg.dryRun
    ensures MergeStep(s, mkv, cfg, mux, tmp).state.files == s.files
    ensures s.dirs <= MergeStep(s, mkv, cfg, mux, tmp).state.dirs
  {
  }

  /** Merging in place (no output directory) with a successful merge replaces the container by the merged file, and only it. */
  lemma MergeJobInPlace(s: FsState, mkv: Path, cfg: MergeSettings, c: Container, natLe: (Path, Path) -> bool, tmp: Path)
    requires Name(mkv) != "" && TotalOrder(natLe)
    requires cfg.outputDir.None? && c.mux.Muxed? && mkv in s.files && mkv !in s.dirs
    requires ReachesMux(s, mkv, cfg, c, natLe) && ValidTemp(s, mkv, mkv, tmp)
    ensures MergeJob(s, mkv, cfg, c, natLe, tmp) == JobResult(Processed, FsState(s.files[mkv := c.mux.result], s.dirs))
  {
    InPlaceSuccess(s, mkv, tmp, c.mux.result, cfg.ignoreMuxErrors);
  }

  /** With an output directory elsewhere, the container itself is never changed, whatever happens. */
  lemma MergeStepKeepsSourceWithOutputDir(s: FsState, mkv: Path, cfg: MergeSettings, mux: MuxOutcome, tmp: Path)
    requires cfg.outputDir.Some? && MergeTarget(mkv, cfg) != mkv && mkv in s.files
    requires !cfg.dryRun && Prepared(s, mkv, cfg).ok ==> ValidTemp(Prepared(s, mkv, cfg).state, mkv, MergeTarget(mkv, cfg), tmp)
    ensures var r := MergeStep(s, mkv, cfg, mux, tmp);
      mkv in r.state.files && r.state.files[mkv] == s.files[mkv]
  {
    var made := Prepared(s, mkv, cfg);
    if made.ok && !cfg.dryRun {
      SeparateOutputKeepsContainer(made.state, mkv, MergeTarget(mkv, cfg), mux, cfg.ignoreMuxErrors);
    }
  }

  // ----- the `export` job -----

  /** The language found for a container: an existing sidecar, or an embedded track. */
  predicate ExportHit(s: FsState, mkv: Path, lang: string, natLe: (Path, Path) -> bool, hasTrack: (Path, string) -> bool)
    requires Name(mkv) != "" && TotalOrder(natLe)
  {
    FindSrtFile(s, mkv, lang, natLe).Some? || hasTrack(mkv, lang)
  }

  /**
   * `process_single_mkv_export`: the languages are tried in priority order;
   * the first with an existing sidecar ends the job as skipped, the first
   * with an embedded track as processed; when none hits it is skipped as
   * not found.
   */
  function ExportOutcome(s: FsState, mkv: Path, priority: seq<string>, natLe: (Path, Path) -> bool, hasTrack: (Path, string) -> bool): Outcome
    requires Name(mkv) != "" && TotalOrder(natLe)
    decreases priority
  {
    if priority == [] then SkippedNoSrt
    else if FindSrtFile(s, mkv, priority[0], natLe).Some? then SkippedHasLang
    else if hasTrack(mkv, priority[0]) then Processed
    else ExportOutcome(s, mkv, priority[1..], natLe, hasTrack)
  }

  /** An export job never raises. */
  lemma {:induction false} ExportNeverRaises(s: FsState, mkv: Path, priority: seq<string>, natLe: (Path, Path) -> bool, hasTrack: (Path, string) -> bool)
    requires Name(mkv) != "" && TotalOrder(natLe)
    ensures ExportOutcome(s, mkv, priority, natLe, hasTrack) != Raised
    decreases priority
  {
    if priority != [] {
      ExportNeverRaises(s, mkv, priority[1..], natLe, hasTrack);
    }
  }

  /** An export job is skipped as not found exactly when no language in the priority list hits. */
  lemma {:induction false} ExportNotFoundIff(s: FsState, mkv: Path, priority: seq<string>, natLe: (Path, Path) -> bool, hasTrack: (Path, string) -> bool)
    requires Name(mkv) != "" && TotalOrder(natLe)
    ensures ExportOutcome(s, mkv, priority, natLe, hasTrack) == SkippedNoSrt <==>
      forall k :: 0 <= k < |priority| ==> !ExportHit(s, mkv, priority[k], natLe, hasTrack)
    decreases priority
  {
    if priority != [] {
      var rest := priority[1..];
      ExportNotFoundIff(s, mkv, rest, natLe, hasTrack);
      assert forall k :: 0 < k < |priority| ==> priority[k] == rest[k - 1];
    }
  }

  /**
   * The first language in the priority list that hits decides the outcome: a
   * sidecar for it means skipped, an embedded track processed.
   */
  lemma {:induction false} ExportFirstHitDecides(s: FsState, mkv: Path, priority: seq<string>, natLe: (Path, Path) -> bool, hasTrack: (Path, string) -> bool, i: nat)
    requires Name(mkv) != "" && TotalOrder(natLe)
    requires i < |priority| && ExportHit(s, mkv, priority[i], natLe, hasTrack)
    requires forall k :: 0 <= k < i ==> !ExportHit(s, mkv, priority[k], natLe, hasTrack)
    ensures ExportOutcome(s, mkv, priority, natLe, hasTrack) ==
      (if FindSrtFile(s, mkv, priority[i], natLe).Some? then SkippedHasLang else Processed)
    decreases i
  {
    if i > 0 {
      var rest := priority[1..];
      assert !ExportHit(s, mkv, priority[0], natLe, hasTrack);
      assert rest[i - 1] == priority[i];
      forall k | 0 <= k < i - 1
        ensures !ExportHit(s, mkv, rest[k], natLe, hasTrack)
      {
        assert rest[k] == priority[k + 1];
      }
      ExportFirstHitDecides(s, mkv, rest, natLe, hasTrack, i - 1);
    }
  }

  /** The sidecar an extraction writes: `<containerStem>.<lang><ext>` beside the container. */
  function ExtractTarget(mkv: Path, lang: string, ext: string): (p: Path)
    requires Name(mkv) != ""
    ensures Parent(p) == Parent(mkv) && Name(p) == Stem(Name(mkv)) + "." + lang + ext
  {
    Child(Parent(mkv), Stem(Name(mkv)) + "." + lang + ext)
  }

  /**
   * The filesystem after `extract_subtitle_from_mkv`. The extraction is given
   * as its result: `None` when the extraction or the copy fails (reported,
   * nothing written), otherwise the extension the track's codec maps to and
   * the extracted data, copied over any file of that name. A directory at
   * that name makes the copy fail.
   */
  function Extracted(s: FsState, mkv: Path, lang: string, extraction: Option<(string, Bytes)>): FsState
    requires Name(mkv) != ""
  {
    match extraction
    case None => s
    case Some((ext, data)) =>
      var target := ExtractTarget(mkv, lang, ext);
      if target in s.dirs then s else Written(s, target, data)
  }

  /** `extract_subtitle_from_mkv` on the filesystem. */
  method ExtractSubtitleFromMkv(fsys: FileSystem, mkv: Path, lang: string, extraction: Option<(string, Bytes)>)
    requires Name(mkv) != ""
    modifies fsys
    ensures fsys.State() == Extracted(old(fsys.State()), mkv, lang, extraction)
  {
    if extraction.Some? {
      var (ext, data) := extraction.value;
      var target := ExtractTarget(mkv, lang, ext);
      if target !in fsys.dirs {
        fsys.Write(target, data);
      }
    }
  }

  /**
   * `process_single_mkv_export` on the filesystem: the job `ExportOutcome`
   * describes, where the language that finds an embedded track has it
   * extracted, except on a dry run. `extract(mkv, lang)` is that extraction.
   */
  function ExportJob(s: FsState, mkv: Path, priority: seq<string>, dryRun: bool, natLe: (Path, Path) -> bool,
                     hasTrack: (Path, string) -> bool, extract: (Path, string) -> Option<(string, Bytes)>): JobResult
    requires Name(mkv) != "" && TotalOrder(natLe)
    decreases priority
  {
    if priority == [] then JobResult(SkippedNoSrt, s)
    else if FindSrtFile(s, mkv, priority[0], natLe).Some? then JobResult(SkippedHasLang, s)
    else if hasTrack(mkv, priority[0]) then
      JobResult(Processed, if dryRun then s else Extracted(s, mkv, priority[0], extract(mkv, priority[0])))
    else ExportJob(s, mkv, priority[1..], dryRun, natLe, hasTrack, extract)
  }

  /**
   * An export job ends with the outcome `ExportOutcome` picks, and leaves the
   * filesystem as it was unless it extracted a track, which a dry run never does.
   */
  lemma {:induction false} ExportJobOutcome(s: FsState, mkv: Path, priority: seq<string>, dryRun: bool, natLe: (Path, Path) -> bool,
                                            hasTrack: (Path, string) -> bool, extract: (Path, string) -> Option<(string, Bytes)>)
    requires Name(mkv) != "" && TotalOrder(natLe)
    ensures ExportJob(s, mkv, priority, dryRun, natLe, hasTrack, extract).outcome == ExportOutcome(s, mkv, priority, natLe, hasTrack)
    ensures ExportJob(s, mkv, priority, dryRun, natLe, hasTrack, extract).outcome != Processed || dryRun ==>
      ExportJob(s, mkv, priority, dryRun, natLe, hasTrack, extract).state == s
    decreases priority
  {
    if priority != [] {
      ExportJobOutcome(s, mkv, priority[1..], dryRun, natLe, hasTrack, extract);
    }
  }

  /**
   * The first language that hits decides the job: a sidecar for it skips the
   * file untouched; an embedded track is extracted under that language.
   */
  lemma {:induction false} ExportJobFirstHit(s: FsState, mkv: Path, priority: seq<string>, dryRun: bool, natLe: (Path, Path) -> bool,
                                             hasTrack: (Path, string) -> bool, extract: (Path, string) -> Option<(string, Bytes)>, i: nat)
    requires Name(mkv) != "" && TotalOrder(natLe)
    requires i < |priority| && ExportHit(s, mkv, priority[i], natLe, hasTrack)
    requires forall k :: 0 <= k < i ==> !ExportHit(s, mkv, priority[k], natLe, hasTrack)
    ensures ExportJob(s, mkv, priority, dryRun, natLe, hasTrack, extract) ==
      if FindSrtFile(s, mkv, priority[i], natLe).Some? then JobResult(SkippedHasLang, s)
      else JobResult(Processed, if dryRun then s else Extracted(s, mkv, priority[i], extract(mkv, priority[i])))
    decreases i
  {
    if i > 0 {
      var rest := priority[1..];
      assert !ExportHit(s, mkv, priority[0], natLe, hasTrack);
      assert rest[i - 1] == priority[i];
      forall k | 0 <= k < i - 1
        ensures !ExportHit(s, mkv, rest[k], natLe, hasTrack)
      {
        assert rest[k] == priority[k + 1];
      }
      ExportJobFirstHit(s, mkv, rest, dryRun, natLe, hasTrack, extract, i - 1);
    }
  }

  /** An extraction that writes `.srt` under a lower-case language writes the exact sidecar `find_srt_file` looks for first. */
  lemma SrtExtractionIsExactSidecar(mkv: Path, lang: string)
    requires Name(mkv) != ""
    ensures ExtractTarget(mkv, lang, ".srt") == ExactSidecar(mkv, lang)
  {
    assert Stem(Name(mkv)) + "." + lang + ".srt" == Stem(Name(mkv)) + ("." + lang + ".srt");
  }

  /**
   * Exporting a container a second time, after a run whose extractions write
   * `.srt` files, skips it as having the language: `find_srt_file` finds the
   * sidecar the first run wrote (or one for an earlier language).
   */
  lemma {:induction false} ExportRerunSkips(s: FsState, mkv: Path, priority: seq<string>, natLe: (Path, Path) -> bool,
                                            hasTrack: (Path, string) -> bool, extract: (Path, string) -> Option<(string, Bytes)>)
    requires Name(mkv) != "" && TotalOrder(natLe)
    requires forall k :: 0 <= k < |priority| ==> priority[k] != "" && Lower(priority[k]) == priority[k]
    requires forall k :: 0 <= k < |priority| ==> extract(mkv, priority[k]).Some? && extract(mkv, priority[k]).value.0 == ".srt"
    requires ExportJob(s, mkv, priority, false, natLe, hasTrack, extract).outcome == Processed
    ensures ExportOutcome(ExportJob(s, mkv, priority, false, natLe, hasTrack, extract).state, mkv, priority, natLe, hasTrack) == SkippedHasLang
    decreases priority
  {
    var lang := priority[0];
    var after := ExportJob(s, mkv, priority, false, natLe, hasTrack, extract).state;
    if hasTrack(mkv, lang) {
      var exact := ExactSidecar(mkv, lang);
      SrtExtractionIsExactSidecar(mkv, lang);
      assert !s.Exists(exact);
      assert after == Written(s, exact, extract(mkv, lang).value.1);
      assert after.Exists(exact);
    } else if FindSrtFile(after, mkv, lang, natLe).None? {
      var rest := priority[1..];
      forall k | 0 <= k < |rest|
        ensures rest[k] != "" && Lower(rest[k]) == rest[k]
        ensures extract(mkv, rest[k]).Some? && extract(mkv, rest[k]).value.0 == ".srt"
      {
        assert rest[k] == priority[k + 1];
      }
      ExportRerunSkips(s, mkv, rest, natLe, hasTrack, extract);
    }
  }

  /** The export job from the `i`-th language on: that language decides, or the job goes on from the next one. */
  lemma ExportJobFrom(s: FsState, mkv: Path, priority: seq<string>, dryRun: bool, natLe: (Path, Path) -> bool,
                      hasTrack: (Path, string) -> bool, extract: (Path, string) -> Option<(string, Bytes)>, i: nat)
    requires Name(mkv) != "" && TotalOrder(natLe) && i < |priority|
    ensures ExportJob(s, mkv, priority[i..], dryRun, natLe, hasTrack, extract) ==
      if FindSrtFile(s, mkv, priority[i], natLe).Some? then JobResult(SkippedHasLang, s)
      else if hasTrack(mkv, priority[i]) then
        JobResult(Processed, if dryRun then s else Extracted(s, mkv, priority[i], extract(mkv, priority[i])))
      else ExportJob(s, mkv, priority[i + 1..], dryRun, natLe, hasTrack, extract)
  {
    assert priority[i..][1..] == priority[i + 1..];
  }

  /**
   * The loop of `process_single_mkv_export` over the priority list: the first
   * language with a sidecar ends it, the first with an embedded track ends it
   * after extracting that track (except on a dry run).
   */
  method ExportByPriority(fsys: FileSystem, mkv: Path, priority: seq<string>, dryRun: bool,
                          natLe: (Path, Path) -> bool, hasTrack: (Path, string) -> bool,
                          extract: (Path, string) -> Option<(string, Bytes)>)
    returns (outcome: Outcome)
    requires Name(mkv) != "" && TotalOrder(natLe)
    modifies fsys
    ensures JobResult(outcome, fsys.State()) == ExportJob(old(fsys.State()), mkv, priority, dryRun, natLe, hasTrack, extract)
  {
    var fs := fsys.State();
    outcome := SkippedNoSrt;
    var i := 0;
    while i < |priority|
      invariant 0 <= i <= |priority| && fsys.State() == fs
      invariant ExportJob(fs, mkv, priority[i..], dryRun, natLe, hasTrack, extract) ==
        ExportJob(fs, mkv, priority, dryRun, natLe, hasTrack, extract)
    {
      var lang := priority[i];
      ExportJobFrom(fs, mkv, priority, dryRun, natLe, hasTrack, extract, i);
      var existing := FindSrtFile(fs, mkv, lang, natLe);
      if existing.Some? {
        outcome := SkippedHasLang;
        break;
      }
      if hasTrack(mkv, lang) {
        if !dryRun {
          ExtractSubtitleFromMkv(fsys, mkv, lang, extract(mkv, lang));
        }
        outcome := Processed;
        break;
      }
      i := i + 1;
    }
  }

  /** `process_single_mkv_export`: counts the file, runs the priority loop, and counts one outcome. */
  method ProcessSingleMkvExport(fsys: FileSystem, stats: ProcessingStats, mkv: Path, priority: seq<string>, dryRun: bool,
                                natLe: (Path, Path) -> bool, hasTrack: (Path, string) -> bool,
                                extract: (Path, string) -> Option<(string, Bytes)>)
    returns (outcome: Outcome)
    requires Name(mkv) != "" && TotalOrder(natLe)
    modifies fsys, stats
    ensures JobResult(outcome, fsys.State()) == ExportJob(old(fsys.State()), mkv, priority, dryRun, natLe, hasTrack, extract)
    ensures stats.Snapshot() == Record(old(stats.Snapshot()), outcome)
  {
    stats.total := stats.total + 1;
    outcome := ExportByPriority(fsys, mkv, priority, dryRun, natLe, hasTrack, extract);
    stats.Count(outcome);
  }

  // ----- sequential loops -----

  /**
   * `outcomes`, `states` and `tmps` trace jobs run one after another: job `i`
   * starts from `states[i]`, writes through `tmps[i]`, and ends with
   * `outcomes[i]` and the filesystem `states[i + 1]`.
   */
  ghost predicate Traced(job: (nat, FsState, Path) -> JobResult, outcomes: seq<Outcome>, states: seq<FsState>, tmps: seq<Path>)
  {
    && |states| == |outcomes| + 1 && |tmps| == |outcomes|
    && forall i {:trigger tmps[i]} :: 0 <= i < |outcomes| ==> JobResult(outcomes[i], states[i + 1]) == job(i, states[i], tmps[i])
  }

  /** A trace grows by the next job. */
  lemma TracedSnoc(job: (nat, FsState, Path) -> JobResult, outcomes: seq<Outcome>, states: seq<FsState>, tmps: seq<Path>,
                   o: Outcome, s: FsState, tmp: Path)
    requires Traced(job, outcomes, states, tmps)
    requires JobResult(o, s) == job(|outcomes|, states[|outcomes|], tmp)
    ensures Traced(job, outcomes + [o], states + [s], tmps + [tmp])
  {
    var n := |outcomes|;
    var outcomes', states', tmps' := outcomes + [o], states + [s], tmps + [tmp];
    forall i | 0 <= i < n + 1
      ensures JobResult(outcomes'[i], states'[i + 1]) == job(i, states'[i], tmps'[i])
    {
      if i < n {
        assert outcomes'[i] == outcomes[i] && states'[i + 1] == states[i + 1] && states'[i] == states[i] && tmps'[i] == tmps[i];
      }
    }
  }

  /** Each job's temp path `tmps[i]` is one `chosen` allows in the state `states[i]` the job starts from. */
  ghost predicate TempsChosen(chosen: (nat, FsState, Path) -> bool, states: seq<FsState>, tmps: seq<Path>)
  {
    && |tmps| < |states|
    && forall i {:trigger tmps[i]} :: 0 <= i < |tmps| ==> chosen(i, states[i], tmps[i])
  }

  /** The temp paths stay allowed as the trace grows by the next job. */
  lemma TempsChosenSnoc(chosen: (nat, FsState, Path) -> bool, states: seq<FsState>, tmps: seq<Path>, s: FsState, tmp: Path)
    requires TempsChosen(chosen, states, tmps) && |states| == |tmps| + 1
    requires chosen(|tmps|, states[|tmps|], tmp)
    ensures TempsChosen(chosen, states + [s], tmps + [tmp])
  {
    var n := |tmps|;
    var states', tmps' := states + [s], tmps + [tmp];
    forall i | 0 <= i < n + 1
      ensures chosen(i, states'[i], tmps'[i])
    {
      if i < n {
        assert states'[i] == states[i] && tmps'[i] == tmps[i];
      }
    }
  }

  /** The `run` job on the `i`-th file. */
  ghost function MergeJobAt(files: seq<Path>, cfg: MergeSettings, containers: Path -> Container, natLe: (Path, Path) -> bool)
    : (nat, FsState, Path) -> JobResult
    requires forall i :: 0 <= i < |files| ==> Name(files[i]) != ""
    requires TotalOrder(natLe)
  {
    (i: nat, s: FsState, tmp: Path) =>
      if i < |files| then MergeJob(s, files[i], cfg, containers(files[i]), natLe, tmp) else JobResult(Raised, s)
  }

  /** Job `i` of a `run` trace is `MergeJob` on the `i`-th file. */
  lemma MergeJobAtFile(files: seq<Path>, cfg: MergeSettings, containers: Path -> Container, natLe: (Path, Path) -> bool,
                       i: nat, s: FsState, tmp: Path)
    requires forall i :: 0 <= i < |files| ==> Name(files[i]) != ""
    requires TotalOrder(natLe) && i < |files|
    ensures MergeJobAt(files, cfg, containers, natLe)(i, s, tmp) == MergeJob(s, files[i], cfg, containers(files[i]), natLe, tmp)
  {
  }

  /**
   * The temp path the `run` job on the `i`-th file may write through: when the
   * job reaches the merge, a fresh name beside the container for an in-place
   * merge, and the output itself otherwise.
   */
  ghost function MergeTempAt(files: seq<Path>, cfg: MergeSettings, containers: Path -> Container, natLe: (Path, Path) -> bool)
    : (nat, FsState, Path) -> bool
    requires forall i :: 0 <= i < |files| ==> Name(files[i]) != ""
    requires TotalOrder(natLe)
  {
    (i: nat, s: FsState, tmp: Path) =>
      i < |files| &&
      (ReachesMux(s, files[i], cfg, containers(files[i]), natLe) ==>
         ValidTemp(Prepared(s, files[i], cfg).state, files[i], MergeTarget(files[i], cfg), tmp))
  }

  /** The temp path of job `i` is allowed exactly when `ValidTemp` holds for it once the `i`-th file's job reaches the merge. */
  lemma MergeTempAtFile(files: seq<Path>, cfg: MergeSettings, containers: Path -> Container, natLe: (Path, Path) -> bool,
                        i: nat, s: FsState, tmp: Path)
    requires forall i :: 0 <= i < |files| ==> Name(files[i]) != ""
    requires TotalOrder(natLe) && i < |files|
    ensures MergeTempAt(files, cfg, containers, natLe)(i, s, tmp) <==>
      (ReachesMux(s, files[i], cfg, containers(files[i]), natLe) ==>
         ValidTemp(Prepared(s, files[i], cfg).state, files[i], MergeTarget(files[i], cfg), tmp))
  {
  }

  /** A `run` trace says, file by file, that each job was `MergeJob` on that file from the state the previous job left. */
  lemma MergeTraceAt(files: seq<Path>, cfg: MergeSettings, containers: Path -> Container, natLe: (Path, Path) -> bool,
                     outcomes: seq<Outcome>, states: seq<FsState>, tmps: seq<Path>, i: nat)
    requires forall i :: 0 <= i < |files| ==> Name(files[i]) != ""
    requires TotalOrder(natLe)
    requires Traced(MergeJobAt(files, cfg, containers, natLe), outcomes, states, tmps) && |outcomes| <= |files|
    requires TempsChosen(MergeTempAt(files, cfg, containers, natLe), states, tmps)
    requires i < |outcomes|
    ensures JobResult(outcomes[i], states[i + 1]) == MergeJob(states[i], files[i], cfg, containers(files[i]), natLe, tmps[i])
    ensures ReachesMux(states[i], files[i], cfg, containers(files[i]), natLe) ==>
      ValidTemp(Prepared(states[i], files[i], cfg).state, files[i], MergeTarget(files[i], cfg), tmps[i])
  {
    MergeTempAtFile(files, cfg, containers, natLe, i, states[i], tmps[i]);
  }

  /**
   * The sequential loop of `run`. Nothing catches an exception here: the
   * first job that raises ends the command, so only the last outcome can be
   * `Raised`, and the files after it are never looked at.
   */
  method RunMergeSequential(fsys: FileSystem, stats: ProcessingStats, files: seq<Path>, cfg: MergeSettings,
                            containers: Path -> Container, natLe: (Path, Path) -> bool)
    returns (outcomes: seq<Outcome>, ghost states: seq<FsState>, ghost tmps: seq<Path>)
    requires forall i :: 0 <= i < |files| ==> Name(files[i]) != ""
    requires TotalOrder(natLe)
    modifies fsys, stats
    ensures |outcomes| <= |files| && Traced(MergeJobAt(files, cfg, containers, natLe), outcomes, states, tmps)
    ensures TempsChosen(MergeTempAt(files, cfg, containers, natLe), states, tmps)
    ensures states[0] == old(fsys.State()) && fsys.State() == states[|outcomes|]
    ensures forall i :: 0 <= i < |outcomes| - 1 ==> outcomes[i] != Raised
    ensures |outcomes| < |files| ==> outcomes != [] && outcomes[|outcomes| - 1] == Raised
    ensures stats.Snapshot() == RecordAll(old(stats.Snapshot()), outcomes)
    ensures old(stats.Snapshot()) == Zero && Raised !in outcomes ==>
      stats.total == |files| && stats.Snapshot().Settled() == |files|
  {
    ghost var job := MergeJobAt(files, cfg, containers, natLe);
    ghost var chosen := MergeTempAt(files, cfg, containers, natLe);
    outcomes, states, tmps := [], [fsys.State()], [];
    var i := 0;
    while i < |files|
      invariant 0 <= i <= |files| && |outcomes| == i
      invariant Traced(job, outcomes, states, tmps) && TempsChosen(chosen, states, tmps)
      invariant states[0] == old(fsys.State()) && fsys.State() == states[i]
      invariant Raised !in outcomes
      invariant stats.Snapshot() == RecordAll(old(stats.Snapshot()), outcomes)
    {
      var o, tmp := ProcessSingleMkv(fsys, stats, files[i], cfg, containers(files[i]), natLe);
      RecordAllSnoc(old(stats.Snapshot()), outcomes, o);
      MergeJobAtFile(files, cfg, containers, natLe, i, states[i], tmp);
      TracedSnoc(job, outcomes, states, tmps, o, fsys.State(), tmp);
      MergeTempAtFile(files, cfg, containers, natLe, i, states[i], tmp);
      TempsChosenSnoc(chosen, states, tmps, fsys.State(), tmp);
      outcomes, states, tmps := outcomes + [o], states + [fsys.State()], tmps + [tmp];
      if o == Raised {
        break;
      }
      i := i + 1;
    }
    if old(stats.Snapshot()) == Zero && Raised !in outcomes {
      CleanRunBalances(outcomes);
    }
  }

  /** The `export` job on the `i`-th file; it writes through no temp file, so the temp path is unused. */
  ghost function ExportJobAt(files: seq<Path>, priority: seq<string>, dryRun: bool, natLe: (Path, Path) -> bool,
                             hasTrack: (Path, string) -> bool, extract: (Path, string) -> Option<(string, Bytes)>)
    : (nat, FsState, Path) -> JobResult
    requires forall i :: 0 <= i < |files| ==> Name(files[i]) != ""
    requires TotalOrder(natLe)
  {
    (i: nat, s: FsState, tmp: Path) =>
      if i < |files| then ExportJob(s, files[i], priority, dryRun, natLe, hasTrack, extract) else JobResult(Raised, s)
  }

  /** Job `i` of an `export` trace is `ExportJob` on the `i`-th file. */
  lemma ExportJobAtFile(files: seq<Path>, priority: seq<string>, dryRun: bool, natLe: (Path, Path) -> bool,
                        hasTrack: (Path, string) -> bool, extract: (Path, string) -> Option<(string, Bytes)>,
                        i: nat, s: FsState, tmp: Path)
    requires forall i :: 0 <= i < |files| ==> Name(files[i]) != ""
    requires TotalOrder(natLe) && i < |files|
    ensures ExportJobAt(files, priority, dryRun, natLe, hasTrack, extract)(i, s, tmp) ==
      ExportJob(s, files[i], priority, dryRun, natLe, hasTrack, extract)
  {
  }

  /**
   * An `export` trace says, file by file, that each job was `ExportJob` on
   * that file from the state the previous jobs left, sidecars they extracted
   * included, and that its outcome is the one `ExportOutcome` picks there.
   */
  lemma ExportTraceAt(files: seq<Path>, priority: seq<string>, dryRun: bool, natLe: (Path, Path) -> bool,
                      hasTrack: (Path, string) -> bool, extract: (Path, string) -> Option<(string, Bytes)>,
                      outcomes: seq<Outcome>, states: seq<FsState>, tmps: seq<Path>, i: nat)
    requires forall i :: 0 <= i < |files| ==> Name(files[i]) != ""
    requires TotalOrder(natLe)
    requires Traced(ExportJobAt(files, priority, dryRun, natLe, hasTrack, extract), outcomes, states, tmps) && |outcomes| <= |files|
    requires i < |outcomes|
    ensures JobResult(outcomes[i], states[i + 1]) == ExportJob(states[i], files[i], priority, dryRun, natLe, hasTrack, extract)
    ensures outcomes[i] == ExportOutcome(states[i], files[i], priority, natLe, hasTrack)
  {
    ExportJobAtFile(files, priority, dryRun, natLe, hasTrack, extract, i, states[i], tmps[i]);
    ExportJobOutcome(states[i], files[i], priority, dryRun, natLe, hasTrack, extract);
  }

  /**
   * The sequential loop of `export`: each job sees the sidecars the jobs
   * before it extracted; no job raises, so every file is counted once in
   * `total` and once in an outcome.
   */
  method RunExportSequential(fsys: FileSystem, stats: ProcessingStats, files: seq<Path>, priority: seq<string>, dryRun: bool,
                             natLe: (Path, Path) -> bool, hasTrack: (Path, string) -> bool,
                             extract: (Path, string) -> Option<(string, Bytes)>)
    returns (outcomes: seq<Outcome>, ghost states: seq<FsState>, ghost tmps: seq<Path>)
    requires forall i :: 0 <= i < |files| ==> Name(files[i]) != ""
    requires TotalOrder(natLe)
    modifies fsys, stats
    ensures |outcomes| == |files| && Traced(ExportJobAt(files, priority, dryRun, natLe, hasTrack, extract), outcomes, states, tmps)
    ensures states[0] == old(fsys.State()) && fsys.State() == states[|outcomes|]
    ensures Raised !in outcomes
    ensures stats.Snapshot() == RecordAll(old(stats.Snapshot()), outcomes)
    ensures old(stats.Snapshot()) == Zero ==> stats.total == |files| && stats.Snapshot().Settled() == |files|
  {
    ghost var job := ExportJobAt(files, priority, dryRun, natLe, hasTrack, extract);
    outcomes, states, tmps := [], [fsys.State()], [];
    for i := 0 to |files|
      invariant |outcomes| == i
      invariant Traced(job, outcomes, states, tmps)
      invariant states[0] == old(fsys.State()) && fsys.State() == states[i]
      invariant Raised !in outcomes
      invariant stats.Snapshot() == RecordAll(old(stats.Snapshot()), outcomes)
    {
      var o := ProcessSingleMkvExport(fsys, stats, files[i], priority, dryRun, natLe, hasTrack, extract);
      ExportJobOutcome(states[i], files[i], priority, dryRun, natLe, hasTrack, extract);
      ExportNeverRaises(states[i], files[i], priority, natLe, hasTrack);
      RecordAllSnoc(old(stats.Snapshot()), outcomes, o);
      ExportJobAtFile(files, priority, dryRun, natLe, hasTrack, extract, i, states[i], files[i]);
      TracedSnoc(job, outcomes, states, tmps, o, fsys.State(), files[i]);
      outcomes, states, tmps := outcomes + [o], states + [fsys.State()], tmps + [files[i]];
    }
    if old(stats.Snapshot()) == Zero {
      CleanRunBalances(outcomes);
    }
  }

  /** The `to-srt` job on the `i`-th file; it writes through no temp file, so the temp path is unused. */
  ghost function AssJobAt(files: seq<Path>, cleanup: bool, dryRun: bool, conversions: Path -> Option<Bytes>)
    : (nat, FsState, Path) -> JobResult
    requires forall i :: 0 <= i < |files| ==> Name(files[i]) != ""
  {
    (i: nat, s: FsState, tmp: Path) =>
      if i < |files| then AssJob(s, files[i], cleanup, dryRun, conversions(files[i])) else JobResult(Raised, s)
  }

  /** Job `i` of a `to-srt` trace is `AssJob` on the `i`-th file. */
  lemma AssJobAtFile(files: seq<Path>, cleanup: bool, dryRun: bool, conversions: Path -> Option<Bytes>, i: nat, s: FsState, tmp: Path)
    requires forall i :: 0 <= i < |files| ==> Name(files[i]) != ""
    requires i < |files|
    ensures AssJobAt(files, cleanup, dryRun, conversions)(i, s, tmp) == AssJob(s, files[i], cleanup, dryRun, conversions(files[i]))
  {
  }

  /** A `to-srt` trace says, file by file, that each job was `AssJob` on that file from the state the previous job left. */
  lemma AssTraceAt(files: seq<Path>, cleanup: bool, dryRun: bool, conversions: Path -> Option<Bytes>,
                   outcomes: seq<Outcome>, states: seq<FsState>, tmps: seq<Path>, i: nat)
    requires forall i :: 0 <= i < |files| ==> Name(files[i]) != ""
    requires Traced(AssJobAt(files, cleanup, dryRun, conversions), outcomes, states, tmps) && |outcomes| <= |files|
    requires i < |outcomes|
    ensures JobResult(outcomes[i], states[i + 1]) == AssJob(states[i], files[i], cleanup, dryRun, conversions(files[i]))
  {
    AssJobAtFile(files, cleanup, dryRun, conversions, i, states[i], tmps[i]);
  }

  /** The sequential loop of `to-srt`: conversion errors are caught per file, so every file is converted in turn and counted once in each. */
  method RunConvertSequential(fsys: FileSystem, stats: ProcessingStats, files: seq<Path>, cleanup: bool, dryRun: bool,
                              conversions: Path -> Option<Bytes>)
    returns (outcomes: seq<Outcome>, ghost states: seq<FsState>, ghost tmps: seq<Path>)
    requires forall i :: 0 <= i < |files| ==> Name(files[i]) != ""
    modifies fsys, stats
    ensures |outcomes| == |files| && Raised !in outcomes
    ensures Traced(AssJobAt(files, cleanup, dryRun, conversions), outcomes, states, tmps)
    ensures states[0] == old(fsys.State()) && fsys.State() == states[|files|]
    ensures stats.Snapshot() == RecordAll(old(stats.Snapshot()), outcomes)
    ensures old(stats.Snapshot()) == Zero ==> stats.total == |files| && stats.Snapshot().Settled() == |files|
  {
    ghost var job := AssJobAt(files, cleanup, dryRun, conversions);
    outcomes, states, tmps := [], [fsys.State()], [];
    for i := 0 to |files|
      invariant |outcomes| == i
      invariant Traced(job, outcomes, states, tmps)
      invariant states[0] == old(fsys.State()) && fsys.State() == states[i]
      invariant Raised !in outcomes
      invariant stats.Snapshot() == RecordAll(old(stats.Snapshot()), outcomes)
    {
      AssJobNeverRaises(fsys.State(), files[i], cleanup, dryRun, conversions(files[i]));
      var o := ConvertAssToSrt(fsys, stats, files[i], cleanup, dryRun, conversions(files[i]));
      RecordAllSnoc(old(stats.Snapshot()), outcomes, o);
      AssJobAtFile(files, cleanup, dryRun, conversions, i, states[i], files[i]);
      TracedSnoc(job, outcomes, states, tmps, o, fsys.State(), files[i]);
      outcomes, states, tmps := outcomes + [o], states + [fsys.State()], tmps + [files[i]];
    }
    if old(stats.Snapshot()) == Zero {
      CleanRunBalances(outcomes);
    }
  }

  // ----- language priority -----

  /** Each comma-separated item stripped and lower-cased, blank items dropped. */
  function CleanItems(items: seq<string>): (priority: seq<string>)
    ensures |priority| <= |items|
    ensures forall k :: 0 <= k < |priority| ==> priority[k] != "" && IsLower(priority[k])
  {
    if items == [] then []
    else
      var t := Strip(items[0]);
      if t == "" then CleanItems(items[1..]) else [Lower(t)] + CleanItems(items[1..])
  }

  /** Cleaning works item by item, in order: the cleaned list of `a + b` is that of `a` followed by that of `b`. */
  lemma {:induction false} CleanItemsAppend(a: seq<string>, b: seq<string>)
    ensures CleanItems(a + b) == CleanItems(a) + CleanItems(b)
    decreases a
  {
    if a == [] {
      assert a + b == b;
    } else {
      assert (a + b)[0] == a[0];
      assert (a + b)[1..] == a[1..] + b;
      CleanItemsAppend(a[1..], b);
    }
  }

  /** One item cleans to its stripped, lower-cased form, or to nothing when it is blank. */
  lemma CleanItemsSingle(item: string)
    ensures CleanItems([item]) == (if Strip(item) == "" then [] else [Lower(Strip(item))])
  {
    assert [item][1..] == [];
  }

  /** Every non-blank item is in `priority`, stripped and lower-cased. */
  predicate HoldsEveryItem(items: seq<string>, priority: seq<string>)
  {
    forall j :: 0 <= j < |items| && Strip(items[j]) != "" ==> Lower(Strip(items[j])) in priority
  }

  /** `code` is some non-blank item, stripped and lower-cased. */
  predicate CleanedFrom(items: seq<string>, code: string)
  {
    exists j :: 0 <= j < |items| && Strip(items[j]) != "" && code == Lower(Strip(items[j]))
  }

  /** Every entry of `priority` is some non-blank item, stripped and lower-cased. */
  predicate HoldsOnlyItems(items: seq<string>, priority: seq<string>)
  {
    forall k :: 0 <= k < |priority| ==> CleanedFrom(items, priority[k])
  }

  /** Every non-blank item appears in the cleaned list, stripped and lower-cased. */
  lemma {:induction false} CleanItemsKeepsItems(items: seq<string>)
    ensures HoldsEveryItem(items, CleanItems(items))
    decreases items
  {
    if items != [] {
      var tail := items[1..];
      assert items == [items[0]] + tail;
      CleanItemsKeepsItems(tail);
      EveryItemWithHead(items[0], tail, CleanItems(tail));
    }
  }

  /** Putting an item in front of the list, and its cleaned form (if any) in front of the entries, keeps every item held. */
  lemma EveryItemWithHead(head: string, tail: seq<string>, priority: seq<string>)
    requires HoldsEveryItem(tail, priority)
    ensures HoldsEveryItem([head] + tail, if Strip(head) == "" then priority else [Lower(Strip(head))] + priority)
  {
    var items := [head] + tail;
    var p := if Strip(head) == "" then priority else [Lower(Strip(head))] + priority;
    assert forall x :: x in priority ==> x in p;
    forall j | 0 <= j < |items| && Strip(items[j]) != ""
      ensures Lower(Strip(items[j])) in p
    {
      if j > 0 {
        assert items[j] == tail[j - 1];
      }
    }
  }

  /** Every cleaned entry is the stripped, lower-cased form of some non-blank item. */
  lemma {:induction false} CleanItemsFromItems(items: seq<string>)
    ensures HoldsOnlyItems(items, CleanItems(items))
    decreases items
  {
    if items != [] {
      var tail := items[1..];
      assert items == [items[0]] + tail;
      CleanItemsFromItems(tail);
      OnlyItemsOfLongerList(items[0], tail, CleanItems(tail));
      if Strip(items[0]) != "" {
        OnlyItemsWithHead(items[0], tail, CleanItems(tail));
      }
    }
  }

  /** An item put in front of the list keeps every entry accounted for. */
  lemma OnlyItemsOfLongerList(head: string, tail: seq<string>, priority: seq<string>)
    requires HoldsOnlyItems(tail, priority)
    ensures HoldsOnlyItems([head] + tail, priority)
  {
    var items := [head] + tail;
    forall k | 0 <= k < |priority|
      ensures CleanedFrom(items, priority[k])
    {
      assert CleanedFrom(tail, priority[k]);
      var j :| 0 <= j < |tail| && Strip(tail[j]) != "" && priority[k] == Lower(Strip(tail[j]));
      assert items[j + 1] == tail[j];
    }
  }

  /** A non-blank item put in front, with its cleaned form in front of the entries, keeps every entry accounted for. */
  lemma OnlyItemsWithHead(head: string, tail: seq<string>, priority: seq<string>)
    requires Strip(head) != "" && HoldsOnlyItems(tail, priority)
    ensures HoldsOnlyItems([head] + tail, [Lower(Strip(head))] + priority)
  {
    var items := [head] + tail;
    var p := [Lower(Strip(head))] + priority;
    OnlyItemsOfLongerList(head, tail, priority);
    CleanedFromHead(head, tail);
    forall k | 0 <= k < |p|
      ensures CleanedFrom(items, p[k])
    {
      if k > 0 {
        assert p[k] == priority[k - 1];
      }
    }
  }

  /** The first item, when not blank, accounts for its cleaned form. */
  lemma CleanedFromHead(head: string, tail: seq<string>)
    requires Strip(head) != ""
    ensures CleanedFrom([head] + tail, Lower(Strip(head)))
  {
    assert ([head] + tail)[0] == head;
  }

  /** Stripping and lower-casing an item cannot introduce a comma. */
  lemma CleanedItemHasNoComma(item: string)
    requires ',' !in item
    ensures ',' !in Lower(Strip(item))
  {
    var t := Strip(item);
    var i, j :| 0 <= i <= j <= |item| && t == item[i..j] && AllSpace(item[..i]) && AllSpace(item[j..]);
  }

  /** Every item is empty once stripped. */
  predicate AllBlank(items: seq<string>)
  {
    forall k :: 0 <= k < |items| ==> Strip(items[k]) == ""
  }

  /** Cleaning leaves nothing exactly when every item is blank. */
  lemma {:induction false} CleanItemsEmptyIff(items: seq<string>)
    ensures CleanItems(items) == [] <==> AllBlank(items)
    decreases items
  {
    if items != [] {
      CleanItemsEmptyIff(items[1..]);
      assert forall k :: 0 < k < |items| ==> items[k] == items[1..][k - 1];
    }
  }

  /** Comma-free items stay comma-free when cleaned. */
  lemma {:induction false} CleanItemsHaveNoComma(items: seq<string>)
    requires forall k :: 0 <= k < |items| ==> ',' !in items[k]
    ensures forall k :: 0 <= k < |CleanItems(items)| ==> ',' !in CleanItems(items)[k]
    decreases items
  {
    if items != [] {
      CleanItemsHaveNoComma(items[1..]);
      CleanedItemHasNoComma(items[0]);
    }
  }

  /** `[lang.strip().lower() for lang in languages.split(",") if lang.strip()]`. */
  function ParseLanguagePriority(languages: string): (priority: seq<string>)
    ensures |priority| <= |Split(languages, ',')|
    ensures forall k :: 0 <= k < |priority| ==> priority[k] != "" && IsLower(priority[k]) && ',' !in priority[k]
  {
    CleanItemsHaveNoComma(Split(languages, ','));
    CleanItems(Split(languages, ','))
  }

  /** The language list is rejected exactly when every comma-separated item is blank. */
  lemma ParsePriorityEmptyIff(languages: string)
    ensures ParseLanguagePriority(languages) == [] <==> AllBlank(Split(languages, ','))
  {
    CleanItemsEmptyIff(Split(languages, ','));
  }

  /**
   * The parsed priority list holds, for every comma-separated item that is not
   * blank, that item stripped and lower-cased, and nothing else.
   */
  lemma ParsePriorityContents(languages: string)
    ensures HoldsEveryItem(Split(languages, ','), ParseLanguagePriority(languages))
    ensures HoldsOnlyItems(Split(languages, ','), ParseLanguagePriority(languages))
  {
    var items := Split(languages, ',');
    assert ParseLanguagePriority(languages) == CleanItems(items);
    CleanItemsKeepsItems(items);
    CleanItemsFromItems(items);
  }

  /** A code as it appears in a clean priority list: non-empty, lower case, no comma, no whitespace at either end. */
  predicate PlainCode(l: string)
  {
    l != "" && IsLower(l) && ',' !in l && !IsSpace(l[0]) && !IsSpace(l[|l| - 1])
  }

  /** Plain codes survive cleaning unchanged. */
  lemma {:induction false} CleanItemsOfPlainCodes(langs: seq<string>)
    requires forall k :: 0 <= k < |langs| ==> PlainCode(langs[k])
    ensures CleanItems(langs) == langs
    decreases langs
  {
    if langs != [] {
      var l := langs[0];
      StripUnpadded(l);
      LowerOfLower(l);
      CleanItemsOfPlainCodes(langs[1..]);
      calc {
        CleanItems(langs);
        [Lower(Strip(l))] + CleanItems(langs[1..]);
        [l] + langs[1..];
        langs;
      }
    }
  }

  /** Parsing a comma-joined list of plain codes gives back the list, in order. */
  lemma ParsePriorityOfJoined(langs: seq<string>)
    requires |langs| >= 1
    requires forall k :: 0 <= k < |langs| ==> PlainCode(langs[k])
    ensures ParseLanguagePriority(JoinBy(langs, ',')) == langs
  {
    SplitJoinBy(langs, ',');
    CleanItemsOfPlainCodes(langs);
  }

  // ----- options and the configuration file -----

  /** A value read from the configuration file; `Other` is any other TOML value, with its Python truth value. */
  datatype ConfigValue = Str(s: string) | Bool(b: bool) | Int(i: int) | Other(truthy: bool)

  type Config = map<string, ConfigValue>

  /** Python truthiness of a configuration value. */
  predicate Truthy(v: ConfigValue)
  {
    match v
    case Str(s) => s != ""
    case Bool(b) => b
    case Int(i) => i != 0
    case Other(t) => t
  }

  /** `v if isinstance(v, str) else None` for `v = cfg.get(key)`. */
  function ConfigString(cfg: Config, key: string): Option<string>
  {
    if key in cfg && cfg[key].Str? then Some(cfg[key].s) else None
  }

  /** A string option: the command line wins; otherwise the configuration value when it is a string (and, with `truthyOnly`, a non-empty one). */
  function StringOption(cli: Option<string>, cfg: Config, key: string, truthyOnly: bool): (r: Option<string>)
    ensures cli.Some? ==> r == cli
    ensures cli.None? && key !in cfg ==> r == None
    ensures r.Some? && cli.None? ==> key in cfg && cfg[key] == Str(r.value) && (truthyOnly ==> r.value != "")
    ensures cli.None? && key in cfg && cfg[key].Str? && (truthyOnly ==> cfg[key].s != "") ==> r == Some(cfg[key].s)
  {
    if cli.Some? then cli
    else if truthyOnly && !(key in cfg && Truthy(cfg[key])) then None
    else ConfigString(cfg, key)
  }

  /** A flag: set on the command line, or else `cfg.get(key, False)` when that is a bool. */
  function FlagOption(cli: bool, cfg: Config, key: string): (r: bool)
    ensures cli ==> r
    ensures !cli ==> (r <==> key in cfg && cfg[key] == Bool(true))
  {
    if cli then true else key in cfg && cfg[key].Bool? && cfg[key].b
  }

  /**
   * The worker count: a command-line value other than 1 stands; at 1 the
   * configuration value is taken when it is an int in 1..8 (a bool is an int
   * in Python, and `True` is 1), and otherwise 1.
   */
  function NormalizeWorkers(cli: int, cfg: Config): (w: int)
    requires 1 <= cli <= 8
    ensures 1 <= w <= 8
    ensures cli != 1 ==> w == cli
    ensures cli == 1 && "workers" in cfg && cfg["workers"].Int? && 1 <= cfg["workers"].i <= 8 ==> w == cfg["workers"].i
    ensures cli == 1 && !("workers" in cfg && cfg["workers"].Int?) ==> w == 1
    ensures cli == 1 && "workers" in cfg && cfg["workers"].Int? && !(1 <= cfg["workers"].i <= 8) ==> w == 1
  {
    if cli != 1 then cli
    else if "workers" in cfg then
      match cfg["workers"]
      case Int(i) => if 1 <= i <= 8 then i else 1
      case _ => 1
    else 1
  }

  /** A command either stops with an exit code before doing anything, or proceeds with its resolved arguments. */
  datatype Invocation<T> = ExitWith(code: int) | Proceed(args: T)

  /** The exit code for missing or malformed arguments. */
  const UsageError := 2

  /** The resolved arguments of `run`. */
  datatype RunArgs = RunArgs(
    root: string,
    langCheck: string,
    langSet: string,
    outputDir: Option<string>,
    aiTranslated: bool,
    ignoreMuxErrors: bool,
    workers: int)

  /**
   * The option handling of `run`: command-line values first, then the
   * configuration file; a missing root or check language, or a missing set
   * language, exits with the usage error; both languages are lower-cased and
   * an empty output directory means none.
   */
  function ResolveRunArgs(root: Option<string>, checkLang: Option<string>, setLang: Option<string>, outputDir: Option<string>,
                          aiTranslated: bool, ignoreMuxErrors: bool, workers: int, cfg: Config): (r: Invocation<RunArgs>)
    requires 1 <= workers <= 8
    ensures r.ExitWith? ==> r.code == UsageError
    ensures r.ExitWith? <==>
      StringOption(root, cfg, "root", true).None? || StringOption(checkLang, cfg, "check_lang", false).None?
      || StringOption(setLang, cfg, "set_lang", false).None?
    ensures root.None? && "root" !in cfg ==> r.ExitWith?
    ensures r.Proceed? ==>
      && IsLower(r.args.langCheck) && IsLower(r.args.langSet)
      && (root.Some? ==> r.args.root == root.value)
      && (root.None? ==> "root" in cfg && cfg["root"] == Str(r.args.root) && r.args.root != "")
      && (checkLang.Some? ==> r.args.langCheck == Lower(checkLang.value))
      && (checkLang.None? ==> "check_lang" in cfg && cfg["check_lang"].Str? && r.args.langCheck == Lower(cfg["check_lang"].s))
      && (setLang.Some? ==> r.args.langSet == Lower(setLang.value))
      && (setLang.None? ==> "set_lang" in cfg && cfg["set_lang"].Str? && r.args.langSet == Lower(cfg["set_lang"].s))
      && (r.args.outputDir.Some? ==> r.args.outputDir.value != "")
      && (outputDir.Some? && outputDir.value != "" ==> r.args.outputDir == outputDir)
      && (outputDir.Some? && outputDir.value == "" ==> r.args.outputDir.None?)
      && (outputDir.None? ==> (r.args.outputDir.Some? <==> "output_dir" in cfg && cfg["output_dir"].Str? && cfg["output_dir"].s != ""))
      && (outputDir.None? && r.args.outputDir.Some? ==> cfg["output_dir"] == Str(r.args.outputDir.value))
      && (r.args.aiTranslated <==> aiTranslated || ("ai_translated" in cfg && cfg["ai_translated"] == Bool(true)))
      && (r.args.ignoreMuxErrors <==> ignoreMuxErrors || ("ignore_mux_errors" in cfg && cfg["ignore_mux_errors"] == Bool(true)))
      && r.args.workers == NormalizeWorkers(workers, cfg)
  {
    var rootR := StringOption(root, cfg, "root", true);
    var checkR := StringOption(checkLang, cfg, "check_lang", false);
    var setR := StringOption(setLang, cfg, "set_lang", false);
    var outR := StringOption(outputDir, cfg, "output_dir", true);
    if rootR.None? || checkR.None? then ExitWith(UsageError)
    else if setR.None? then ExitWith(UsageError)
    else
      Proceed(RunArgs(
        rootR.value,
        Lower(checkR.value),
        Lower(setR.value),
        if outR.Some? && outR.value != "" then outR else None,
        FlagOption(aiTranslated, cfg, "ai_translated"),
        FlagOption(ignoreMuxErrors, cfg, "ignore_mux_errors"),
        NormalizeWorkers(workers, cfg)))
  }

  /** The resolved arguments of `export`. */
  datatype ExportArgs = ExportArgs(root: string, priority: seq<string>, workers: int)

  /**
   * The option handling of `export`: a missing root, a missing or empty
   * language list, or one with no non-blank item exits with the usage error.
   */
  function ResolveExportArgs(root: Option<string>, languages: Option<string>, workers: int, cfg: Config): (r: Invocation<ExportArgs>)
    requires 1 <= workers <= 8
    ensures r.ExitWith? ==> r.code == UsageError
    ensures r.Proceed? <==>
      && StringOption(root, cfg, "root", true).Some?
      && StringOption(languages, cfg, "languages", true).Some?
      && ParseLanguagePriority(StringOption(languages, cfg, "languages", true).value) != []
    ensures r.Proceed? ==>
      && r.args.priority != []
      && (forall k :: 0 <= k < |r.args.priority| ==> r.args.priority[k] != "" && IsLower(r.args.priority[k]))
      && (root.Some? ==> r.args.root == root.value)
      && (root.None? ==> "root" in cfg && cfg["root"] == Str(r.args.root) && r.args.root != "")
      && (languages.Some? ==> r.args.priority == ParseLanguagePriority(languages.value))
      && (languages.None? ==>
            "languages" in cfg && cfg["languages"].Str? && r.args.priority == ParseLanguagePriority(cfg["languages"].s))
      && r.args.workers == NormalizeWorkers(workers, cfg)
  {
    var rootR := StringOption(root, cfg, "root", true);
    var langsR := StringOption(languages, cfg, "languages", true);
    if rootR.None? then ExitWith(UsageError)
    else if langsR.None? || langsR.value == "" then ExitWith(UsageError)
    else
      var priority := ParseLanguagePriority(langsR.value);
      if priority == [] then ExitWith(UsageError)
      else Proceed(ExportArgs(rootR.value, priority, NormalizeWorkers(workers, cfg)))
  }

  /** The resolved arguments of `to-srt`. */
  datatype ConvertArgs = ConvertArgs(root: string, workers: int)

  /** The option handling of `to-srt`: only a missing root exits with the usage error. */
  function ResolveConvertArgs(root: Option<string>, workers: int, cfg: Config): (r: Invocation<ConvertArgs>)
    requires 1 <= workers <= 8
    ensures r.ExitWith? <==> root.None? && !("root" in cfg && cfg["root"].Str? && cfg["root"].s != "")
    ensures r.ExitWith? ==> r.code == UsageError
    ensures r.Proceed? ==>
      && (root.Some? ==> r.args.root == root.value)
      && (root.None? ==> "root" in cfg && cfg["root"] == Str(r.args.root) && r.args.root != "")
      && r.args.workers == NormalizeWorkers(workers, cfg)
  {
    var rootR := StringOption(root, cfg, "root", true);
    if rootR.None? then ExitWith(UsageError)
    else Proceed(ConvertArgs(rootR.value, NormalizeWorkers(workers, cfg)))
  }
}
