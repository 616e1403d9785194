/**
 * The container side of the tool: which subtitle languages a container
 * already carries, where its sidecar subtitle file is, where the result goes,
 * and the temp-file-and-replace protocol that adds a subtitle track.
 *
 * The container library is an oracle: probing a container yields its tracks
 * or fails, and the merge step yields a `MuxOutcome`. The natural sort the
 * tool uses to break ties between sidecar candidates is a parameter `natLe`,
 * assumed to be a total order.
 */
module MkvOperations {
  import opened Wrappers
  import opened Text
  import opened Paths
  import opened Files

  /** One track of a container: its type (`"subtitles"`, `"video"`, ...) and its language code, "" when it has none. */
  datatype Track = Track(trackType: string, language: string)

  /** A subtitle track with a language: the tracks the probe reports. */
  predicate DeclaresSubtitleLanguage(t: Track)
  {
    t.trackType == "subtitles" && t.language != ""
  }

  /** The lower-cased languages of the subtitle tracks among `tracks`. */
  function SubtitleLanguages(tracks: seq<Track>): (langs: set<string>)
    ensures forall l :: l in langs ==> l != "" && IsLower(l)
    ensures forall i :: 0 <= i < |tracks| && DeclaresSubtitleLanguage(tracks[i]) ==> Lower(tracks[i].language) in langs
  {
    set i | 0 <= i < |tracks| && DeclaresSubtitleLanguage(tracks[i]) :: Lower(tracks[i].language)
  }

  /** Every language reported comes from some subtitle track. */
  lemma SubtitleLanguagesSound(tracks: seq<Track>, l: string)
    requires l in SubtitleLanguages(tracks)
    ensures exists i :: 0 <= i < |tracks| && DeclaresSubtitleLanguage(tracks[i]) && Lower(tracks[i].language) == l
  {
  }

  /** What probing reports: nothing when opening the container failed (`None`), else its subtitle languages. */
  function ProbedLanguages(probe: Option<seq<Track>>): set<string>
  {
    if probe.None? then {} else SubtitleLanguages(probe.value)
  }

  /**
   * `probe_subtitle_languages`: opening the container either fails (`None`),
   * which yields the empty set, or lists its tracks, whose subtitle languages
   * are collected one track at a time.
   */
  method ProbeSubtitleLanguages(probe: Option<seq<Track>>) returns (langs: set<string>)
    ensures langs == ProbedLanguages(probe)
    ensures probe.None? ==> langs == {}
    ensures forall l :: l in langs ==> l != "" && IsLower(l)
  {
    langs := {};
    if probe.None? {
      return;
    }
    var tracks := probe.value;
    var i := 0;
    while i < |tracks|
      invariant 0 <= i <= |tracks|
      invariant langs == SubtitleLanguages(tracks[..i])
    {
      var t := tracks[i];
      if t.trackType == "subtitles" && t.language != "" {
        langs := langs + {Lower(t.language)};
      }
      assert tracks[..i + 1] == tracks[..i] + [t];
      i := i + 1;
    }
    assert tracks[..i] == tracks;
  }

  // ----- natural order -----

  ghost predicate Antisymmetric(le: (Path, Path) -> bool)
  {
    forall a, b :: le(a, b) && le(b, a) ==> a == b
  }

  ghost predicate Transitive(le: (Path, Path) -> bool)
  {
    forall a, b, c :: le(a, b) && le(b, c) ==> le(a, c)
  }

  ghost predicate Total(le: (Path, Path) -> bool)
  {
    forall a, b :: le(a, b) || le(b, a)
  }

  ghost predicate TotalOrder(le: (Path, Path) -> bool)
  {
    Antisymmetric(le) && Transitive(le) && Total(le)
  }

  predicate IsLeast(m: Path, s: set<Path>, le: (Path, Path) -> bool)
  {
    m in s && forall x :: x in s ==> le(m, x)
  }

  /** A finite non-empty set has a least element under a total order. */
  lemma {:induction false} LeastExists(s: set<Path>, le: (Path, Path) -> bool)
    requires Transitive(le) && Total(le) && s != {}
    ensures exists m :: IsLeast(m, s, le)
  {
    var y :| y in s;
    if s == {y} {
      assert le(y, y);
      assert IsLeast(y, s, le);
    } else {
      LeastExists(s - {y}, le);
      var m :| IsLeast(m, s - {y}, le);
      if le(m, y) {
        assert IsLeast(m, s, le);
      } else {
        assert le(y, m);
        forall x | x in s
          ensures le(y, x)
        {
          if x != y {
            assert le(m, x);
          }
        }
        assert IsLeast(y, s, le);
      }
    }
  }

  /** `natsorted(s)[0]`: the first element of `s` in natural order. */
  function Least(s: set<Path>, le: (Path, Path) -> bool): (m: Path)
    requires TotalOrder(le) && s != {}
    ensures m in s && forall x :: x in s ==> le(m, x)
  {
    LeastExists(s, le);
    var m :| IsLeast(m, s, le);
    m
  }

  // ----- sidecar discovery -----

  /** `mkv.with_suffix(".<lang>.srt")`: the sidecar named exactly after the container. */
  function ExactSidecar(mkv: Path, lang: string): (p: Path)
    requires Name(mkv) != ""
    ensures Parent(p) == Parent(mkv)
    ensures Name(p) == Stem(Name(mkv)) + "." + lang + ".srt"
  {
    WithSuffix(mkv, "." + lang + ".srt")
  }

  /** Whether `name` fits the glob pattern `<stem>.*.<lang>.srt`, the stem and language taken literally. */
  predicate MatchesPattern(name: string, stem: string, lang: string)
  {
    var head := stem + ".";
    var tail := "." + lang + ".srt";
    |head| + |tail| <= |name| && head <= name && name[|name| - |tail|..] == tail
  }

  /** The `*` of the pattern stands for any string, the empty one included. */
  lemma MatchesPatternIff(name: string, stem: string, lang: string)
    ensures MatchesPattern(name, stem, lang) <==> exists mid :: name == stem + "." + mid + "." + lang + ".srt"
  {
    var head := stem + ".";
    var tail := "." + lang + ".srt";
    if MatchesPattern(name, stem, lang) {
      var mid := name[|head|..|name| - |tail|];
      assert name == head + mid + tail;
      assert name == stem + "." + mid + "." + lang + ".srt";
    }
    if exists mid :: name == stem + "." + mid + "." + lang + ".srt" {
      var mid :| name == stem + "." + mid + "." + lang + ".srt";
      assert name == head + mid + tail;
      assert head <= name;
      assert name[|name| - |tail|..] == tail;
    }
  }

  /** `mkv.parent.glob("<stem>.*.<lang>.srt")`: the entries beside the container that fit the pattern. */
  function Candidates(fs: FsState, mkv: Path, lang: string): (c: set<Path>)
    ensures forall p :: p in c <==> fs.Exists(p) && Parent(p) == Parent(mkv) && MatchesPattern(Name(p), Stem(Name(mkv)), lang)
  {
    set p | p in fs.Entries() && Parent(p) == Parent(mkv) && MatchesPattern(Name(p), Stem(Name(mkv)), lang)
  }

  /**
   * `find_srt_file`: nothing for an empty language; otherwise the exact
   * sidecar `<stem>.<lang>.srt` when it exists, else the first candidate of
   * the pattern in natural order, else nothing. The language is lower-cased.
   */
  function FindSrtFile(fs: FsState, mkv: Path, checkLang: string, natLe: (Path, Path) -> bool): Option<Path>
    requires Name(mkv) != "" && TotalOrder(natLe)
  {
    if checkLang == "" then None
    else
      var lang := Lower(checkLang);
      var exact := ExactSidecar(mkv, lang);
      if fs.Exists(exact) then Some(exact)
      else
        var c := Candidates(fs, mkv, lang);
        if c == {} then None else Some(Least(c, natLe))
  }

  /**
   * What `find_srt_file` finds: nothing for an empty language; the exact
   * sidecar whenever it exists; otherwise an existing entry beside the
   * container that fits the pattern and comes first in natural order among
   * all that do; nothing only when there is neither.
   */
  lemma FindSrtFileSpec(fs: FsState, mkv: Path, checkLang: string, natLe: (Path, Path) -> bool)
    requires Name(mkv) != "" && TotalOrder(natLe)
    ensures var r := FindSrtFile(fs, mkv, checkLang, natLe);
      var lang := Lower(checkLang);
      && (checkLang == "" ==> r == None)
      && (checkLang != "" && fs.Exists(ExactSidecar(mkv, lang)) ==> r == Some(ExactSidecar(mkv, lang)))
      && (r.Some? ==> fs.Exists(r.value) && Parent(r.value) == Parent(mkv))
      && (r.Some? && r.value != ExactSidecar(mkv, lang) ==>
            MatchesPattern(Name(r.value), Stem(Name(mkv)), lang)
            && forall q :: q in Candidates(fs, mkv, lang) ==> natLe(r.value, q))
      && (r.None? && checkLang != "" ==> !fs.Exists(ExactSidecar(mkv, lang)) && Candidates(fs, mkv, lang) == {})
  {
  }

  /** The exact sidecar never fits the pattern, so the two ways of finding a sidecar do not overlap. */
  lemma ExactIsNotACandidate(mkv: Path, lang: string)
    requires Name(mkv) != ""
    ensures !MatchesPattern(Name(ExactSidecar(mkv, lang)), Stem(Name(mkv)), lang)
  {
  }

  /** The lookup depends on the language only through its lower-cased form. */
  lemma FindSrtFileCaseInsensitive(fs: FsState, mkv: Path, checkLang: string, natLe: (Path, Path) -> bool)
    requires Name(mkv) != "" && TotalOrder(natLe)
    ensures FindSrtFile(fs, mkv, checkLang, natLe) == FindSrtFile(fs, mkv, Lower(checkLang), natLe)
  {
    LowerIdempotent(checkLang);
    assert |Lower(checkLang)| == |checkLang|;
  }

  // ----- output path -----

  /**
   * `compute_output_path` without its side effect: the container itself when
   * there is no output directory; otherwise its place under the output
   * directory, mirroring its place under the root, or just its name when it is
   * not under the root.
   */
  function OutputPath(mkv: Path, root: Path, outputDir: Option<Path>): (target: Path)
    ensures outputDir.None? ==> target == mkv
    ensures outputDir.Some? ==> outputDir.value.parts <= target.parts
    ensures outputDir.Some? && root.parts <= mkv.parts ==> Join(root, Path(target.parts[|outputDir.value.parts|..])) == mkv
    ensures outputDir.Some? && !(root.parts <= mkv.parts) ==> target == Child(outputDir.value, Name(mkv))
  {
    match outputDir
    case None => mkv
    case Some(out) =>
      match RelativeTo(mkv, root)
      case Some(rel) =>
        assert (out.parts + rel.parts)[|out.parts|..] == rel.parts;
        Join(out, rel)
      case None => Child(out, Name(mkv))
  }

  /** Below an output directory the container keeps its file name, unless it is the root itself. */
  lemma OutputKeepsName(mkv: Path, root: Path, out: Path)
    requires mkv != root
    ensures Name(OutputPath(mkv, root, Some(out))) == Name(mkv)
  {
    if root.parts <= mkv.parts {
      var rel := RelativeTo(mkv, root).value;
      assert Join(root, rel) == mkv;
      assert rel.parts != [];
      assert Name(Join(out, rel)) == rel.parts[|rel.parts| - 1];
    }
  }

  /**
   * `compute_output_path`: the target path; with an output directory it also
   * creates the target's directory and its ancestors, which raises (`!ok`)
   * when one of them is a file.
   */
  method ComputeOutputPath(fsys: FileSystem, mkv: Path, root: Path, outputDir: Option<Path>) returns (ok: bool, target: Path)
    modifies fsys
    ensures target == OutputPath(mkv, root, outputDir)
    ensures outputDir.None? ==> ok && fsys.State() == old(fsys.State())
    ensures outputDir.Some? ==> Effect(ok, fsys.State()) == MadeDirs(old(fsys.State()), Parent(target))
  {
    target := OutputPath(mkv, root, outputDir);
    if outputDir.None? {
      ok := true;
      return;
    }
    ok := fsys.MakeDirs(Parent(target));
  }

  // ----- replace protocol -----

  /**
   * `handle_file_operations(tmp, output, mkv)`. The condition
   * `tmp != output != mkv` is a chained comparison: `tmp != output and
   * output != mkv`. Then an existing output is unlinked and the temp file is
   * moved onto the output; otherwise, if only the temp file differs from the
   * output, it is moved onto the container; otherwise nothing happens.
   */
  function FileOperations(s: FsState, tmp: Path, output: Path, mkv: Path): Effect
  {
    if tmp != output && output != mkv then
      var cleared := if s.Exists(output) then Unlinked(s, output) else Effect(true, s);
      if cleared.ok then Replaced(cleared.state, tmp, output) else cleared
    else if tmp != output then Replaced(s, tmp, mkv)
    else Effect(true, s)
  }

  /** `handle_file_operations`, one filesystem call at a time. */
  method HandleFileOperations(fsys: FileSystem, tmp: Path, output: Path, mkv: Path) returns (ok: bool)
    modifies fsys
    ensures Effect(ok, fsys.State()) == FileOperations(old(fsys.State()), tmp, output, mkv)
  {
    if tmp != output && output != mkv {
      ok := true;
      if output in fsys.files || output in fsys.dirs {
        ok := fsys.Unlink(output);
      }
      if ok {
        ok := fsys.Replace(tmp, output);
      }
    } else if tmp != output {
      ok := fsys.Replace(tmp, mkv);
    } else {
      ok := true;
    }
  }

  /** When the temp file is the output there is nothing to move. */
  lemma DirectWriteMovesNothing(s: FsState, tmp: Path, mkv: Path)
    ensures FileOperations(s, tmp, tmp, mkv) == Effect(true, s)
  {
  }

  /**
   * Replace in place: the container takes the temp file's contents and the
   * temp file is gone; nothing else changes. The move fails, changing
   * nothing, when the temp file is missing or the container is a directory.
   */
  lemma InPlaceReplace(s: FsState, tmp: Path, mkv: Path)
    requires tmp != mkv
    ensures FileOperations(s, tmp, mkv, mkv).ok <==> tmp in s.files && mkv !in s.dirs
    ensures FileOperations(s, tmp, mkv, mkv).ok ==>
      FileOperations(s, tmp, mkv, mkv).state == FsState((s.files - {tmp})[mkv := s.files[tmp]], s.dirs)
    ensures !FileOperations(s, tmp, mkv, mkv).ok ==> FileOperations(s, tmp, mkv, mkv).state == s
  {
  }

  /**
   * Output elsewhere: an existing output file is overwritten by the temp
   * file and the container is left as it is.
   */
  lemma SeparateOutputReplace(s: FsState, tmp: Path, output: Path, mkv: Path)
    requires tmp != output && output != mkv && tmp != mkv
    requires tmp in s.files && output !in s.dirs
    ensures FileOperations(s, tmp, output, mkv).ok
    ensures FileOperations(s, tmp, output, mkv).state == FsState((s.files - {tmp, output})[output := s.files[tmp]], s.dirs)
  {
    var e := FileOperations(s, tmp, output, mkv);
    if output in s.files {
      assert (s.files - {output} - {tmp})[output := s.files[tmp]] == (s.files - {tmp, output})[output := s.files[tmp]];
    } else {
      assert s.files - {tmp} == s.files - {tmp, output};
    }
  }

  /** What the container library does when asked to merge: it raises before writing anything, fails while writing, or succeeds. */
  datatype MuxOutcome =
    | SetupFailed                       // opening the container or the subtitle track raised
    | MuxFailed(residue: Option<Bytes>) // the merge raised; the temp path holds `residue`, or is gone
    | Muxed(result: Bytes)              // the merge wrote `result`

  /**
   * `mux_with_subtitle`, given the temp path it writes to: that path is a
   * fresh file created beside the container when the output is the
   * container, and the output itself otherwise. A failed merge raises unless
   * `ignoreErrors`, in which case the replace step runs regardless.
   */
  function MuxProtocol(s: FsState, mkv: Path, output: Path, tmp: Path, outcome: MuxOutcome, ignoreErrors: bool): Effect
  {
    var created := if output == mkv then Written(s, tmp, []) else s;
    match outcome
    case SetupFailed => Effect(false, created)
    case Muxed(data) => FileOperations(Written(created, tmp, data), tmp, output, mkv)
    case MuxFailed(residue) =>
      var left := LeftBehind(created, tmp, residue);
      if ignoreErrors then FileOperations(left, tmp, output, mkv) else Effect(false, left)
  }

  /** The temp path the protocol may use: a fresh name beside the container in place, the output otherwise. */
  ghost predicate ValidTemp(s: FsState, mkv: Path, output: Path, tmp: Path)
  {
    if output == mkv then Parent(tmp) == Parent(mkv) && !s.Exists(tmp) else tmp == output
  }

  /** `mux_with_subtitle`, step by step on the filesystem; `ok` is false when it raises. */
  method MuxWithSubtitle(fsys: FileSystem, mkv: Path, output: Path, outcome: MuxOutcome, ignoreErrors: bool)
    returns (ok: bool, tmp: Path)
    modifies fsys
    ensures ValidTemp(old(fsys.State()), mkv, output, tmp)
    ensures Effect(ok, fsys.State()) == MuxProtocol(old(fsys.State()), mkv, output, tmp, outcome, ignoreErrors)
  {
    if output == mkv {
      tmp := fsys.CreateTemp(Parent(mkv));
    } else {
      tmp := output;
    }
    match outcome {
      case SetupFailed =>
        ok := false;
        return;
      case Muxed(data) =>
        fsys.Write(tmp, data);
      case MuxFailed(residue) =>
        fsys.Leave(tmp, residue);
        if !ignoreErrors {
          ok := false;
          return;
        }
    }
    ok := HandleFileOperations(fsys, tmp, output, mkv);
  }

  /** The protocol only ever writes directly or replaces in place: the unlink-and-move branch is never taken. */
  lemma ProtocolNeverUnlinks(s: FsState, mkv: Path, output: Path, tmp: Path)
    requires ValidTemp(s, mkv, output, tmp)
    requires mkv in s.files
    ensures !(tmp != output && output != mkv)
    ensures output == mkv ==> tmp != mkv
  {
  }

  /** A successful merge in place: the container holds the merged data and no temp file remains. */
  lemma InPlaceSuccess(s: FsState, mkv: Path, tmp: Path, data: Bytes, ignoreErrors: bool)
    requires mkv in s.files && mkv !in s.dirs && ValidTemp(s, mkv, mkv, tmp)
    ensures MuxProtocol(s, mkv, mkv, tmp, Muxed(data), ignoreErrors) == Effect(true, FsState(s.files[mkv := data], s.dirs))
  {
    var w := Written(Written(s, tmp, []), tmp, data);
    assert (w.files - {tmp})[mkv := data] == s.files[mkv := data];
  }

  /**
   * A failed merge in place with errors ignored: the container is replaced by
   * whatever the merge left at the temp path, or, when it left nothing, the
   * move raises and the container keeps its contents.
   */
  lemma InPlaceIgnoredFailure(s: FsState, mkv: Path, tmp: Path, residue: Option<Bytes>)
    requires mkv in s.files && mkv !in s.dirs && ValidTemp(s, mkv, mkv, tmp)
    ensures residue.Some? ==> MuxProtocol(s, mkv, mkv, tmp, MuxFailed(residue), true) == Effect(true, FsState(s.files[mkv := residue.value], s.dirs))
    ensures residue.None? ==> MuxProtocol(s, mkv, mkv, tmp, MuxFailed(residue), true) == Effect(false, s)
  {
    var created := Written(s, tmp, []);
    if residue.Some? {
      var w := Written(created, tmp, residue.value);
      assert (w.files - {tmp})[mkv := residue.value] == s.files[mkv := residue.value];
    } else {
      assert created.files - {tmp} == s.files;
    }
  }

  /**
   * A failed merge in place without ignoring errors raises: the container is
   * untouched, and whatever the merge left at the temp path stays there.
   */
  lemma InPlaceFailureRaises(s: FsState, mkv: Path, tmp: Path, outcome: MuxOutcome)
    requires mkv in s.files && ValidTemp(s, mkv, mkv, tmp)
    requires outcome.SetupFailed? || outcome.MuxFailed?
    ensures !MuxProtocol(s, mkv, mkv, tmp, outcome, false).ok
    ensures MuxProtocol(s, mkv, mkv, tmp, outcome, false).state.files - {tmp} == s.files
    ensures outcome.SetupFailed? ==> MuxProtocol(s, mkv, mkv, tmp, outcome, false).state.files == s.files[tmp := []]
    ensures outcome.MuxFailed? && outcome.residue.Some? ==>
      MuxProtocol(s, mkv, mkv, tmp, outcome, false).state.files == s.files[tmp := outcome.residue.value]
  {
    var e := MuxProtocol(s, mkv, mkv, tmp, outcome, false);
    assert e.state.files - {tmp} == s.files;
  }

  /**
   * Opening the container or the subtitle track happens before the `try`, so
   * a setup failure raises even with errors ignored; in place, the empty temp
   * file created for the merge stays beside the container.
   */
  lemma InPlaceSetupFailureLeavesTemp(s: FsState, mkv: Path, tmp: Path, ignoreErrors: bool)
    requires mkv in s.files && ValidTemp(s, mkv, mkv, tmp)
    ensures MuxProtocol(s, mkv, mkv, tmp, SetupFailed, ignoreErrors) == Effect(false, FsState(s.files[tmp := []], s.dirs))
    ensures tmp != mkv && tmp in MuxProtocol(s, mkv, mkv, tmp, SetupFailed, ignoreErrors).state.files
  {
  }

  /** Writing to a separate output never touches the container, whatever the merge does. */
  lemma SeparateOutputKeepsContainer(s: FsState, mkv: Path, output: Path, outcome: MuxOutcome, ignoreErrors: bool)
    requires output != mkv && mkv in s.files
    ensures var e := MuxProtocol(s, mkv, output, output, outcome, ignoreErrors);
      mkv in e.state.files && e.state.files[mkv] == s.files[mkv] && e.state.dirs == s.dirs
    ensures outcome.Muxed? ==> MuxProtocol(s, mkv, output, output, outcome, ignoreErrors) == Effect(true, Written(s, output, outcome.result))
  {
  }
}
