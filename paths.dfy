/**
 * The part of Python's pathlib the tool uses, on paths seen as their sequence of
 * components (`Path.parts`): `name`, `parent`, `/`, `stem`, `suffix`,
 * `with_suffix` and `relative_to`. Paths are compared component by component,
 * as pathlib does; nothing here touches a disk.
 */
module Paths {
  import opened Wrappers

  datatype Path = Path(parts: seq<string>)

  /** `p.name`: the last component, or "" for a path with none. */
  function Name(p: Path): string
  {
    if p.parts == [] then "" else p.parts[|p.parts| - 1]
  }

  /** `p.parent`: the path without its last component (a path with none is its own parent). */
  function Parent(p: Path): Path
  {
    if p.parts == [] then p else Path(p.parts[..|p.parts| - 1])
  }

  /** `dir / name` for a single file name. */
  function Child(dir: Path, name: string): (p: Path)
    ensures Parent(p) == dir && Name(p) == name
  {
    assert (dir.parts + [name])[..|dir.parts|] == dir.parts;
    Path(dir.parts + [name])
  }

  /** `dir / rel` for a relative path. */
  function Join(dir: Path, rel: Path): Path
  {
    Path(dir.parts + rel.parts)
  }

  /** `s.rfind(c)`: the index of the last `c` in `s`, or -1. */
  function LastIndexOf(s: string, c: char): (i: int)
    ensures -1 <= i < |s|
    ensures i >= 0 ==> s[i] == c
    ensures forall k :: i < k < |s| ==> s[k] != c
  {
    if s == [] then -1
    else if s[|s| - 1] == c then |s| - 1
    else LastIndexOf(s[..|s| - 1], c)
  }

  /** Whether a name has a suffix: its last dot is neither its first nor its last character. */
  predicate HasSuffix(name: string)
  {
    var i := LastIndexOf(name, '.');
    0 < i < |name| - 1
  }

  /** `p.suffix` of a name: from its last dot on, when `HasSuffix`; otherwise "". */
  function Suffix(name: string): string
  {
    if HasSuffix(name) then name[LastIndexOf(name, '.')..] else ""
  }

  /** `p.stem` of a name: the name without its suffix. */
  function Stem(name: string): (stem: string)
    ensures stem + Suffix(name) == name
    ensures |stem| <= |name|
  {
    if HasSuffix(name) then name[..LastIndexOf(name, '.')] else name
  }

  /** `p.with_suffix(suffix)`: same directory, the name's suffix replaced (pathlib refuses an empty name). */
  function WithSuffix(p: Path, suffix: string): (q: Path)
    requires Name(p) != ""
    ensures Parent(q) == Parent(p)
    ensures Name(q) == Stem(Name(p)) + suffix
  {
    Child(Parent(p), Stem(Name(p)) + suffix)
  }

  /** `p.relative_to(root)`: the components of `p` after `root`, or the ValueError pathlib raises when `p` is not under `root`. */
  function RelativeTo(p: Path, root: Path): (rel: Option<Path>)
    ensures rel.Some? <==> root.parts <= p.parts
    ensures rel.Some? ==> Join(root, rel.value) == p
  {
    if root.parts <= p.parts then
      assert root.parts + p.parts[|root.parts|..] == p.parts;
      Some(Path(p.parts[|root.parts|..]))
    else None
  }
}
