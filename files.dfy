/**
 * The filesystem as the tool sees it: a map from file paths to their contents
 * and a set of directories. `Path.exists()` and `glob` see both. Each operation
 * the tool performs is given as a function on the state, saying whether the
 * call returned normally (`ok`) or raised, and what the state is afterwards;
 * the class `FileSystem` performs them in place.
 */
module Files {
  import opened Wrappers
  import opened Paths

  type Bytes = seq<bv8>

  datatype FsState = FsState(files: map<Path, Bytes>, dirs: set<Path>) {
    /** `p.exists()`: a file or a directory is there. */
    predicate Exists(p: Path)
    {
      p in files || p in dirs
    }

    /** Every path that exists. */
    function Entries(): set<Path>
    {
      files.Keys + dirs
    }
  }

  /** Whether a call returned normally, and the state after it. */
  datatype Effect = Effect(ok: bool, state: FsState)

  /** `p.unlink()`: removes a file; raises for a missing path or a directory. */
  function Unlinked(s: FsState, p: Path): Effect
  {
    if p in s.files then Effect(true, s.(files := s.files - {p})) else Effect(false, s)
  }

  /** `src.replace(dst)`: moves the file `src` onto `dst`, overwriting a file there; raises when `src` is not a file or `dst` is a directory. */
  function Replaced(s: FsState, src: Path, dst: Path): Effect
  {
    if src in s.files && dst !in s.dirs then
      Effect(true, s.(files := (s.files - {src})[dst := s.files[src]]))
    else Effect(false, s)
  }

  /** An external tool writing the whole file `p`. */
  function Written(s: FsState, p: Path, data: Bytes): FsState
  {
    s.(files := s.files[p := data])
  }

  /** What an external tool that failed while writing `p` leaves there: nothing, or some contents. */
  function LeftBehind(s: FsState, p: Path, residue: Option<Bytes>): FsState
  {
    match residue
    case None => s.(files := s.files - {p})
    case Some(data) => Written(s, p, data)
  }

  /** `d` and every directory above it. */
  function Ancestors(d: Path): set<Path>
  {
    set k | 1 <= k <= |d.parts| :: Path(d.parts[..k])
  }

  /** `d.mkdir(parents=True, exist_ok=True)`: creates `d` and its missing ancestors; raises when one of them is a file. */
  function MadeDirs(s: FsState, d: Path): Effect
  {
    if Ancestors(d) !! s.files.Keys then Effect(true, s.(dirs := s.dirs + Ancestors(d)))
    else Effect(false, s)
  }

  /** Some name is always free in a directory: one longer than every name that exists. */
  lemma {:induction false} LongerThanAll(names: set<string>) returns (n: nat)
    ensures forall x :: x in names ==> |x| < n
  {
    if names == {} {
      n := 0;
    } else {
      var y :| y in names;
      var m := LongerThanAll(names - {y});
      n := if |y| + 1 > m then |y| + 1 else m;
    }
  }

  lemma FreshChildExists(s: FsState, dir: Path)
    ensures exists p :: Parent(p) == dir && !s.Exists(p)
  {
    var n := LongerThanAll(set q | q in s.Entries() :: Name(q));
    var p := Child(dir, seq(n, _ => 'x'));
    assert Name(p) == seq(n, _ => 'x');
  }

  class FileSystem {
    var files: map<Path, Bytes>
    var dirs: set<Path>

    function State(): FsState
      reads this
    {
      FsState(files, dirs)
    }

    constructor (s: FsState)
      ensures State() == s
    {
      files := s.files;
      dirs := s.dirs;
    }

    method Unlink(p: Path) returns (ok: bool)
      modifies this
      ensures Effect(ok, State()) == Unlinked(old(State()), p)
    {
      ok := p in files;
      if ok {
        files := files - {p};
      }
    }

    method Replace(src: Path, dst: Path) returns (ok: bool)
      modifies this
      ensures Effect(ok, State()) == Replaced(old(State()), src, dst)
    {
      ok := src in files && dst !in dirs;
      if ok {
        files := (files - {src})[dst := files[src]];
      }
    }

    method MakeDirs(d: Path) returns (ok: bool)
      modifies this
      ensures Effect(ok, State()) == MadeDirs(old(State()), d)
    {
      ok := Ancestors(d) !! files.Keys;
      if ok {
        dirs := dirs + Ancestors(d);
      }
    }

    method Write(p: Path, data: Bytes)
      modifies this
      ensures State() == Written(old(State()), p, data)
    {
      files := files[p := data];
    }

    method Leave(p: Path, residue: Option<Bytes>)
      modifies this
      ensures State() == LeftBehind(old(State()), p, residue)
    {
      match residue {
        case None => files := files - {p};
        case Some(data) => files := files[p := data];
      }
    }

    /** `tempfile.NamedTemporaryFile(delete=False, dir=dir)`: creates an empty file under a name nobody uses. */
    method CreateTemp(dir: Path) returns (tmp: Path)
      modifies this
      ensures Parent(tmp) == dir && !old(State()).Exists(tmp)
      ensures State() == Written(old(State()), tmp, [])
    {
      FreshChildExists(State(), dir);
      tmp :| Parent(tmp) == dir && !State().Exists(tmp);
      files := files[tmp := []];
    }
  }
}
