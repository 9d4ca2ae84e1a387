/**
 * The file-system side of `watch`: which watcher events trigger a new pass,
 * and where in the curriculum that pass starts.
 *
 * A path is its list of components, as `Path::components` yields them; the
 * components are taken as already normalised (no `.` entries, no empty ones).
 */
module Paths {
  import opened Outcomes
  import opened Algorithms

  /** The events the `notify` watcher delivers after debouncing. */
  datatype Event =
    | NoticeWrite(path: Path)
    | NoticeRemove(path: Path)
    | Create(path: Path)
    | Write(path: Path)
    | Chmod(path: Path)
    | Remove(path: Path)
    | Rename(path: Path, to: Path)
    | Rescan
    | Error(message: string)

  /** The position of the last `.` in a file name, if it has one. */
  function LastDot(name: string): (k: Option<nat>)
    ensures k.None? <==> '.' !in name
    ensures k.Some? ==> k.value < |name| && name[k.value] == '.' && '.' !in name[k.value + 1..]
    decreases |name|
  {
    if |name| == 0 then None
    else if name[|name| - 1] == '.' then Some(|name| - 1)
    else
      var k := LastDot(name[..|name| - 1]);
      assert name == name[..|name| - 1] + [name[|name| - 1]];
      if k.Some? then
        assert name[k.value + 1..] == name[..|name| - 1][k.value + 1..] + [name[|name| - 1]];
        k
      else k
  }

  /**
   * `Path::extension`: the part of the last component after its last `.`.
   * There is none when the path is empty or ends in `..`, when the name has
   * no `.`, or when its only `.` is the first character (a hidden file).
   */
  function Extension(p: Path): (r: Option<string>)
    ensures r.None? <==>
      |p| == 0 || p[|p| - 1] == ".." || '.' !in p[|p| - 1]
      || (p[|p| - 1][0] == '.' && '.' !in p[|p| - 1][1..])
    ensures r.Some? ==> |p| > 0 && '.' !in r.value && |r.value| < |p[|p| - 1]|
    ensures r.Some? ==> var name := p[|p| - 1];
      name[|name| - |r.value| - 1] == '.' && name[|name| - |r.value|..] == r.value
  {
    if |p| == 0 || p[|p| - 1] == ".." then None
    else
      var name := p[|p| - 1];
      match LastDot(name)
      case None => None
      case Some(k) => if k == 0 then None else Some(name[k + 1..])
  }

  /** The last component is a Rust source file name with a non-empty stem: `x.rs`. */
  predicate NamesRustSource(p: Path)
  {
    |p| > 0 && |p[|p| - 1]| >= 4 && p[|p| - 1][|p[|p| - 1]| - 3..] == ".rs"
  }

  /** The extension is `rs` exactly when the file name has a non-empty stem followed by `.rs`. */
  lemma RustExtension(p: Path)
    ensures Extension(p) == Some("rs") <==> NamesRustSource(p)
  {
    var r := Extension(p);
    if r == Some("rs") {
      var name := p[|p| - 1];
      assert name[|name| - 2..] == "rs";
      assert |name| >= 4;
      assert name[|name| - 3..] == [name[|name| - 3]] + name[|name| - 2..];
    }
    if NamesRustSource(p) {
      var name := p[|p| - 1];
      assert name[|name| - 3] == '.';
      assert name[1..][|name| - 4] == '.';
      assert r.Some?;
      var e := r.value;
      assert |e| == 2;
      assert e == name[|name| - 2..] == name[|name| - 3..][1..];
    }
  }

  /** `Path::ends_with`: `child`'s components are the last components of `p`. */
  predicate EndsWith(p: Path, child: Path)
  {
    |child| <= |p| && p[|p| - |child|..] == child
  }

  /**
   * The event filter of `watch`: a created, written or re-permissioned file
   * whose extension is `rs` and which still exists names the file to check.
   */
  function Trigger(ev: Event, present: bool): (file: Option<Path>)
    ensures file.Some? <==> (ev.Create? || ev.Write? || ev.Chmod?) && NamesRustSource(ev.path) && present
    ensures file.Some? ==> file.value == ev.path
  {
    match ev
    case Create(p) => RustExtension(p); if Extension(p) == Some("rs") && present then Some(p) else None
    case Chmod(p) => RustExtension(p); if Extension(p) == Some("rs") && present then Some(p) else None
    case Write(p) => RustExtension(p); if Extension(p) == Some("rs") && present then Some(p) else None
    case _ => None
  }

  /**
   * The curriculum from the first entry whose path the changed file ends
   * with (`skip_while`): every entry skipped fails to match, and the pass
   * starts at a matching entry; it is empty when no entry matches.
   */
  function ResumeFrom(algos: seq<Algorithm>, file: Path): (pending: seq<Algorithm>)
    ensures |pending| <= |algos| && pending == algos[|algos| - |pending|..]
    ensures forall i :: 0 <= i < |algos| - |pending| ==> !EndsWith(file, algos[i].path)
    ensures |pending| > 0 ==> EndsWith(file, pending[0].path)
    decreases |algos|
  {
    if |algos| == 0 then []
    else if EndsWith(file, algos[0].path) then algos
    else
      var rest := ResumeFrom(algos[1..], file);
      assert forall i :: 0 < i < |algos| ==> algos[i] == algos[1..][i - 1];
      rest
  }

  /** The pass resumes with nothing exactly when no entry's path matches the file. */
  lemma ResumeFromNothing(algos: seq<Algorithm>, file: Path)
    ensures ResumeFrom(algos, file) == [] <==> forall a :: a in algos ==> !EndsWith(file, a.path)
  {
    var pending := ResumeFrom(algos, file);
    if pending == [] {
      forall a | a in algos
        ensures !EndsWith(file, a.path)
      {
        var i :| 0 <= i < |algos| && algos[i] == a;
      }
    } else {
      assert pending[0] in algos;
    }
  }
}
