/** POSIX `path.join` and `path.dirname` of Node.js, which the page builder
    and the link checker use to form file paths. */
module Paths {
  import opened Common

  /** The arguments of `path.join` that are not the empty string. */
  function NonEmpty(args: seq<string>): (r: seq<string>)
    ensures forall i :: 0 <= i < |r| ==> r[i] != ""
    ensures |r| <= |args|
  {
    if |args| == 0 then []
    else (if args[0] == "" then [] else [args[0]]) + NonEmpty(args[1..])
  }

  /** One segment of path normalisation: '' and '.' are dropped, '..' removes
      the previous segment unless that is itself '..' (or there is none, in
      which case it is kept only for relative paths). */
  function Push(stack: seq<string>, seg: string, allowAboveRoot: bool): seq<string> {
    if seg == "" || seg == "." then stack
    else if seg == ".." then
      if |stack| > 0 && stack[|stack| - 1] != ".." then stack[..|stack| - 1]
      else if allowAboveRoot then stack + [".."]
      else stack
    else stack + [seg]
  }

  function Resolve(stack: seq<string>, segs: seq<string>, allowAboveRoot: bool): seq<string>
    decreases |segs|
  {
    if |segs| == 0 then stack else Resolve(Push(stack, segs[0], allowAboveRoot), segs[1..], allowAboveRoot)
  }

  /** `path.normalize(p)` on POSIX. */
  function Normalize(p: string): string {
    if p == "" then "."
    else
      var absolute := p[0] == '/';
      var trailing := p[|p| - 1] == '/';
      var body := Join(Resolve([], Split(p, '/'), !absolute), "/");
      if body == "" then (if absolute then "/" else if trailing then "./" else ".")
      else (if absolute then "/" else "") + body + (if trailing then "/" else "")
  }

  /** `path.join(...args)` on POSIX. */
  function PathJoin(args: seq<string>): string {
    var parts := NonEmpty(args);
    if |parts| == 0 then "." else Normalize(Join(parts, "/"))
  }

  /** A segment that normalisation leaves alone. */
  predicate PlainSegment(s: string) {
    s != "" && s != "." && s != ".." && '/' !in s
  }

  /** The index of the last '/' at position 1 or later. */
  function LastSlash(s: string): (r: Option<nat>)
    ensures r.Some? ==> 1 <= r.value < |s| && s[r.value] == '/'
    ensures r.Some? ==> forall i :: r.value < i < |s| ==> s[i] != '/'
    ensures r.None? ==> forall i :: 1 <= i < |s| ==> s[i] != '/'
  {
    if |s| <= 1 then None
    else if s[|s| - 1] == '/' then Some(|s| - 1)
    else LastSlash(s[..|s| - 1])
  }

  /** `path.dirname(p)` on POSIX. */
  function Dirname(p: string): string {
    if p == "" then "."
    else
      var hasRoot := p[0] == '/';
      var keep := |p| - TrailCount(p[1..], Slash);
      match LastSlash(p[..keep])
      case None => if hasRoot then "/" else "."
      case Some(e) => if hasRoot && e == 1 then "//" else p[..e]
  }

  lemma {:induction false} ResolvePlain(stack: seq<string>, segs: seq<string>, allowAboveRoot: bool)
    requires forall i :: 0 <= i < |segs| ==> PlainSegment(segs[i])
    ensures Resolve(stack, segs, allowAboveRoot) == stack + segs
    decreases |segs|
  {
    if |segs| > 0 {
      ResolvePlain(stack + [segs[0]], segs[1..], allowAboveRoot);
      assert stack + [segs[0]] + segs[1..] == stack + segs;
    }
  }

  lemma {:induction false} NonEmptyPlain(args: seq<string>)
    requires forall i :: 0 <= i < |args| ==> args[i] == "" || PlainSegment(args[i])
    ensures forall i :: 0 <= i < |NonEmpty(args)| ==> PlainSegment(NonEmpty(args)[i])
  {
    if |args| > 0 {
      NonEmptyPlain(args[1..]);
    }
  }

  lemma JoinPlainEnds(parts: seq<string>)
    requires |parts| > 0
    requires forall i :: 0 <= i < |parts| ==> PlainSegment(parts[i])
    ensures var p := Join(parts, "/"); p != "" && p[0] != '/' && p[|p| - 1] != '/'
  {
    JoinFirstChar(parts, "/");
    JoinLastChar(parts, "/");
    var last := parts[|parts| - 1];
    assert last[|last| - 1] in last;
    assert parts[0][0] in parts[0];
  }

  /** Normalising a join of plain segments changes nothing. */
  lemma NormalizePlain(parts: seq<string>)
    requires |parts| > 0
    requires forall i :: 0 <= i < |parts| ==> PlainSegment(parts[i])
    ensures Normalize(Join(parts, "/")) == Join(parts, "/")
  {
    var p := Join(parts, "/");
    JoinPlainEnds(parts);
    SplitJoin(parts, '/');
    ResolvePlain([], parts, !(p[0] == '/'));
    assert [] + parts == parts;
    var body := Join(Resolve([], Split(p, '/'), !(p[0] == '/')), "/");
    assert body == p;
    assert "" + p + "" == p;
  }

  /** Joining segments that are empty or plain puts the non-empty ones
      between single slashes, with nothing else changed. */
  lemma PathJoinPlain(args: seq<string>)
    requires forall i :: 0 <= i < |args| ==> args[i] == "" || PlainSegment(args[i])
    requires NonEmpty(args) != []
    ensures PathJoin(args) == Join(NonEmpty(args), "/")
  {
    NonEmptyPlain(args);
    NormalizePlain(NonEmpty(args));
  }
}
