/** The parts of Node's `path` module (posix flavour, separator `/`) that the
    generator calls. `path.relative` resolves its arguments against the current
    directory; the model fixes that directory to `/`. */
module Paths {
  import opened Text

  /** The scan of `path.dirname` from the right: the index of the last `/` that has
      a non-slash character after it, or -1. */
  function DirnameEnd(p: string, i: int, matchedSlash: bool): (end: int)
    requires -1 <= i < |p|
    ensures end == -1 || (1 <= end <= i && p[end] == '/')
    decreases i + 1
  {
    if i < 1 then -1
    else if p[i] == '/' then (if !matchedSlash then i else DirnameEnd(p, i - 1, true))
    else DirnameEnd(p, i - 1, false)
  }

  /** `path.dirname`. */
  function Dirname(p: string): string {
    if |p| == 0 then "."
    else
      var end := DirnameEnd(p, |p| - 1, true);
      if end == -1 then (if p[0] == '/' then "/" else ".")
      else if p[0] == '/' && end == 1 then "//"
      else p[..end]
  }

  /** `path.basename` without a suffix: the text after the last `/`. */
  function Basename(p: string): (r: string)
    ensures '/' !in r
  {
    var segments := Split(p, '/');
    segments[|segments| - 1]
  }

  /** `path.basename(p, suffix)`: the suffix is cut off when the base name ends with
      it and is longer than it; a path equal to the suffix gives the empty string. */
  function BasenameWithout(p: string, suffix: string): (r: string)
  {
    if suffix != "" && p == suffix then ""
    else
      var b := Basename(p);
      if |b| > |suffix| && EndsWith(b, suffix) then b[..|b| - |suffix|] else b
  }

  /** One step of Node's `normalizeString`: `.` and empty segments vanish, `..` pops the
      last kept segment, or is kept when nothing can be popped and the path may climb
      above its start. */
  function NormStep(stack: seq<string>, seg: string, aboveRoot: bool): seq<string> {
    if seg == "" || seg == "." then stack
    else if seg == ".." then
      (if |stack| > 0 && stack[|stack| - 1] != ".." then stack[..|stack| - 1]
       else if aboveRoot then stack + [".."]
       else stack)
    else stack + [seg]
  }

  function NormSegments(stack: seq<string>, segs: seq<string>, aboveRoot: bool): seq<string>
    decreases |segs|
  {
    if |segs| == 0 then stack
    else NormSegments(NormStep(stack, segs[0], aboveRoot), segs[1..], aboveRoot)
  }

  /** `path.normalize`. */
  function Normalize(p: string): string {
    if |p| == 0 then "."
    else
      var isAbsolute := p[0] == '/';
      var trailing := p[|p| - 1] == '/';
      var body := Join(NormSegments([], Split(p, '/'), !isAbsolute), "/");
      if |body| == 0 then (if isAbsolute then "/" else if trailing then "./" else ".")
      else (if isAbsolute then "/" else "") + body + (if trailing then "/" else "")
  }

  /** The segments of `path.resolve(p)` with the current directory `/`. */
  function Resolved(p: string): seq<string> {
    NormSegments([], Split(p, '/'), false)
  }

  /** Length of the longest common prefix of two segment lists. */
  function CommonPrefix(a: seq<string>, b: seq<string>): (k: nat)
    ensures k <= |a| && k <= |b| && a[..k] == b[..k]
    ensures k < |a| && k < |b| ==> a[k] != b[k]
    decreases |a|
  {
    if |a| == 0 || |b| == 0 || a[0] != b[0] then 0
    else
      var k := CommonPrefix(a[1..], b[1..]);
      assert a[..k + 1] == [a[0]] + a[1..][..k];
      assert b[..k + 1] == [b[0]] + b[1..][..k];
      k + 1
  }

  function Ups(n: nat): (r: seq<string>)
    ensures |r| == n && forall i :: 0 <= i < n ==> r[i] == ".."
  {
    seq(n, i => "..")
  }

  /** `path.relative(from, to)`: climb out of what `from` does not share with `to`,
      then descend into the rest of `to`. */
  function Relative(from: string, to: string): string {
    var f := Resolved(from);
    var t := Resolved(to);
    var k := CommonPrefix(f, t);
    Join(Ups(|f| - k) + t[k..], "/")
  }
}
