/** POSIX path handling as the plugin relies on it: `path.isAbsolute`,
    `path.join`, `path.resolve` and `path.relative`, with a path taken apart
    into the segments between its slashes. */
module Paths {

  predicate IsAbsolute(s: string) {
    |s| > 0 && s[0] == '/'
  }

  predicate StartsWith(s: string, prefix: string) {
    |prefix| <= |s| && s[..|prefix|] == prefix
  }

  // ---------------------------------------------------------------------------
  // Segments

  /** The index of the first `/` at or after `i`, or `|s|` when there is none. */
  function SlashFrom(s: string, i: nat): (k: nat)
    requires i <= |s|
    ensures i <= k <= |s| && (k < |s| ==> s[k] == '/')
    ensures forall j :: i <= j < k ==> s[j] != '/'
    decreases |s| - i
  {
    if i == |s| || s[i] == '/' then i else SlashFrom(s, i + 1)
  }

  /** The pieces of `s` between its slashes; `""` gives `[""]` and a leading
      slash gives a first piece `""`. */
  function Split(s: string): seq<string>
    decreases |s|
  {
    var k := SlashFrom(s, 0);
    if k == |s| then [s] else [s[..k]] + Split(s[k + 1..])
  }

  /** The pieces glued back together with `/` between them. */
  function Join(segs: seq<string>): string
    decreases |segs|
  {
    if |segs| == 0 then ""
    else if |segs| == 1 then segs[0]
    else segs[0] + "/" + Join(segs[1..])
  }

  predicate NoSlash(segs: seq<string>) {
    forall k :: 0 <= k < |segs| ==> '/' !in segs[k]
  }

  lemma {:induction false} SplitPieces(s: string)
    ensures |Split(s)| > 0 && NoSlash(Split(s))
    decreases |s|
  {
    var k := SlashFrom(s, 0);
    if k < |s| {
      SplitPieces(s[k + 1..]);
      assert '/' !in s[..k] by {
        forall j | 0 <= j < k ensures s[..k][j] != '/' {
          assert s[..k][j] == s[j];
        }
      }
    } else {
      assert '/' !in s by {
        forall j | 0 <= j < |s| ensures s[j] != '/' {
        }
      }
    }
  }

  /** Splitting and joining give back the text. */
  lemma {:induction false} JoinSplit(s: string)
    ensures Join(Split(s)) == s
    decreases |s|
  {
    var k := SlashFrom(s, 0);
    if k < |s| {
      var rest := s[k + 1..];
      JoinSplit(rest);
      SplitPieces(rest);
      assert Split(s) == [s[..k]] + Split(rest);
      assert Join(Split(s)) == s[..k] + "/" + Join(Split(rest));
      assert s == s[..k] + "/" + rest;
    }
  }

  /** Joining and splitting give back the pieces, when none holds a slash. */
  lemma {:induction false} SplitJoin(segs: seq<string>)
    requires |segs| > 0 && NoSlash(segs)
    ensures Split(Join(segs)) == segs
    decreases |segs|
  {
    var s := Join(segs);
    if |segs| == 1 {
      assert SlashFrom(s, 0) == |s|;
    } else {
      var head := segs[0];
      var rest := segs[1..];
      assert s == head + "/" + Join(rest);
      assert SlashFrom(s, 0) == |head| by {
        assert s[|head|] == '/';
        assert forall j :: 0 <= j < |head| ==> s[j] == head[j];
        SlashIsFirst(s, 0, |head|);
      }
      assert s[..|head|] == head;
      assert s[|head| + 1..] == Join(rest);
      SplitJoin(rest);
    }
  }

  lemma SlashIsFirst(s: string, i: nat, k: nat)
    requires i <= k < |s| && s[k] == '/' && forall j :: i <= j < k ==> s[j] != '/'
    ensures SlashFrom(s, i) == k
    decreases k - i
  {
    if i < k {
      SlashIsFirst(s, i + 1, k);
    }
  }

  // ---------------------------------------------------------------------------
  // Normalisation

  /** A segment that survives normalisation: not empty, not `.` or `..`, no slash. */
  predicate Plain(seg: string) {
    seg != "" && seg != "." && seg != ".." && '/' !in seg
  }

  /** The segments of a normalised absolute path. */
  predicate Normal(segs: seq<string>) {
    forall k :: 0 <= k < |segs| ==> Plain(segs[k])
  }

  /** One segment of a path applied to the segments so far: empty pieces and
      `.` vanish, `..` drops the last real segment (at the root of an absolute
      path it is dropped itself, at the front of a relative one it is kept). */
  function Push(absolute: bool, acc: seq<string>, seg: string): seq<string> {
    if seg == "" || seg == "." then acc
    else if seg == ".." then
      if |acc| > 0 && acc[|acc| - 1] != ".." then acc[..|acc| - 1]
      else if absolute then acc
      else acc + [".."]
    else acc + [seg]
  }

  /** `parts` applied one by one to `acc`. */
  function Normalize(absolute: bool, acc: seq<string>, parts: seq<string>): seq<string>
    decreases |parts|
  {
    if parts == [] then acc else Normalize(absolute, Push(absolute, acc, parts[0]), parts[1..])
  }

  /** Normalising an absolute path leaves only plain segments. */
  lemma {:induction false} NormalizeIsNormal(acc: seq<string>, parts: seq<string>)
    requires Normal(acc)
    ensures NoSlash(parts) ==> Normal(Normalize(true, acc, parts))
    decreases |parts|
  {
    if parts != [] && NoSlash(parts) {
      var next := Push(true, acc, parts[0]);
      assert Normal(next) by {
        if parts[0] != "" && parts[0] != "." && parts[0] != ".." {
          assert Plain(parts[0]);
        }
      }
      NormalizeIsNormal(next, parts[1..]);
    }
  }

  /** Plain segments are appended unchanged. */
  lemma {:induction false} NormalizePlain(absolute: bool, acc: seq<string>, parts: seq<string>)
    ensures Normal(parts) ==> Normalize(absolute, acc, parts) == acc + parts
    decreases |parts|
  {
    if parts != [] && Normal(parts) {
      assert Plain(parts[0]);
      NormalizePlain(absolute, acc + [parts[0]], parts[1..]);
      assert acc + [parts[0]] + parts[1..] == acc + parts;
    }
  }

  /** A path as `path` sees it: whether it starts at the root, and its
      normalised segments (a relative one may start with `..` segments). */
  datatype PathName = PathName(absolute: bool, segs: seq<string>)

  /** `path.normalize`, up to a trailing slash (see the README). */
  function Parse(s: string): (r: PathName)
    ensures r.absolute == IsAbsolute(s)
    ensures NoSlash(r.segs)
    ensures Normal(Split(s)) ==> r.segs == Split(s)
  {
    SplitPieces(s);
    NormalizeNoSlash(IsAbsolute(s), [], Split(s));
    NormalizePlain(IsAbsolute(s), [], Split(s));
    PathName(IsAbsolute(s), Normalize(IsAbsolute(s), [], Split(s)))
  }

  /** `path.join(a, b)`: the non-empty arguments joined with `/`, then normalised. */
  function JoinPath(a: string, b: string): (r: PathName)
    ensures r.absolute == if a == "" then IsAbsolute(b) else IsAbsolute(a)
    ensures NoSlash(r.segs)
  {
    assert a != "" ==> (a + "/" + b)[0] == a[0];
    Parse(if a == "" then b else if b == "" then a else a + "/" + b)
  }

  /** `toAbsolutePath`: an absolute value is kept, a relative one is joined
      onto `cwd`. */
  function ToAbsolutePath(cwd: string, value: string): (r: PathName)
    ensures r.absolute == (IsAbsolute(value) || IsAbsolute(cwd))
    ensures NoSlash(r.segs)
    ensures IsAbsolute(value) ==> r == Parse(value)
  {
    if IsAbsolute(value) then Parse(value) else JoinPath(cwd, value)
  }

  /** An absolute value does not depend on `cwd`. */
  lemma AbsoluteIgnoresCwd(cwd: string, cwd': string, value: string)
    requires IsAbsolute(value)
    ensures ToAbsolutePath(cwd, value) == ToAbsolutePath(cwd', value)
    ensures ToAbsolutePath(cwd, value).absolute
  {
  }

  /** A relative value made of plain segments lands below `cwd`: its segments
      are appended to those of `cwd` (none for an empty `cwd`), and the
      result is absolute exactly when `cwd` is. */
  lemma {:induction false} RelativeLandsBelow(cwd: string, value: string)
    requires !IsAbsolute(value) && Normal(Split(value))
    ensures var p := ToAbsolutePath(cwd, value);
            p.absolute == IsAbsolute(cwd) && p.segs == Parse(cwd).segs + Split(value)
  {
    var pieces := Split(value);
    SplitPieces(value);
    assert value != "" by {
      assert Plain(pieces[0]);
    }
    if cwd == "" {
      assert Parse(cwd).segs == [];
      return;
    }
    var joined := cwd + "/" + value;
    assert IsAbsolute(joined) == IsAbsolute(cwd);
    SplitAround(cwd, value);
    NormalizeAppend(IsAbsolute(cwd), [], Split(cwd), pieces);
    NormalizePlain(IsAbsolute(cwd), Parse(cwd).segs, pieces);
  }

  /** The pieces of `a/b` are those of `a` followed by those of `b`. */
  lemma {:induction false} SplitAround(a: string, b: string)
    ensures Split(a + "/" + b) == Split(a) + Split(b)
    decreases |a|
  {
    var k := SlashFrom(a, 0);
    if k == |a| {
      SplitAtJoint(a, b);
    } else {
      var a' := a[k + 1..];
      SplitInsideFirst(a, b, k);
      SplitAround(a', b);
      AppendAssoc([a[..k]], Split(a'), Split(b));
    }
  }

  lemma AppendAssoc(x: seq<string>, y: seq<string>, z: seq<string>)
    ensures x + (y + z) == (x + y) + z
  {
  }

  /** When `a` holds no slash, `a/b` splits into `a` and the pieces of `b`. */
  lemma SplitAtJoint(a: string, b: string)
    requires SlashFrom(a, 0) == |a|
    ensures Split(a + "/" + b) == Split(a) + Split(b)
  {
    var s := a + "/" + b;
    SplitFirstSlash(s, |a|);
    assert s[..|a|] == a;
    assert s[|a| + 1..] == b;
  }

  /** When the first slash of `a` is at `k`, so is that of `a/b`. */
  lemma SplitInsideFirst(a: string, b: string, k: nat)
    requires k < |a| && SlashFrom(a, 0) == k
    ensures Split(a) == [a[..k]] + Split(a[k + 1..])
    ensures Split(a + "/" + b) == [a[..k]] + Split(a[k + 1..] + "/" + b)
  {
    var s := a + "/" + b;
    SplitFirstSlash(a, k);
    SplitFirstSlash(s, k);
    assert s[..k] == a[..k];
    assert s[k + 1..] == a[k + 1..] + "/" + b;
  }

  /** Split at the first slash: the piece before it, then the pieces after it. */
  lemma SplitFirstSlash(s: string, k: nat)
    requires k < |s| && s[k] == '/' && forall j :: 0 <= j < k ==> s[j] != '/'
    ensures Split(s) == [s[..k]] + Split(s[k + 1..])
  {
    SlashIsFirst(s, 0, k);
  }

  /** Normalising two runs of pieces is normalising the first, then the second. */
  lemma {:induction false} NormalizeAppend(absolute: bool, acc: seq<string>, xs: seq<string>, ys: seq<string>)
    ensures Normalize(absolute, acc, xs + ys) == Normalize(absolute, Normalize(absolute, acc, xs), ys)
    decreases |xs|
  {
    if xs == [] {
      assert xs + ys == ys;
    } else {
      assert (xs + ys)[0] == xs[0];
      assert (xs + ys)[1..] == xs[1..] + ys;
      NormalizeAppend(absolute, Push(absolute, acc, xs[0]), xs[1..], ys);
    }
  }

  /** `path.resolve(p)` against the process working directory `processCwd`:
      the segments of the absolute, normalised result. */
  function Resolve(processCwd: string, p: PathName): (r: seq<string>)
    ensures NoSlash(p.segs) ==> Normal(r)
    ensures p.absolute && Normal(p.segs) ==> r == p.segs
    ensures !p.absolute && Normal(p.segs) ==> r == Normalize(true, [], Split(processCwd)) + p.segs
  {
    var parts := if p.absolute then p.segs else Split(processCwd) + p.segs;
    assert NoSlash(p.segs) ==> NoSlash(parts) by {
      if NoSlash(p.segs) && !p.absolute {
        SplitPieces(processCwd);
        forall k | 0 <= k < |parts| ensures '/' !in parts[k] {
          if k >= |Split(processCwd)| {
            assert parts[k] == p.segs[k - |Split(processCwd)|];
          }
        }
      }
    }
    NormalizeIsNormal([], parts);
    NormalizePlain(true, [], p.segs);
    NormalizeAppend(true, [], Split(processCwd), p.segs);
    NormalizePlain(true, Normalize(true, [], Split(processCwd)), p.segs);
    Normalize(true, [], parts)
  }

  // ---------------------------------------------------------------------------
  // Relative paths and containment

  /** `n` copies of `..`. */
  function Ups(n: nat): seq<string> {
    seq(n, _ => "..")
  }

  /** `path.relative(from, to)` on resolved segments: drop the common
      prefix, then leave the rest of `from` by one `..` per segment and
      descend into the rest of `to`. */
  function Relative(from: seq<string>, to: seq<string>): (r: seq<string>)
    ensures |from| <= |to| && to[..|from|] == from ==> r == to[|from|..]
    ensures !(|from| <= |to| && to[..|from|] == from) ==> |r| > 0 && r[0] == ".."
    decreases |from|
  {
    if |from| > 0 && |to| > 0 && from[0] == to[0] then
      assert |from| <= |to| && to[..|from|] == from ==> to[1..][..|from| - 1] == from[1..] && to[1..][|from| - 1..] == to[|from|..];
      assert !(|from| <= |to| && to[..|from|] == from) ==> !(|from[1..]| <= |to[1..]| && to[1..][..|from[1..]|] == from[1..]);
      Relative(from[1..], to[1..])
    else
      assert |from| > 0 ==> (Ups(|from|) + to)[0] == ".." && !(|from| <= |to| && to[..|from|] == from);
      assert Ups(0) + to == to;
      Ups(|from|) + to
  }

  /** `d` is a proper prefix of `f`: `f` names a path strictly below `d`. */
  predicate Descends(f: seq<string>, d: seq<string>) {
    |d| < |f| && f[..|d|] == d
  }

  /** Joined segments that begin with a `..` segment begin with `..`. */
  lemma JoinUp(segs: seq<string>)
    ensures |segs| > 0 && segs[0] == ".." ==> StartsWith(Join(segs), "..")
  {
    if |segs| > 1 && segs[0] == ".." {
      assert Join(segs)[..2] == "..";
    }
  }

  /** `isPathInside`: the path from `dir` to `file` is not empty, does not
      begin with `..` and is not absolute. */
  predicate IsPathInside(processCwd: string, file: PathName, dir: PathName)
    ensures IsPathInside(processCwd, file, dir) ==> Descends(Resolve(processCwd, file), Resolve(processCwd, dir))
  {
    var rel := Relative(Resolve(processCwd, dir), Resolve(processCwd, file));
    JoinUp(rel);
    var s := Join(rel);
    s != "" && !StartsWith(s, "..") && !IsAbsolute(s)
  }

  /** `f` lies strictly below `d` and its first segment past `d` does not
      itself start with `..`. */
  predicate StrictlyBelow(f: seq<string>, d: seq<string>) {
    |d| < |f| && f[..|d|] == d && !StartsWith(f[|d|], "..")
  }

  /** How a joined run of segments starts: by its first segment. */
  lemma JoinStart(segs: seq<string>)
    requires |segs| > 0 && segs[0] != "" && '/' !in segs[0]
    ensures Join(segs) != "" && !IsAbsolute(Join(segs))
    ensures StartsWith(Join(segs), "..") <==> StartsWith(segs[0], "..")
  {
    var s := Join(segs);
    var head := segs[0];
    assert s[..|head|] == head;
    assert s[0] == head[0];
    assert head[0] != '/';
    if |head| == 1 && |segs| > 1 {
      assert s[1] == '/';
    }
    if |head| >= 2 {
      assert s[..2] == head[..2];
    }
  }

  /** The relative-path test on resolved segments. */
  lemma InsideIffBelow(f: seq<string>, d: seq<string>)
    requires Normal(f) && Normal(d)
    ensures var rel := Join(Relative(d, f));
            (rel != "" && !StartsWith(rel, "..") && !IsAbsolute(rel)) <==> StrictlyBelow(f, d)
  {
    var rel := Relative(d, f);
    if !(|d| <= |f| && f[..|d|] == d) {
      JoinStart(rel);
    } else if |d| == |f| {
      assert rel == [];
    } else {
      assert rel[0] == f[|d|];
      assert Plain(f[|d|]);
      JoinStart(rel);
    }
  }

  /** Normalised segments never hold a slash. */
  lemma {:induction false} NormalizeNoSlash(absolute: bool, acc: seq<string>, parts: seq<string>)
    requires NoSlash(acc) && NoSlash(parts)
    ensures NoSlash(Normalize(absolute, acc, parts))
    decreases |parts|
  {
    if parts != [] {
      var next := Push(absolute, acc, parts[0]);
      assert NoSlash(next);
      NormalizeNoSlash(absolute, next, parts[1..]);
    }
  }

  /** On parsed paths, `isPathInside(file, dir)` holds exactly when the
      resolved file lies strictly below the resolved directory and its first
      segment below it does not start with `..`. */
  lemma IsPathInsideIff(processCwd: string, file: PathName, dir: PathName)
    requires NoSlash(file.segs) && NoSlash(dir.segs)
    ensures IsPathInside(processCwd, file, dir)
            <==> StrictlyBelow(Resolve(processCwd, file), Resolve(processCwd, dir))
  {
    InsideIffBelow(Resolve(processCwd, file), Resolve(processCwd, dir));
  }

  /** Resolving an already resolved path changes nothing. */
  lemma ResolveResolved(processCwd: string, p: PathName)
    requires NoSlash(p.segs)
    ensures Resolve(processCwd, PathName(true, Resolve(processCwd, p))) == Resolve(processCwd, p)
  {
    NormalizePlain(true, [], Resolve(processCwd, p));
  }

  /** A directory is not inside itself. */
  lemma NotInsideItself(processCwd: string, p: PathName)
    ensures !IsPathInside(processCwd, p, p)
  {
    var d := Resolve(processCwd, p);
    assert d[|d|..] == [];
  }

  /** A descendant whose first segment below the directory starts with `..`
      (`dir/..cache/x`) is counted as outside it. */
  lemma DotDotNamedChildIsOutside(d: seq<string>, child: string, rest: seq<string>)
    requires Normal(d) && Plain(child) && Normal(rest) && StartsWith(child, "..")
    ensures !IsPathInside("/", PathName(true, d + [child] + rest), PathName(true, d))
  {
    var f := d + [child] + rest;
    assert Normal(f) by {
      forall k | 0 <= k < |f| ensures Plain(f[k]) {
        if k < |d| { assert f[k] == d[k]; }
        else if k > |d| { assert f[k] == rest[k - |d| - 1]; }
      }
    }
    NormalizePlain(true, [], f);
    NormalizePlain(true, [], d);
    assert Resolve("/", PathName(true, f)) == f;
    assert Resolve("/", PathName(true, d)) == d;
    assert f[|d|] == child;
    InsideIffBelow(f, d);
  }
}
