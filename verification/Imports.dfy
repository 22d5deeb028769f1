/** Resolving import specifiers to known files: `normalize_path` and `resolve_imports` in chunk.rs. */
module ImportPaths {
  import opened Wrappers
  import opened Text

  // ---------- paths ----------

  /** What one segment does to the path read so far. */
  function Pushed(path: seq<string>, segment: string): (after: seq<string>) {
    if segment == "" || segment == "." then path
    else if segment == ".." then (if path == [] then [] else path[..|path| - 1])
    else path + [segment]
  }

  /** The path after the first `k` segments, read from a path that is already there. */
  function WalkFrom(start: seq<string>, segments: seq<string>, k: nat): (path: seq<string>)
    requires k <= |segments|
  {
    if k == 0 then start else Pushed(WalkFrom(start, segments, k - 1), segments[k - 1])
  }

  function Segments(p: string): (path: seq<string>) {
    var segments := SplitOn(p, '/');
    WalkFrom([], segments, |segments|)
  }

  function Joined(path: seq<string>): (p: string) {
    JoinOn(path, '/', |path|)
  }

  function NormalizePath(p: string): (normal: string) {
    Joined(Segments(p))
  }

  /** No empty segments, no dots, no slashes inside: nothing left to resolve. */
  predicate IsResolved(path: seq<string>) {
    forall i :: 0 <= i < |path| ==> path[i] != "" && path[i] != "." && path[i] != ".." && '/' !in path[i]
  }

  lemma {:induction false} WalkStaysResolved(start: seq<string>, segments: seq<string>, k: nat)
    requires k <= |segments| && IsResolved(start) && forall i :: 0 <= i < |segments| ==> '/' !in segments[i]
    ensures IsResolved(WalkFrom(start, segments, k))
  {
    if k > 0 {
      WalkStaysResolved(start, segments, k - 1);
    }
  }

  lemma SegmentsAreResolved(p: string)
    ensures IsResolved(Segments(p))
  {
    PartsComeFromText(p, '/', |p|);
    var segments := SplitOn(p, '/');
    WalkStaysResolved([], segments, |segments|);
  }

  lemma {:induction false} WalkOverResolved(start: seq<string>, path: seq<string>, k: nat)
    requires k <= |path| && IsResolved(path)
    ensures WalkFrom(start, path, k) == start + path[..k]
  {
    if k == 0 {
      assert start + path[..0] == start;
    } else {
      WalkOverResolved(start, path, k - 1);
      assert start + path[..k - 1] + [path[k - 1]] == start + path[..k];
    }
  }

  lemma {:induction false} WalkPast(start: seq<string>, a: seq<string>, b: seq<string>, k: nat)
    requires k <= |b|
    ensures WalkFrom(start, a + b, |a| + k) == WalkFrom(WalkFrom(start, a, |a|), b, k)
  {
    if k == 0 {
      WalkOfPrefix(start, a + b, a, |a|);
    } else {
      WalkPast(start, a, b, k - 1);
      assert (a + b)[|a| + k - 1] == b[k - 1];
    }
  }

  lemma {:induction false} WalkOfPrefix(start: seq<string>, a: seq<string>, b: seq<string>, k: nat)
    requires k <= |a| && k <= |b| && forall i :: 0 <= i < k ==> a[i] == b[i]
    ensures WalkFrom(start, a, k) == WalkFrom(start, b, k)
  {
    if k > 0 {
      WalkOfPrefix(start, a, b, k - 1);
    }
  }

  lemma SegmentsOfConcat(a: string, b: string)
    ensures Segments(a + "/" + b) == WalkFrom(Segments(a), SplitOn(b, '/'), |SplitOn(b, '/')|)
  {
    SplitOfJoined(a, '/', b);
    WalkPast([], SplitOn(a, '/'), SplitOn(b, '/'), |SplitOn(b, '/')|);
  }

  lemma SegmentsOfJoined(path: seq<string>)
    requires IsResolved(path)
    ensures Segments(Joined(path)) == path
  {
    if path == [] {
      SplitOfOnePart("", '/');
      assert WalkFrom([], [""], 1) == Pushed(WalkFrom([], [""], 0), "");
    } else {
      SplitOfJoin(path, '/', |path|);
      assert path[..|path|] == path;
      WalkOverResolved([], path, |path|);
      assert [] + path == path;
    }
  }

  /** A normal path stays as it is. */
  lemma NormalizeIsIdempotent(p: string)
    ensures NormalizePath(NormalizePath(p)) == NormalizePath(p)
  {
    hide Segments, Joined;
    SegmentsAreResolved(p);
    SegmentsOfJoined(Segments(p));
  }

  /** An import resolved against a directory does not depend on how the directory is spelled. */
  lemma DirectorySpellingDoesNotMatter(dir: string, spec: string)
    ensures NormalizePath(NormalizePath(dir) + "/" + spec) == NormalizePath(dir + "/" + spec)
  {
    hide Segments, Joined, SplitOn;
    SegmentsAreResolved(dir);
    SegmentsOfJoined(Segments(dir));
    SegmentsOfConcat(dir, spec);
    SegmentsOfConcat(NormalizePath(dir), spec);
  }

  /** A `..` takes back one step into a directory. */
  lemma ParentTakesBackOneStep(dir: string, name: string, rest: string)
    requires name != "" && name != "." && name != ".." && '/' !in name
    ensures NormalizePath(dir + "/" + (name + "/" + ("../" + rest))) == NormalizePath(dir + "/" + rest)
  {
    hide Joined;
    var tail := SplitOn(rest, '/');
    SplitOfOnePart(name, '/');
    SplitOfOnePart("..", '/');
    assert "../" + rest == ".." + ['/'] + rest;
    SplitOfJoined("..", '/', rest);
    SplitOfJoined(name, '/', "../" + rest);
    assert name + "/" + ("../" + rest) == name + ['/'] + ("../" + rest);
    SegmentsOfConcat(dir, name + "/" + ("../" + rest));
    SegmentsOfConcat(dir, rest);
    StepAndBack(Segments(dir), name, tail);
  }

  lemma StepAndBack(start: seq<string>, name: string, tail: seq<string>)
    requires name != "" && name != "." && name != ".."
    ensures var there := [name] + ([".."] + tail);
            WalkFrom(start, there, |there|) == WalkFrom(start, tail, |tail|)
  {
    var there, two := [name] + ([".."] + tail), [name, ".."];
    assert there == two + tail;
    assert WalkFrom(start, two, 1) == start + [name];
    assert WalkFrom(start, two, 2) == start;
    WalkPast(start, two, tail, |tail|);
  }

  // ---------- resolving ----------

  /** A file's identity: its repo and its path there. */
  type FileId = (string, string)

  datatype ImportAlias = ImportAlias(prefix: string, repo: string, dir: string)

  const JS_EXTS: seq<string> := ["ts", "tsx", "js", "jsx", "mjs", "cjs"]

  function WithSuffix(base: string, between: string, k: nat): (paths: seq<string>)
    requires k <= |JS_EXTS|
  {
    if k == 0 then [] else WithSuffix(base, between, k - 1) + [base + between + JS_EXTS[k - 1]]
  }

  /** The files a JavaScript import may mean, the likeliest first. */
  function JsCandidates(base: string): (paths: seq<string>) {
    var stem := if |base| >= 3 && base[|base| - 3..] == ".js" then Some(base[..|base| - 3]) else None;
    [base]
    + (if stem.Some? then [stem.value + ".ts", stem.value + ".tsx"] else [])
    + WithSuffix(base, ".", |JS_EXTS|) + WithSuffix(base, "/index.", |JS_EXTS|)
  }

  /** Where the last `src/` starts, among the first `k` positions. */
  function LastSrc(path: string, k: nat): (at: Option<nat>)
    requires k <= |path|
    ensures at.Some? ==> at.value < k && OccursAt(path, "src/", at.value)
  {
    if k == 0 then None else if OccursAt(path, "src/", k - 1) then Some(k - 1) else LastSrc(path, k - 1)
  }

  function FirstAlias(aliases: seq<ImportAlias>, spec: string): (a: Option<ImportAlias>)
    ensures a.Some? ==> a.value.prefix <= spec
  {
    if aliases == [] then None
    else if aliases[0].prefix <= spec then Some(aliases[0])
    else FirstAlias(aliases[1..], spec)
  }

  /** The files a specifier may mean, in the order they are tried; none for a bare package. */
  function Candidates(
    repo: string, path: string, dir: string, aliases: seq<ImportAlias>, spec: string)
    : (ids: seq<FileId>)
  {
    if "mod:" <= spec then
      var name := spec[4..];
      [(repo, NormalizePath(dir + "/" + (name + ".rs"))), (repo, NormalizePath(dir + "/" + (name + "/mod.rs")))]
    else if "crate:" <= spec then
      var name, at := spec[6..], LastSrc(path, |path|);
      if at.None? then []
      else
        var root := path[..at.value + 3];
        [(repo, root + "/" + name + ".rs"), (repo, root + "/" + name + "/mod.rs")]
    else if "./" <= spec || "../" <= spec then
      InRepo(repo, JsCandidates(NormalizePath(dir + "/" + spec)))
    else match FirstAlias(aliases, spec)
      case Some(a) => InRepo(a.repo, JsCandidates(NormalizePath(a.dir + "/" + spec[|a.prefix|..])))
      case None => []
  }

  function InRepo(repo: string, paths: seq<string>): (ids: seq<FileId>)
    ensures |ids| == |paths|
  {
    seq(|paths|, i requires 0 <= i < |paths| => (repo, paths[i]))
  }

  /** The first known candidate. */
  function Hit(candidates: seq<FileId>, known: set<FileId>): (hit: Option<FileId>)
    ensures hit.Some? ==> hit.value in known && hit.value in candidates
    ensures hit.None? <==> forall id :: id in candidates ==> id !in known
  {
    if candidates == [] then None
    else if candidates[0] in known then Some(candidates[0])
    else Hit(candidates[1..], known)
  }

  function HitOf(repo: string, path: string, dir: string, aliases: seq<ImportAlias>, known: set<FileId>, spec: string)
    : (hit: Option<FileId>)
  {
    Hit(Candidates(repo, path, dir, aliases, spec), known)
  }

  /** The files one file imports: known ones, each once, in the order their specifiers come. */
  method ResolveImports(
    repo: string, path: string, dir: string, specs: seq<string>, aliases: seq<ImportAlias>, known: set<FileId>)
    returns (out: seq<FileId>)
    ensures out == Resolved(repo, path, dir, specs, aliases, known, |specs|)
  {
    out := [];
    for k := 0 to |specs|
      invariant out == Resolved(repo, path, dir, specs, aliases, known, k)
    {
      var hit := HitOf(repo, path, dir, aliases, known, specs[k]);
      if hit.Some? && hit.value !in out {
        out := out + [hit.value];
      }
    }
  }

  /** What the first `k` specifiers resolve to. */
  function Resolved(
    repo: string, path: string, dir: string, specs: seq<string>, aliases: seq<ImportAlias>, known: set<FileId>, k: nat)
    : (out: seq<FileId>)
    requires k <= |specs|
  {
    if k == 0 then []
    else
      var out := Resolved(repo, path, dir, specs, aliases, known, k - 1);
      var hit := HitOf(repo, path, dir, aliases, known, specs[k - 1]);
      if hit.Some? && hit.value !in out then out + [hit.value] else out
  }

  /** Nothing unknown, nothing twice, and exactly what some specifier means first. */
  lemma {:induction false} ResolvedExactly(
    repo: string, path: string, dir: string, specs: seq<string>, aliases: seq<ImportAlias>, known: set<FileId>, k: nat)
    requires k <= |specs|
    ensures var out := Resolved(repo, path, dir, specs, aliases, known, k);
            && (forall i, j :: 0 <= i < j < |out| ==> out[i] != out[j])
            && (forall id :: id in out <==>
                  exists i :: 0 <= i < k && HitOf(repo, path, dir, aliases, known, specs[i]) == Some(id))
            && (forall id :: id in out ==> id in known)
  {
    hide HitOf;
    if k > 0 {
      ResolvedExactly(repo, path, dir, specs, aliases, known, k - 1);
      HitIsKnown(repo, path, dir, aliases, known, specs[k - 1]);
    }
  }

  lemma HitIsKnown(repo: string, path: string, dir: string, aliases: seq<ImportAlias>, known: set<FileId>, spec: string)
    ensures var hit := HitOf(repo, path, dir, aliases, known, spec); hit.Some? ==> hit.value in known
  {
  }
}
