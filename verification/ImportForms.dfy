/** What each form of an import specifier leads to, in terms of the paths of files: `resolve_imports` in chunk.rs. */
module ImportForms {
  import opened Wrappers
  import opened Text
  import opened Planner
  import opened ImportPaths
  import opened ImportGraph

  /** A path with nothing to resolve: no segment of it is empty or dots. */
  predicate IsPlain(p: string) {
    IsResolved(SplitOn(p, '/'))
  }

  /** `u` is the last file with the first of these paths that any file of the repo has. */
  ghost predicate LeadsTo(files: seq<SourceFile>, repo: string, paths: seq<string>, u: nat) {
    && u < |files| && files[u].repo == repo
    && (forall v :: u < v < |files| ==> !(files[v].repo == repo && files[v].path == files[u].path))
    && exists n :: 0 <= n < |paths| && files[u].path == paths[n]
                && forall m :: 0 <= m < n ==> !HasFile(files, repo, paths[m])
  }

  predicate HasFile(files: seq<SourceFile>, repo: string, path: string) {
    exists i :: 0 <= i < |files| && files[i].repo == repo && files[i].path == path
  }

  /** The specifier imports what these paths lead to; by itself, nothing else. */
  ghost predicate ReadsAs(
    files: seq<SourceFile>, aliases: seq<ImportAlias>, specifiers: seq<seq<string>>, t: nat, spec: string, repo: string,
    paths: seq<string>)
    requires |specifiers| == |files| && t < |files|
  {
    var imports := ImportsOf(files, aliases, specifiers)[t];
    && (forall u: nat :: LeadsTo(files, repo, paths, u) ==> u in imports)
    && (specifiers[t] == [spec] ==> forall u: nat :: u in imports ==> LeadsTo(files, repo, paths, u))
  }

  lemma KnownIffFile(files: seq<SourceFile>, repo: string, path: string)
    ensures (repo, path) in IdsOf(files) <==> HasFile(files, repo, path)
  {
  }

  lemma FirstIffLeads(files: seq<SourceFile>, repo: string, paths: seq<string>, u: nat)
    ensures LeadsTo(files, repo, paths, u) <==>
            u < |files| && files[u].repo == repo && IsLastOf(files, u, IdOf(files[u]))
            && IsFirst(InRepo(repo, paths), IdsOf(files), IdOf(files[u]))
  {
    forall n | 0 <= n < |paths|
      ensures (repo, paths[n]) in IdsOf(files) <==> HasFile(files, repo, paths[n])
    {
      KnownIffFile(files, repo, paths[n]);
    }
    var ids := InRepo(repo, paths);
    assert forall n :: 0 <= n < |paths| ==> ids[n] == (repo, paths[n]);
    hide IdsOf, HasFile;
    if u < |files| {
      KnownIffFile(files, files[u].repo, files[u].path);
      IsAFile(files, u);
    }
  }

  lemma IsAFile(files: seq<SourceFile>, u: nat)
    requires u < |files|
    ensures HasFile(files, files[u].repo, files[u].path)
  {
  }

  /** A specifier whose candidates are these paths of one repo reads as them. */
  lemma CandidatesRead(
    files: seq<SourceFile>, aliases: seq<ImportAlias>, specifiers: seq<seq<string>>, t: nat, spec: string, repo: string,
    paths: seq<string>)
    requires |specifiers| == |files| && t < |files| && spec in specifiers[t]
    requires Candidates(files[t].repo, files[t].path, DirOf(files[t].path), aliases, spec) == InRepo(repo, paths)
    ensures ReadsAs(files, aliases, specifiers, t, spec, repo, paths)
  {
    hide Candidates, ImportsOf, IsFirst, LeadsTo;
    forall u: nat
      ensures LeadsTo(files, repo, paths, u) ==> u in ImportsOf(files, aliases, specifiers)[t]
      ensures specifiers[t] == [spec] && u in ImportsOf(files, aliases, specifiers)[t] ==>
                LeadsTo(files, repo, paths, u)
    {
      ImportedExactly(files, aliases, specifiers, t, u);
      FirstIffLeads(files, repo, paths, u);
      if u < |files| && IsFirst(InRepo(repo, paths), IdsOf(files), IdOf(files[u])) {
        FirstIsInRepo(files, repo, paths, IdOf(files[u]));
      }
    }
  }

  lemma FirstIsInRepo(files: seq<SourceFile>, repo: string, paths: seq<string>, id: FileId)
    requires IsFirst(InRepo(repo, paths), IdsOf(files), id)
    ensures id.0 == repo
  {
  }

  // ---------- plain paths ----------

  lemma SegmentsOfPlain(p: string)
    requires IsPlain(p)
    ensures Segments(p) == SplitOn(p, '/')
  {
    var parts := SplitOn(p, '/');
    WalkOverResolved([], parts, |parts|);
    assert [] + parts[..|parts|] == parts;
  }

  /** Reading a plain path from a plain directory, or from the root. */
  lemma PlainBelow(d: string, p: string)
    requires IsPlain(p) && (d == "" || IsPlain(d))
    ensures NormalizePath(d + "/" + p) == if d == "" then p else d + "/" + p
  {
    hide SplitOn;
    var parts := SplitOn(p, '/');
    SegmentsOfConcat(d, p);
    WalkOverResolved(Segments(d), parts, |parts|);
    assert parts[..|parts|] == parts;
    if d == "" {
      SegmentsOfNothing();
      assert [] + parts == parts;
      JoinOfSplit(p, '/');
    } else {
      SegmentsOfPlain(d);
      SplitOfJoined(d, '/', p);
      assert d + ['/'] + p == d + "/" + p;
      JoinOfSplit(d + "/" + p, '/');
    }
  }

  lemma SegmentsOfNothing()
    ensures Segments("") == []
  {
    SplitOfOnePart("", '/');
    assert WalkFrom([], [""], 1) == Pushed(WalkFrom([], [""], 0), "");
  }

  /** A dot in front of a path changes nothing. */
  lemma DotIsHere(d: string, p: string)
    ensures NormalizePath(d + "/" + ("./" + p)) == NormalizePath(d + "/" + p)
  {
    hide SplitOn, Joined;
    var parts := SplitOn(p, '/');
    SplitOfOnePart(".", '/');
    SplitOfJoined(".", '/', p);
    assert "." + ['/'] + p == "./" + p;
    SegmentsOfConcat(d, "./" + p);
    SegmentsOfConcat(d, p);
    WalkPast(Segments(d), ["."], parts, |parts|);
    assert WalkFrom(Segments(d), ["."], 1) == Pushed(WalkFrom(Segments(d), ["."], 0), ".");
  }

  /** Below a directory, `..` leads to its parent. */
  lemma DotsAreParent(d: string, sub: string, p: string)
    requires sub != "" && sub != "." && sub != ".." && '/' !in sub
    ensures NormalizePath(d + "/" + sub + "/" + ("../" + p)) == NormalizePath(d + "/" + p)
  {
    ParentTakesBackOneStep(d, sub, p);
    assert d + "/" + sub + "/" + ("../" + p) == d + "/" + (sub + "/" + ("../" + p));
  }

  // ---------- JavaScript and TypeScript ----------

  /** The endings that are tried, in this order. */
  const ENDINGS: seq<string> := [
    "", ".ts", ".tsx", ".js", ".jsx", ".mjs", ".cjs",
    "/index.ts", "/index.tsx", "/index.js", "/index.jsx", "/index.mjs", "/index.cjs"]

  function WithEndings(base: string, endings: seq<string>): (paths: seq<string>)
    ensures |paths| == |endings| && forall i :: 0 <= i < |paths| ==> paths[i] == base + endings[i]
  {
    seq(|endings|, i requires 0 <= i < |endings| => base + endings[i])
  }

  predicate EndsInJs(base: string) {
    |base| >= 3 && base[|base| - 3] == '.' && base[|base| - 2] == 'j' && base[|base| - 1] == 's'
  }

  /** What is tried for `base`: for a base in `.js` also the TypeScript file it may have been written as, early on. */
  predicate AreJsPaths(base: string, paths: seq<string>) {
    if EndsInJs(base)
    then paths == [base, base[..|base| - 3] + ".ts", base[..|base| - 3] + ".tsx"] + WithEndings(base, ENDINGS)[1..]
    else paths == WithEndings(base, ENDINGS)
  }

  lemma SuffixesAre(base: string, between: string)
    ensures WithSuffix(base, between, 6)
         == [base + between + "ts", base + between + "tsx", base + between + "js", base + between + "jsx",
             base + between + "mjs", base + between + "cjs"]
  {
    assert WithSuffix(base, between, 0) == [];
    assert WithSuffix(base, between, 1) == [base + between + "ts"];
    assert WithSuffix(base, between, 2) == [base + between + "ts", base + between + "tsx"];
    assert WithSuffix(base, between, 3) == [base + between + "ts", base + between + "tsx", base + between + "js"];
    assert WithSuffix(base, between, 4)
        == [base + between + "ts", base + between + "tsx", base + between + "js", base + between + "jsx"];
    assert WithSuffix(base, between, 5)
        == [base + between + "ts", base + between + "tsx", base + between + "js", base + between + "jsx",
            base + between + "mjs"];
  }

  lemma Associates(a: string, b: string, c: string, d: string)
    requires b + c == d
    ensures a + b + c == a + d
  {
  }

  lemma EndingsAre(base: string)
    ensures WithEndings(base, ENDINGS) == [base] + (WithSuffix(base, ".", 6) + WithSuffix(base, "/index.", 6))
  {
    SuffixesAre(base, ".");
    SuffixesAre(base, "/index.");
    hide WithSuffix;
    assert base + "" == base;
    Associates(base, ".", "ts", ".ts");
    Associates(base, ".", "tsx", ".tsx");
    Associates(base, ".", "js", ".js");
    Associates(base, ".", "jsx", ".jsx");
    Associates(base, ".", "mjs", ".mjs");
    Associates(base, ".", "cjs", ".cjs");
    Associates(base, "/index.", "ts", "/index.ts");
    Associates(base, "/index.", "tsx", "/index.tsx");
    Associates(base, "/index.", "js", "/index.js");
    Associates(base, "/index.", "jsx", "/index.jsx");
    Associates(base, "/index.", "mjs", "/index.mjs");
    Associates(base, "/index.", "cjs", "/index.cjs");
  }

  lemma JsPathsAre(base: string)
    ensures AreJsPaths(base, JsCandidates(base))
  {
    hide WithSuffix, WithEndings;
    EndingsAre(base);
    assert EndsInJs(base) <==> |base| >= 3 && base[|base| - 3..] == ".js";
    var rest := WithSuffix(base, ".", 6) + WithSuffix(base, "/index.", 6);
    assert ([base] + rest)[1..] == rest;
    if EndsInJs(base) {
      var stem := base[..|base| - 3];
      assert [base] + [stem + ".ts", stem + ".tsx"] + rest == [base, stem + ".ts", stem + ".tsx"] + rest;
    } else {
      assert [base] + [] + rest == [base] + rest;
    }
  }

  /** A specifier from the directory of the file: `./` stays there. */
  lemma HereImports(
    files: seq<SourceFile>, aliases: seq<ImportAlias>, specifiers: seq<seq<string>>, t: nat, d: string, name: string,
    stem: string, paths: seq<string>)
    requires |specifiers| == |files| && t < |files| && "./" + stem in specifiers[t]
    requires '/' !in name && IsPlain(stem)
    requires if d == "" then files[t].path == name else IsPlain(d) && files[t].path == d + "/" + name
    requires AreJsPaths(if d == "" then stem else d + "/" + stem, paths)
    ensures ReadsAs(files, aliases, specifiers, t, "./" + stem, files[t].repo, paths)
  {
    hide JsCandidates, NormalizePath, AreJsPaths;
    var spec, base := "./" + stem, if d == "" then stem else d + "/" + stem;
    DirOfPath(d, name);
    DotIsHere(d, stem);
    PlainBelow(d, stem);
    JsPathsAre(base);
    OnlyOneList(base, paths, JsCandidates(base));
    RelativeCandidates(files[t].repo, files[t].path, d, aliases, spec, base);
    CandidatesRead(files, aliases, specifiers, t, spec, files[t].repo, paths);
  }

  /** `../` leads to the parent of the file's directory. */
  lemma ParentImports(
    files: seq<SourceFile>, aliases: seq<ImportAlias>, specifiers: seq<seq<string>>, t: nat, d: string, sub: string,
    name: string, stem: string, paths: seq<string>)
    requires |specifiers| == |files| && t < |files| && "../" + stem in specifiers[t]
    requires '/' !in name && IsPlain(stem) && IsPlain(d) && IsPlain(sub) && '/' !in sub
    requires files[t].path == d + "/" + sub + "/" + name
    requires AreJsPaths(d + "/" + stem, paths)
    ensures ReadsAs(files, aliases, specifiers, t, "../" + stem, files[t].repo, paths)
  {
    hide JsCandidates, NormalizePath, AreJsPaths;
    var spec, base := "../" + stem, d + "/" + stem;
    SplitOfOnePart(sub, '/');
    assert SplitOn(sub, '/')[0] == sub;
    DirOfPath(d + "/" + sub, name);
    DotsAreParent(d, sub, stem);
    DirIsNotEmpty(d);
    PlainBelow(d, stem);
    JsPathsAre(base);
    OnlyOneList(base, paths, JsCandidates(base));
    RelativeCandidates(files[t].repo, files[t].path, d + "/" + sub, aliases, spec, base);
    CandidatesRead(files, aliases, specifiers, t, spec, files[t].repo, paths);
  }

  lemma OnlyOneList(base: string, paths: seq<string>, others: seq<string>)
    requires AreJsPaths(base, paths) && AreJsPaths(base, others)
    ensures paths == others
  {
  }

  lemma RelativeCandidates(
    repo: string, path: string, dir: string, aliases: seq<ImportAlias>, spec: string, base: string)
    requires ("./" <= spec || "../" <= spec) && NormalizePath(dir + "/" + spec) == base
    ensures Candidates(repo, path, dir, aliases, spec) == InRepo(repo, JsCandidates(base))
  {
    hide JsCandidates, NormalizePath;
    assert spec[0] == '.';
  }

  /** None of the marked forms: neither relative nor a Rust module. */
  predicate IsUnmarked(spec: string) {
    !("mod:" <= spec) && !("crate:" <= spec) && !("./" <= spec) && !("../" <= spec)
  }

  lemma {:induction false} FirstAliasIs(aliases: seq<ImportAlias>, spec: string, i: nat)
    requires i < |aliases| && aliases[i].prefix <= spec && forall j :: 0 <= j < i ==> !(aliases[j].prefix <= spec)
    ensures FirstAlias(aliases, spec) == Some(aliases[i])
  {
    if i > 0 {
      FirstAliasIs(aliases[1..], spec, i - 1);
    }
  }

  lemma {:induction false} NoAlias(aliases: seq<ImportAlias>, spec: string)
    requires forall j :: 0 <= j < |aliases| ==> !(aliases[j].prefix <= spec)
    ensures FirstAlias(aliases, spec) == None
  {
    if aliases != [] {
      NoAlias(aliases[1..], spec);
    }
  }

  /** The first alias whose prefix fits leads into its directory of its repo. */
  lemma AliasImports(
    files: seq<SourceFile>, aliases: seq<ImportAlias>, specifiers: seq<seq<string>>, t: nat, i: nat, stem: string,
    paths: seq<string>)
    requires |specifiers| == |files| && t < |files| && i < |aliases| && aliases[i].prefix + stem in specifiers[t]
    requires IsUnmarked(aliases[i].prefix + stem)
    requires forall j :: 0 <= j < i ==> !(aliases[j].prefix <= aliases[i].prefix + stem)
    requires IsPlain(stem) && (aliases[i].dir == "" || IsPlain(aliases[i].dir))
    requires AreJsPaths(if aliases[i].dir == "" then stem else aliases[i].dir + "/" + stem, paths)
    ensures ReadsAs(files, aliases, specifiers, t, aliases[i].prefix + stem, aliases[i].repo, paths)
  {
    hide JsCandidates, NormalizePath, AreJsPaths;
    var a, spec := aliases[i], aliases[i].prefix + stem;
    var base := if a.dir == "" then stem else a.dir + "/" + stem;
    FirstAliasIs(aliases, spec, i);
    assert spec[|a.prefix|..] == stem;
    PlainBelow(a.dir, stem);
    JsPathsAre(base);
    OnlyOneList(base, paths, JsCandidates(base));
    CandidatesRead(files, aliases, specifiers, t, spec, a.repo, paths);
  }

  /** What is no marked form and fits no alias, a package, imports nothing. */
  lemma PackagesImportNothing(
    files: seq<SourceFile>, aliases: seq<ImportAlias>, specifiers: seq<seq<string>>, t: nat)
    requires |specifiers| == |files| && t < |files|
    requires forall spec :: spec in specifiers[t] ==>
                              IsUnmarked(spec) && forall j :: 0 <= j < |aliases| ==> !(aliases[j].prefix <= spec)
    ensures ImportsOf(files, aliases, specifiers)[t] == []
  {
    var imports := ImportsOf(files, aliases, specifiers)[t];
    if imports != [] {
      var u := imports[0];
      assert u in imports;
      ImportedExactly(files, aliases, specifiers, t, u);
      var spec :| spec in specifiers[t]
               && IsFirst(Candidates(files[t].repo, files[t].path, DirOf(files[t].path), aliases, spec), IdsOf(files),
                          IdOf(files[u]));
      NoAlias(aliases, spec);
      assert false;
    }
  }

  // ---------- Rust ----------

  lemma ModulePathsArePlain(m: string)
    requires IsPlain(m) && '/' !in m
    ensures IsPlain(m + ".rs") && IsPlain(m + "/mod.rs")
  {
    hide PartsTo;
    SplitOfOnePart(m + ".rs", '/');
    SplitOfOnePart(m, '/');
    SplitOfOnePart("mod.rs", '/');
    SplitOfJoined(m, '/', "mod.rs");
    assert m + ['/'] + "mod.rs" == m + "/mod.rs";
    assert SplitOn(m, '/')[0] == m;
    assert (m + ".rs")[|m|] == '.' && |m + ".rs"| > 3;
  }

  /** A module is a file beside the one that declares it, or the `mod.rs` of a directory there. */
  lemma ModImports(
    files: seq<SourceFile>, aliases: seq<ImportAlias>, specifiers: seq<seq<string>>, t: nat, d: string, name: string,
    m: string)
    requires |specifiers| == |files| && t < |files| && "mod:" + m in specifiers[t]
    requires '/' !in name && IsPlain(m) && '/' !in m && IsPlain(d) && files[t].path == d + "/" + name
    ensures ReadsAs(files, aliases, specifiers, t, "mod:" + m, files[t].repo,
                    [d + "/" + m + ".rs", d + "/" + m + "/mod.rs"])
  {
    hide NormalizePath, IsPlain;
    var spec := "mod:" + m;
    assert spec[4..] == m;
    DirOfPath(d, name);
    DirIsNotEmpty(d);
    ModulePathsArePlain(m);
    PlainBelow(d, m + ".rs");
    PlainBelow(d, m + "/mod.rs");
    assert d + "/" + (m + ".rs") == d + "/" + m + ".rs" && d + "/" + (m + "/mod.rs") == d + "/" + m + "/mod.rs";
    CandidatesRead(files, aliases, specifiers, t, spec, files[t].repo, [d + "/" + m + ".rs", d + "/" + m + "/mod.rs"]);
  }

  lemma DirIsNotEmpty(d: string)
    ensures IsPlain(d) ==> d != ""
  {
    SplitOfOnePart("", '/');
    assert SplitOn("", '/')[0] == "";
  }

  lemma {:induction false} LastSrcIs(path: string, k: nat, at: nat)
    requires at < k <= |path| && OccursAt(path, "src/", at) && forall j :: at < j < k ==> !OccursAt(path, "src/", j)
    ensures LastSrc(path, k) == Some(at)
  {
    if at < k - 1 {
      LastSrcIs(path, k - 1, at);
    }
  }

  /** A module of the crate is looked for in the last `src` above the file. */
  lemma CrateImports(
    files: seq<SourceFile>, aliases: seq<ImportAlias>, specifiers: seq<seq<string>>, t: nat, front: string,
    back: string, m: string)
    requires |specifiers| == |files| && t < |files| && "crate:" + m in specifiers[t]
    requires files[t].path == front + "src/" + back
    requires forall j: nat :: |front| < j ==> !OccursAt(files[t].path, "src/", j)
    ensures ReadsAs(files, aliases, specifiers, t, "crate:" + m, files[t].repo,
                    [front + "src/" + m + ".rs", front + "src/" + m + "/mod.rs"])
  {
    var spec, path := "crate:" + m, files[t].path;
    assert spec[0] == 'c' && spec[6..] == m;
    assert path[|front|..|front| + 4] == "src/";
    LastSrcIs(path, |path|, |front|);
    assert path[..|front| + 3] == front + "src";
    assert front + "src" + "/" + m + ".rs" == front + "src/" + m + ".rs";
    assert front + "src" + "/" + m + "/mod.rs" == front + "src/" + m + "/mod.rs";
    CandidatesRead(files, aliases, specifiers, t, spec, files[t].repo,
                   [front + "src/" + m + ".rs", front + "src/" + m + "/mod.rs"]);
  }
}
