/** The whole of `plan_chunks` in chunk.rs: the index of known files, the import graph, and the plan over it. */
module ImportGraph {
  import opened Wrappers
  import opened Packing
  import opened Context
  import opened Planner
  import opened ImportPaths

  function IdOf(f: SourceFile): (id: FileId) {
    (f.repo, f.path)
  }

  /** Where each of the first `k` files is found; of two files with one identity the later wins. */
  function IndexOf(files: seq<SourceFile>, k: nat): (index: map<FileId, nat>)
    requires k <= |files|
  {
    if k == 0 then map[] else IndexOf(files, k - 1)[IdOf(files[k - 1]) := k - 1]
  }

  /** What the first `k` identities stand for. */
  function Looked(index: map<FileId, nat>, ids: seq<FileId>, k: nat): (out: seq<nat>)
    requires k <= |ids|
  {
    if k == 0 then []
    else
      var out := Looked(index, ids, k - 1);
      if ids[k - 1] in index then out + [index[ids[k - 1]]] else out
  }

  function IdsImported(
    f: SourceFile, aliases: seq<ImportAlias>, specifiers: seq<string>, known: set<FileId>): (ids: seq<FileId>)
  {
    Resolved(f.repo, f.path, DirOf(f.path), specifiers, aliases, known, |specifiers|)
  }

  function ImportsOfFile(
    f: SourceFile, aliases: seq<ImportAlias>, specifiers: seq<string>, index: map<FileId, nat>): (imports: seq<nat>)
  {
    var ids := IdsImported(f, aliases, specifiers, index.Keys);
    Looked(index, ids, |ids|)
  }

  /** The import graph; `specifiers[i]` are the import specifiers found in `files[i]`. */
  function ImportsOf(
    files: seq<SourceFile>, aliases: seq<ImportAlias>, specifiers: seq<seq<string>>)
    : (imports: Imports)
    requires |specifiers| == |files|
    ensures |imports| == |files|
  {
    seq(|files|, i requires 0 <= i < |files| =>
      ImportsOfFile(files[i], aliases, specifiers[i], IndexOf(files, |files|)))
  }

  /** `u` is the last file with this identity. */
  predicate IsLastOf(files: seq<SourceFile>, u: nat, id: FileId) {
    u < |files| && IdOf(files[u]) == id && forall v :: u < v < |files| ==> IdOf(files[v]) != id
  }

  // ---------- the index and the graph ----------

  lemma {:induction false} IndexFindsLast(files: seq<SourceFile>, k: nat)
    requires k <= |files|
    ensures forall id :: id in IndexOf(files, k) <==> exists i :: 0 <= i < k && IdOf(files[i]) == id
    ensures forall id :: id in IndexOf(files, k) ==> IsLastOf(files[..k], IndexOf(files, k)[id], id)
  {
    if k > 0 {
      IndexFindsLast(files, k - 1);
    }
  }

  lemma {:induction false} LookedExactly(index: map<FileId, nat>, ids: seq<FileId>, k: nat)
    requires k <= |ids|
    ensures forall u :: u in Looked(index, ids, k) <==> exists j :: 0 <= j < k && ids[j] in index && index[ids[j]] == u
  {
    if k > 0 {
      LookedExactly(index, ids, k - 1);
    }
  }

  /** Every import leads to a file of the list: the graph the planner needs. */
  lemma ImportsAreValid(files: seq<SourceFile>, aliases: seq<ImportAlias>, specifiers: seq<seq<string>>)
    requires |specifiers| == |files|
    ensures ValidInput(files, ImportsOf(files, aliases, specifiers))
  {
    var imports, index := ImportsOf(files, aliases, specifiers), IndexOf(files, |files|);
    IndexFindsLast(files, |files|);
    forall i: nat, j: nat | i < |imports| && j < |imports[i]|
      ensures imports[i][j] < |files|
    {
      var ids := IdsImported(files[i], aliases, specifiers[i], index.Keys);
      LookedExactly(index, ids, |ids|);
      assert imports[i][j] in imports[i];
    }
  }

  function IdsOf(files: seq<SourceFile>): (known: set<FileId>) {
    set i | 0 <= i < |files| :: IdOf(files[i])
  }

  /** `id` is a candidate and known, and no candidate before it is. */
  ghost predicate IsFirst(candidates: seq<FileId>, known: set<FileId>, id: FileId) {
    exists n :: 0 <= n < |candidates| && candidates[n] == id && id in known
             && forall m :: 0 <= m < n ==> candidates[m] !in known
  }

  /** Some specifier of file `t` means `id`: of all it may mean, `id` is the first there is. */
  ghost predicate Means(
    files: seq<SourceFile>, aliases: seq<ImportAlias>, specifiers: seq<seq<string>>, t: nat, id: FileId)
    requires |specifiers| == |files| && t < |files|
  {
    exists spec :: spec in specifiers[t]
                && IsFirst(
                     Candidates(files[t].repo, files[t].path, DirOf(files[t].path), aliases, spec), IdsOf(files), id)
  }

  lemma {:induction false} HitIsFirst(candidates: seq<FileId>, known: set<FileId>, id: FileId)
    ensures Hit(candidates, known) == Some(id) <==> IsFirst(candidates, known, id)
  {
    if candidates != [] && candidates[0] !in known {
      var rest := candidates[1..];
      HitIsFirst(rest, known, id);
      if IsFirst(rest, known, id) {
        var n :| 0 <= n < |rest| && rest[n] == id && forall m :: 0 <= m < n ==> rest[m] !in known;
        assert candidates[n + 1] == id && forall m :: 0 < m < n + 1 ==> candidates[m] == rest[m - 1];
      }
      if IsFirst(candidates, known, id) {
        var n :| 0 <= n < |candidates| && candidates[n] == id && forall m :: 0 <= m < n ==> candidates[m] !in known;
        assert rest[n - 1] == id && forall m :: 0 <= m < n - 1 ==> rest[m] == candidates[m + 1];
      }
    }
  }

  lemma IdsImportedExactly(
    files: seq<SourceFile>, aliases: seq<ImportAlias>, specifiers: seq<seq<string>>, t: nat, id: FileId)
    requires |specifiers| == |files| && t < |files|
    ensures id in IdsImported(files[t], aliases, specifiers[t], IdsOf(files)) <==>
             Means(files, aliases, specifiers, t, id)
  {
    hide IsFirst, Candidates, Hit, Resolved;
    var f, specs, known := files[t], specifiers[t], IdsOf(files);
    ResolvedExactly(f.repo, f.path, DirOf(f.path), specs, aliases, known, |specs|);
    forall spec
      ensures HitOf(f.repo, f.path, DirOf(f.path), aliases, known, spec) == Some(id)
         <==> IsFirst(Candidates(f.repo, f.path, DirOf(f.path), aliases, spec), known, id)
    {
      HitIsFirst(Candidates(f.repo, f.path, DirOf(f.path), aliases, spec), known, id);
    }
    if Means(files, aliases, specifiers, t, id) {
      var spec :| spec in specs && IsFirst(Candidates(f.repo, f.path, DirOf(f.path), aliases, spec), known, id);
      var i :| 0 <= i < |specs| && specs[i] == spec;
      assert HitOf(f.repo, f.path, DirOf(f.path), aliases, known, specs[i]) == Some(id);
      assert id in IdsImported(files[t], aliases, specifiers[t], IdsOf(files));
    }
    if id in IdsImported(files[t], aliases, specifiers[t], IdsOf(files)) {
      var i :| 0 <= i < |specs| && HitOf(f.repo, f.path, DirOf(f.path), aliases, known, specs[i]) == Some(id);
      assert IsFirst(Candidates(f.repo, f.path, DirOf(f.path), aliases, specs[i]), known, id);
      assert specs[i] in specs;
    }
  }

  /** An edge leads exactly to each file that some specifier means, the last one of its identity. */
  lemma ImportedExactly(
    files: seq<SourceFile>, aliases: seq<ImportAlias>, specifiers: seq<seq<string>>, t: nat, u: nat)
    requires |specifiers| == |files| && t < |files|
    ensures u in ImportsOf(files, aliases, specifiers)[t] <==>
            u < |files| && IsLastOf(files, u, IdOf(files[u])) && Means(files, aliases, specifiers, t, IdOf(files[u]))
  {
    hide Means, IdsImported;
    var index := IndexOf(files, |files|);
    IndexFindsLast(files, |files|);
    assert files[..|files|] == files;
    assert index.Keys == IdsOf(files);
    var ids := IdsImported(files[t], aliases, specifiers[t], index.Keys);
    LookedExactly(index, ids, |ids|);
    if u < |files| {
      IdsImportedExactly(files, aliases, specifiers, t, IdOf(files[u]));
    }
    if u in ImportsOf(files, aliases, specifiers)[t] {
      var j :| 0 <= j < |ids| && ids[j] in index && index[ids[j]] == u;
      assert IsLastOf(files, u, ids[j]);
    }
    if u < |files| && IsLastOf(files, u, IdOf(files[u])) && IdOf(files[u]) in ids {
      var j :| 0 <= j < |ids| && ids[j] == IdOf(files[u]);
      assert IsLastOf(files, index[ids[j]], ids[j]);
    }
  }

  /** A file is imported at most once, whatever its specifiers say. */
  lemma {:induction false} LookedOnce(files: seq<SourceFile>, index: map<FileId, nat>, ids: seq<FileId>, k: nat)
    requires k <= |ids| && forall i, j :: 0 <= i < j < |ids| ==> ids[i] != ids[j]
    requires forall id :: id in index ==> IsLastOf(files, index[id], id)
    ensures Distinct(Looked(index, ids, k))
  {
    if k > 0 {
      LookedOnce(files, index, ids, k - 1);
      LookedExactly(index, ids, k - 1);
      var out := Looked(index, ids, k - 1);
      if ids[k - 1] in index {
        forall i | 0 <= i < |out|
          ensures out[i] != index[ids[k - 1]]
        {
          assert out[i] in out;
          var j :| 0 <= j < k - 1 && ids[j] in index && index[ids[j]] == out[i];
          assert IsLastOf(files, index[ids[j]], ids[j]) && IsLastOf(files, index[ids[k - 1]], ids[k - 1]);
        }
      }
    }
  }

  lemma ImportsAreDistinct(files: seq<SourceFile>, aliases: seq<ImportAlias>, specifiers: seq<seq<string>>, t: nat)
    requires |specifiers| == |files| && t < |files|
    ensures Distinct(ImportsOf(files, aliases, specifiers)[t])
  {
    var f, specs, index := files[t], specifiers[t], IndexOf(files, |files|);
    IndexFindsLast(files, |files|);
    assert files[..|files|] == files;
    var ids := IdsImported(f, aliases, specs, index.Keys);
    ResolvedExactly(f.repo, f.path, DirOf(f.path), specs, aliases, index.Keys, |specs|);
    assert ids == Resolved(f.repo, f.path, DirOf(f.path), specs, aliases, index.Keys, |specs|);
    assert forall i, j :: 0 <= i < j < |ids| ==> ids[i] != ids[j];
    LookedOnce(files, index, ids, |ids|);
  }

  // ---------- the methods ----------

  method IndexFiles(files: seq<SourceFile>) returns (index: map<FileId, nat>)
    ensures index == IndexOf(files, |files|)
  {
    index := map[];
    for k := 0 to |files|
      invariant index == IndexOf(files, k)
    {
      index := index[(files[k].repo, files[k].path) := k];
    }
  }

  method LookUp(index: map<FileId, nat>, ids: seq<FileId>) returns (out: seq<nat>)
    ensures out == Looked(index, ids, |ids|)
  {
    out := [];
    for k := 0 to |ids|
      invariant out == Looked(index, ids, k)
    {
      if ids[k] in index {
        out := out + [index[ids[k]]];
      }
    }
  }

  method ReadImports(files: seq<SourceFile>, aliases: seq<ImportAlias>, specifiers: seq<seq<string>>)
    returns (imports: Imports)
    requires |specifiers| == |files|
    ensures imports == ImportsOf(files, aliases, specifiers)
  {
    var index := IndexFiles(files);
    imports := [];
    for k := 0 to |files|
      invariant imports == ImportsOf(files, aliases, specifiers)[..k]
    {
      var f := files[k];
      var ids := ResolveImports(f.repo, f.path, DirOf(f.path), specifiers[k], aliases, index.Keys);
      var found := LookUp(index, ids);
      imports := imports + [found];
    }
  }

  /**
   * The chunks of a review: a plan over the import graph, and none when nothing is a target. What is true of it
   * is what holds of every plan, in `Planner` and `Pipeline`.
   */
  method PlanChunks(files: seq<SourceFile>, aliases: seq<ImportAlias>, specifiers: seq<seq<string>>, budget: nat)
    returns (chunks: seq<Chunk>)
    requires |specifiers| == |files|
    ensures ValidInput(files, ImportsOf(files, aliases, specifiers))
    ensures IsPlan(files, ImportsOf(files, aliases, specifiers), budget, chunks)
    ensures chunks == [] <==> forall t :: 0 <= t < |files| ==> !files[t].target
  {
    var imports := ReadImports(files, aliases, specifiers);
    ImportsAreValid(files, aliases, specifiers);
    chunks := PlanFeatures(files, imports, budget);
    EveryTargetOnce(files, imports, budget, chunks);
    NoChunkNoTarget(files, imports, budget, chunks);
  }

  lemma NoChunkNoTarget(files: seq<SourceFile>, imports: Imports, budget: nat, chunks: seq<Chunk>)
    requires ValidInput(files, imports) && IsPlan(files, imports, budget, chunks)
    ensures chunks == [] <==> forall t :: 0 <= t < |files| ==> !files[t].target
  {
    EveryTargetOnce(files, imports, budget, chunks);
    var lists := TargetLists(chunks);
    if chunks == [] {
      assert Flatten(lists) == [];
      forall t: nat | t < |files|
        ensures !files[t].target
      {
        assert t in Flatten(lists) <==> IsTarget(files, t);
      }
    } else {
      assert chunks[0] in chunks;
      assert lists[0] == chunks[0].targets;
      var t := chunks[0].targets[0];
      FlattenHolds(lists, |lists|, 0, t);
      assert IsTarget(files, t);
    }
  }

  lemma {:induction false} FlattenHolds(lists: seq<seq<nat>>, k: nat, i: nat, t: nat)
    requires i < k <= |lists| && t in lists[i]
    ensures t in FlattenTo(lists, k)
  {
    if i < k - 1 {
      FlattenHolds(lists, k - 1, i, t);
    }
  }
}
