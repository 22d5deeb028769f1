/** Splitting the files under review into feature-sized chunks: `plan_chunks` in chunk.rs. */
module Planner {
  import opened Wrappers
  import opened Forest
  import opened Packing
  import opened Context
  import opened Text

  newtype byte = b: int | 0 <= b < 256

  /** One file handed to the planner; texts are UTF-8 bytes, names are strings. */
  datatype SourceFile = SourceFile(
    repo: string, path: string, content: seq<byte>, diff: Option<seq<byte>>, target: bool)
  {
    function DisplayName(): (name: string) {
      repo + "/" + path
    }

    function Directory(): (key: (string, string)) {
      (repo, DirOf(path))
    }
  }

  /** What stands before the last slash, or nothing. */
  function DirOf(path: string): (dir: string) {
    if path == "" then "" else if path[|path| - 1] == '/' then path[..|path| - 1] else DirOf(path[..|path| - 1])
  }

  // ---------- what a file costs ----------

  const MAX_FILE_CHARS: nat := 120_000

  function DivCeil(n: nat, d: nat): (q: nat)
    requires d > 0
  {
    (n + d - 1) / d
  }

  function EstimateTokens(text: seq<byte>): (tokens: nat) {
    DivCeil(|text|, 7) * 2
  }

  predicate IsCharBoundary(text: seq<byte>, i: nat)
    requires i <= |text|
  {
    i == 0 || i == |text| || text[i] < 128 || text[i] >= 192
  }

  function FloorCharBoundary(text: seq<byte>, i: nat): (k: nat)
    ensures k <= |text| && k <= i && IsCharBoundary(text, k)
  {
    if i >= |text| then |text| else if IsCharBoundary(text, i) then i else FloorCharBoundary(text, i - 1)
  }

  function Newlines(text: seq<byte>, k: nat): (n: nat)
    requires k <= |text|
    ensures n <= k
  {
    if k == 0 then 0 else Newlines(text, k - 1) + if text[k - 1] == 10 then 1 else 0
  }

  /** How many lines `lines()` yields: a last piece without a newline is a line too. */
  function LineCount(text: seq<byte>, k: nat): (n: nat)
    requires k <= |text|
  {
    Newlines(text, k) + if k > 0 && text[k - 1] != 10 then 1 else 0
  }

  function FileCost(f: SourceFile): (tokens: nat)
    ensures tokens >= 20
  {
    var contentLen := if |f.content| <= MAX_FILE_CHARS then |f.content| else MAX_FILE_CHARS;
    var lines := LineCount(f.content, FloorCharBoundary(f.content, contentLen));
    var numbered := contentLen + lines * 6;
    var diff := match f.diff case Some(d) => EstimateTokens(d) case None => 0;
    DivCeil(numbered, 7) * 2 + diff + 20
  }

  lemma {:induction false} DirOfPath(d: string, name: string)
    requires '/' !in name
    ensures DirOf(d + "/" + name) == d && DirOf(name) == ""
  {
    var path := d + "/" + name;
    if name == "" {
      assert path[..|path| - 1] == d;
    } else {
      var shorter := name[..|name| - 1];
      assert path[..|path| - 1] == d + "/" + shorter;
      assert path[|path| - 1] == name[|name| - 1];
      DirOfPath(d, shorter);
    }
  }

  /** Two files are in one directory exactly if their repos and what their paths have before the name agree. */
  lemma SameDirectoryIff(f: SourceFile, d: string, name: string, g: SourceFile, e: string, other: string)
    requires '/' !in name && '/' !in other && f.path == d + "/" + name && g.path == e + "/" + other
    ensures f.Directory() == g.Directory() <==> f.repo == g.repo && d == e
  {
    DirOfPath(d, name);
    DirOfPath(e, other);
  }

  // ---------- what a cost is made of ----------

  predicate StartsLine(text: seq<byte>, i: nat) {
    i == 0 || (i <= |text| && text[i - 1] == 10)
  }

  /** Where the lines of the first `k` bytes start: at the first byte, and behind every newline but a last one. */
  ghost function LineStarts(text: seq<byte>, k: nat): (starts: set<nat>)
    requires k <= |text|
  {
    set i: nat | i < k && StartsLine(text, i)
  }

  lemma {:induction false} LinesAreStarts(text: seq<byte>, k: nat)
    requires k <= |text|
    ensures LineCount(text, k) == |LineStarts(text, k)|
  {
    if k > 0 {
      LinesAreStarts(text, k - 1);
      if k == 1 || text[k - 2] == 10 {
        assert LineStarts(text, k) == LineStarts(text, k - 1) + {k - 1};
      } else {
        assert LineStarts(text, k) == LineStarts(text, k - 1);
      }
    } else {
      assert LineStarts(text, 0) == {};
    }
  }

  /** Where a text longer than the limit is cut: not within a character, and no later than it has to be. */
  predicate IsCut(text: seq<byte>, limit: nat, k: nat) {
    && k <= |text| && k <= limit && (|text| <= limit ==> k == |text|)
    && (k == 0 || k == |text| || !(128 <= text[k] < 192))
    && (forall j :: k < j <= limit && j < |text| ==> 128 <= text[j] < 192)
  }

  lemma {:induction false} CutIsFloor(text: seq<byte>, limit: nat)
    ensures IsCut(text, limit, FloorCharBoundary(text, limit))
  {
    if limit < |text| && !IsCharBoundary(text, limit) {
      CutIsFloor(text, limit - 1);
    }
  }

  /** Two tokens for every seven characters, the last seven begun counting in full. */
  predicate IsEstimate(tokens: nat, chars: nat) {
    tokens % 2 == 0 && 7 * tokens >= 2 * chars && (tokens >= 2 ==> 7 * (tokens - 2) < 2 * chars)
  }

  /**
   * A file costs twenty tokens, the estimate of its diff if it has one, and that of its content, cut at 120000 bytes,
   * with six more for every line.
   */
  lemma FileCostExactly(f: SourceFile) returns (numbered: nat, diff: nat, k: nat)
    ensures FileCost(f) == 20 + numbered + diff
    ensures IsCut(f.content, 120_000, k)
    ensures var bytes := if |f.content| <= 120_000 then |f.content| else 120_000;
            IsEstimate(numbered, bytes + 6 * |LineStarts(f.content, k)|)
    ensures if f.diff.Some? then IsEstimate(diff, |f.diff.value|) else diff == 0
  {
    var cut := if |f.content| <= 120_000 then |f.content| else 120_000;
    k := FloorCharBoundary(f.content, cut);
    CutIsFloor(f.content, cut);
    LinesAreStarts(f.content, k);
    numbered := DivCeil(cut + LineCount(f.content, k) * 6, 7) * 2;
    diff := match f.diff case Some(d) => EstimateTokens(d) case None => 0;
  }

  function Prices(files: seq<SourceFile>): (price: Pricing)
    ensures |price| == |files| && forall i :: 0 <= i < |files| ==> price[i] == FileCost(files[i])
  {
    seq(|files|, i requires 0 <= i < |files| => FileCost(files[i]))
  }

  // ---------- features ----------

  ghost predicate ValidInput(files: seq<SourceFile>, imports: Imports) {
    |imports| == |files| && WellFormed(imports)
  }

  predicate IsTarget(files: seq<SourceFile>, t: nat) {
    t < |files| && files[t].target
  }

  /** Two targets that share a directory of one repo, or one of which imports the other. */
  ghost predicate Related(files: seq<SourceFile>, imports: Imports, t: nat, u: nat)
    requires ValidInput(files, imports)
  {
    && IsTarget(files, t) && IsTarget(files, u)
    && (files[t].Directory() == files[u].Directory() || u in imports[t] || t in imports[u])
  }

  ghost function RelatedPairs(files: seq<SourceFile>, imports: Imports): (pairs: set<(nat, nat)>)
    requires ValidInput(files, imports)
    ensures forall t: nat, u: nat :: (t, u) in pairs <==> Related(files, imports, t, u)
  {
    set t: nat, u: nat | t < |files| && u < |files| && Related(files, imports, t, u) :: (t, u)
  }

  /** The relation a feature is: relatedness, closed under chains. */
  ghost predicate SameFeature(files: seq<SourceFile>, imports: Imports, t: nat, u: nat)
    requires ValidInput(files, imports)
  {
    Connected(RelatedPairs(files, imports), t, u)
  }

  /** One root a feature: what the union-find gives every file. */
  ghost predicate Represents(files: seq<SourceFile>, imports: Imports, roots: seq<nat>)
    requires ValidInput(files, imports)
  {
    && |roots| == |files|
    && (forall t :: 0 <= t < |files| ==> roots[t] < |files| && SameFeature(files, imports, t, roots[t]))
    && (forall t, u :: 0 <= t < |files| && 0 <= u < |files| ==>
          (roots[t] == roots[u] <==> SameFeature(files, imports, t, u)))
  }

  // ---------- groups, keyed by the display name of the root ----------

  datatype Group = Group(key: string, members: seq<nat>)

  /** The entries of a `BTreeMap`: strictly ascending keys, and no entry is empty. */
  ghost predicate Ascending(groups: seq<Group>) {
    && (forall i, j :: 0 <= i < j < |groups| ==> Less(groups[i].key, groups[j].key))
    && (forall i :: 0 <= i < |groups| ==> groups[i].members != [])
  }

  /** `entry(key).or_default().push(t)`. */
  function Entered(groups: seq<Group>, key: string, t: nat): (after: seq<Group>) {
    if groups == [] || Less(key, groups[0].key) then [Group(key, [t])] + groups
    else if groups[0].key == key then [Group(key, groups[0].members + [t])] + groups[1..]
    else [groups[0]] + Entered(groups[1..], key, t)
  }

  ghost predicate HasEntry(groups: seq<Group>, key: string, members: seq<nat>) {
    if members == [] then forall i :: 0 <= i < |groups| ==> groups[i].key != key
    else Group(key, members) in groups
  }

  function RootName(files: seq<SourceFile>, roots: seq<nat>, t: nat): (name: string)
    requires t < |roots| == |files| && roots[t] < |files|
  {
    files[roots[t]].DisplayName()
  }

  /** The targets among the first `k` files whose root has this name, in order. */
  function Named(files: seq<SourceFile>, roots: seq<nat>, k: nat, key: string): (members: seq<nat>)
    requires k <= |files| == |roots| && forall t :: 0 <= t < |files| ==> roots[t] < |files|
  {
    if k == 0 then []
    else
      var members := Named(files, roots, k - 1, key);
      if files[k - 1].target && RootName(files, roots, k - 1) == key then members + [k - 1] else members
  }

  ghost predicate IsGrouping(files: seq<SourceFile>, roots: seq<nat>, k: nat, groups: seq<Group>)
    requires k <= |files| == |roots| && forall t :: 0 <= t < |files| ==> roots[t] < |files|
  {
    Ascending(groups) && forall key :: HasEntry(groups, key, Named(files, roots, k, key))
  }

  // ---------- plans ----------

  function MemberLists(groups: seq<Group>): (lists: seq<seq<nat>>)
    ensures |lists| == |groups| && forall i :: 0 <= i < |groups| ==> lists[i] == groups[i].members
  {
    seq(|groups|, i requires 0 <= i < |groups| => groups[i].members)
  }

  ghost predicate AreChunksOf(
    lists: seq<seq<nat>>, imports: Imports, price: Pricing, budget: nat, chunks: seq<Chunk>)
    requires WellFormed(imports)
  {
    && |chunks| == |lists|
    && forall i :: 0 <= i < |lists| ==>
                     InRange(lists[i], |imports|) && chunks[i] == ChunkOf(imports, price, budget, lists[i])
  }

  ghost predicate IsPlanFor(
    files: seq<SourceFile>, imports: Imports, budget: nat, roots: seq<nat>, groups: seq<Group>, chunks: seq<Chunk>)
    requires ValidInput(files, imports)
  {
    && Represents(files, imports, roots)
    && IsGrouping(files, roots, |files|, groups)
    && AreChunksOf(Pack(Prices(files), budget * 7 / 10, MemberLists(groups)), imports, Prices(files), budget, chunks)
  }

  /** What `PlanFeatures` returns, for some choice of roots. */
  ghost predicate IsPlan(files: seq<SourceFile>, imports: Imports, budget: nat, chunks: seq<Chunk>)
    requires ValidInput(files, imports)
  {
    exists roots, groups :: IsPlanFor(files, imports, budget, roots, groups, chunks)
  }

  // ---------- the map of groups ----------

  lemma {:induction false} EnteredKeepsOrder(groups: seq<Group>, key: string, t: nat)
    requires Ascending(groups)
    ensures Ascending(Entered(groups, key, t))
    ensures forall g :: g in Entered(groups, key, t) ==> g.key == key || exists h :: h in groups && h.key == g.key
  {
    var after := Entered(groups, key, t);
    if groups == [] {
    } else if Less(key, groups[0].key) {
      forall j | 0 <= j < |groups|
        ensures Less(key, groups[j].key)
      {
        if j > 0 {
          LessIsTransitive(key, groups[0].key, groups[j].key);
        }
      }
    } else if groups[0].key == key {
      assert forall g :: g in after ==> g.key == key || g in groups;
    } else {
      LessIsTotal(key, groups[0].key);
      EnteredKeepsOrder(groups[1..], key, t);
      var rest := Entered(groups[1..], key, t);
      forall j | 0 <= j < |rest|
        ensures Less(groups[0].key, rest[j].key)
      {
        assert rest[j] in rest;
        if rest[j].key != key {
          var h :| h in groups[1..] && h.key == rest[j].key;
        }
      }
    }
  }

  lemma {:induction false} EnteredAddsMember(groups: seq<Group>, key: string, t: nat, members: seq<nat>)
    requires Ascending(groups) && HasEntry(groups, key, members)
    ensures HasEntry(Entered(groups, key, t), key, members + [t])
  {
    if groups == [] {
      assert Entered(groups, key, t)[0] == Group(key, members + [t]);
    } else if Less(key, groups[0].key) {
      KeysFollow(groups, key);
      assert members == [];
      assert Entered(groups, key, t)[0] == Group(key, members + [t]);
    } else if groups[0].key == key {
      assert groups[0].members == members by {
        assert groups[0].key == key;
        if members != [] {
          OneEntryAKey(groups, groups[0], Group(key, members));
        }
      }
      assert Entered(groups, key, t)[0] == Group(key, members + [t]);
    } else {
      if members != [] {
        assert Group(key, members) in groups[1..];
      } else {
        assert forall i :: 0 <= i < |groups[1..]| ==> groups[1..][i] == groups[i + 1];
      }
      EnteredAddsMember(groups[1..], key, t, members);
    }
  }

  lemma KeysFollow(groups: seq<Group>, key: string)
    requires Ascending(groups) && groups != [] && Less(key, groups[0].key)
    ensures forall g :: g in groups ==> g.key != key
  {
    forall i | 0 <= i < |groups|
      ensures groups[i].key != key
    {
      if i > 0 {
        LessIsTransitive(key, groups[0].key, groups[i].key);
      }
      LessIsTotal(key, groups[i].key);
    }
  }

  lemma OneEntryAKey(groups: seq<Group>, g: Group, h: Group)
    requires Ascending(groups) && g in groups && h in groups && g.key == h.key
    ensures g == h
  {
    LessIsTotal(g.key, h.key);
  }

  lemma {:induction false} EnteredKeepsOthers(groups: seq<Group>, key: string, t: nat, other: string, members: seq<nat>)
    requires other != key && HasEntry(groups, other, members)
    ensures HasEntry(Entered(groups, key, t), other, members)
  {
    if groups != [] && !Less(key, groups[0].key) {
      if groups[0].key != key {
        if groups[0] != Group(other, members) {
          if members != [] {
            assert Group(other, members) in groups[1..];
          } else {
            assert forall i :: 0 <= i < |groups[1..]| ==> groups[1..][i] == groups[i + 1];
          }
          EnteredKeepsOthers(groups[1..], key, t, other, members);
        }
      } else if members != [] {
        assert Group(other, members) in groups[1..];
      }
    }
  }

  lemma GroupingGrows(files: seq<SourceFile>, roots: seq<nat>, k: nat, groups: seq<Group>)
    requires k < |files| == |roots| && forall t :: 0 <= t < |files| ==> roots[t] < |files|
    requires IsGrouping(files, roots, k, groups)
    ensures var after := if files[k].target then Entered(groups, RootName(files, roots, k), k) else groups;
            IsGrouping(files, roots, k + 1, after)
  {
    hide Entered, HasEntry, Ascending;
    var key, next := RootName(files, roots, k), k + 1;
    var after := if files[k].target then Entered(groups, key, k) else groups;
    if files[k].target {
      EnteredKeepsOrder(groups, key, k);
    }
    forall other: string
      ensures HasEntry(after, other, Named(files, roots, next, other))
    {
      assert HasEntry(groups, other, Named(files, roots, k, other));
      if files[k].target && other == key {
        EnteredAddsMember(groups, key, k, Named(files, roots, k, key));
      } else if files[k].target {
        EnteredKeepsOthers(groups, key, k, other, Named(files, roots, k, other));
      }
    }
  }

  lemma {:induction false} NamedExactly(files: seq<SourceFile>, roots: seq<nat>, k: nat, key: string)
    requires k <= |files| == |roots| && forall t :: 0 <= t < |files| ==> roots[t] < |files|
    ensures Distinct(Named(files, roots, k, key))
    ensures forall v: nat :: v in Named(files, roots, k, key) <==>
                          v < k && files[v].target && RootName(files, roots, v) == key
  {
    if k > 0 {
      NamedExactly(files, roots, k - 1, key);
    }
  }

  lemma GroupIsNamed(files: seq<SourceFile>, roots: seq<nat>, groups: seq<Group>, i: nat)
    requires |files| == |roots| && forall t :: 0 <= t < |files| ==> roots[t] < |files|
    requires IsGrouping(files, roots, |files|, groups) && i < |groups|
    ensures groups[i].members == Named(files, roots, |files|, groups[i].key)
  {
    var g := groups[i];
    assert HasEntry(groups, g.key, Named(files, roots, |files|, g.key));
    OneEntryAKey(groups, g, Group(g.key, Named(files, roots, |files|, g.key)));
  }

  /** The groups hold every target, each once, and no group is empty. */
  lemma GroupsPartitionTargets(files: seq<SourceFile>, roots: seq<nat>, groups: seq<Group>)
    requires |files| == |roots| && forall t :: 0 <= t < |files| ==> roots[t] < |files|
    requires IsGrouping(files, roots, |files|, groups)
    ensures Distinct(Flatten(MemberLists(groups)))
    ensures forall v :: v in Flatten(MemberLists(groups)) <==> IsTarget(files, v)
  {
    var lists := MemberLists(groups);
    forall i | 0 <= i < |groups|
      ensures Distinct(lists[i])
      ensures forall v :: v in lists[i] <==> IsTarget(files, v) && RootName(files, roots, v) == groups[i].key
    {
      GroupIsNamed(files, roots, groups, i);
      NamedExactly(files, roots, |files|, groups[i].key);
    }
    forall i, j, v | 0 <= i < j < |lists| && v in lists[i]
      ensures v !in lists[j]
    {
      LessIsTotal(groups[i].key, groups[j].key);
    }
    FlattenOfDisjoint(lists, |lists|);
    forall v | IsTarget(files, v)
      ensures exists i :: 0 <= i < |lists| && v in lists[i]
    {
      var i := GroupOfTarget(files, roots, groups, v);
    }
  }

  lemma GroupOfTarget(files: seq<SourceFile>, roots: seq<nat>, groups: seq<Group>, t: nat) returns (i: nat)
    requires |files| == |roots| && forall t :: 0 <= t < |files| ==> roots[t] < |files|
    requires IsGrouping(files, roots, |files|, groups) && IsTarget(files, t)
    ensures i < |groups| && t in groups[i].members
    ensures groups[i].members == Named(files, roots, |files|, RootName(files, roots, t))
  {
    var key := RootName(files, roots, t);
    NamedExactly(files, roots, |files|, key);
    assert HasEntry(groups, key, Named(files, roots, |files|, key));
    i :| 0 <= i < |groups| && groups[i] == Group(key, Named(files, roots, |files|, key));
  }

  // ---------- main results about plans ----------

  function TargetLists(chunks: seq<Chunk>): (lists: seq<seq<nat>>) {
    seq(|chunks|, i requires 0 <= i < |chunks| => chunks[i].targets)
  }

  lemma PlannedLists(
    files: seq<SourceFile>, imports: Imports, budget: nat, roots: seq<nat>, groups: seq<Group>, chunks: seq<Chunk>)
    requires ValidInput(files, imports) && IsPlanFor(files, imports, budget, roots, groups, chunks)
    ensures TargetLists(chunks) == Pack(Prices(files), budget * 7 / 10, MemberLists(groups))
  {
  }

  /** Every target is under review in exactly one chunk, once; nothing else is; and no chunk is empty. */
  lemma EveryTargetOnce(files: seq<SourceFile>, imports: Imports, budget: nat, chunks: seq<Chunk>)
    requires ValidInput(files, imports) && IsPlan(files, imports, budget, chunks)
    ensures Distinct(Flatten(TargetLists(chunks)))
    ensures forall v :: v in Flatten(TargetLists(chunks)) <==> IsTarget(files, v)
    ensures forall chunk :: chunk in chunks ==> chunk.targets != []
  {
    var roots, groups :| IsPlanFor(files, imports, budget, roots, groups, chunks);
    PlannedLists(files, imports, budget, roots, groups, chunks);
    GroupsPartitionTargets(files, roots, groups);
    PackKeepsEveryTarget(Prices(files), budget * 7 / 10, MemberLists(groups));
    PackKeepsLimit(Prices(files), budget * 7 / 10, MemberLists(groups));
    forall i | 0 <= i < |chunks|
      ensures chunks[i].targets != []
    {
      assert TargetLists(chunks)[i] in TargetLists(chunks);
    }
  }

  /** Exact totals; two or more targets keep to 70%; only one oversized target, alone, exceeds the budget. */
  lemma ChunksKeepBudget(files: seq<SourceFile>, imports: Imports, budget: nat, chunks: seq<Chunk>, chunk: Chunk)
    requires ValidInput(files, imports) && IsPlan(files, imports, budget, chunks) && chunk in chunks
    ensures chunk.tokens == Cost(Prices(files), chunk.targets) + Cost(Prices(files), chunk.context)
    ensures |chunk.targets| >= 2 ==> Cost(Prices(files), chunk.targets) <= budget * 7 / 10
    ensures chunk.tokens > budget ==> |chunk.targets| == 1 && chunk.context == []
  {
    var roots, groups :| IsPlanFor(files, imports, budget, roots, groups, chunks);
    PackKeepsLimit(Prices(files), budget * 7 / 10, MemberLists(groups));
    var i :| 0 <= i < |chunks| && chunks[i] == chunk;
    assert chunk.targets in Pack(Prices(files), budget * 7 / 10, MemberLists(groups));
    ChunkKeepsBudget(imports, Prices(files), budget, chunk.targets);
  }

  /** The context of every planned chunk is near, nearest first, without repeats, and greedy. */
  lemma ChunksCarryNearestContext(
    files: seq<SourceFile>, imports: Imports, budget: nat, chunks: seq<Chunk>, chunk: Chunk)
    requires ValidInput(files, imports) && IsPlan(files, imports, budget, chunks) && chunk in chunks
    ensures Distinct(chunk.context) && forall v :: v in chunk.context ==> v !in chunk.targets
    ensures var from := Elements(chunk.targets);
            && (forall v :: v in chunk.context ==> AtDistance(imports, from, v, 1) || AtDistance(imports, from, v, 2))
            && (forall i, j :: 0 <= i < j < |chunk.context| && AtDistance(imports, from, chunk.context[j], 1) ==>
                                 AtDistance(imports, from, chunk.context[i], 1))
            && (forall v :: (AtDistance(imports, from, v, 1) || AtDistance(imports, from, v, 2)) ==>
                              v in chunk.context || chunk.tokens + PriceOf(Prices(files), v) > budget)
  {
    var roots, groups :| IsPlanFor(files, imports, budget, roots, groups, chunks);
    var i :| 0 <= i < |chunks| && chunks[i] == chunk;
    assert chunk == ChunkOf(imports, Prices(files), budget, chunk.targets);
    ContextIsNear(imports, Prices(files), budget, chunk.targets);
    NearestFirst(imports, Prices(files), budget, chunk.targets);
    var from := Elements(chunk.targets);
    forall v | (AtDistance(imports, from, v, 1) || AtDistance(imports, from, v, 2)) && v !in chunk.context
      ensures chunk.tokens + PriceOf(Prices(files), v) > budget
    {
      ContextIsGreedy(imports, Prices(files), budget, chunk.targets, v);
    }
  }

  /** Whatever the names: the targets whose roots share a display name stay together exactly when they fit. */
  lemma GroupsStayTogether(
    files: seq<SourceFile>, imports: Imports, budget: nat, roots: seq<nat>, groups: seq<Group>, chunks: seq<Chunk>,
    t: nat)
    requires ValidInput(files, imports) && IsPlanFor(files, imports, budget, roots, groups, chunks)
    requires IsTarget(files, t)
    ensures var group := Named(files, roots, |files|, RootName(files, roots, t));
            Together(TargetLists(chunks), group) <==> Cost(Prices(files), group) <= budget * 7 / 10 || |group| == 1
  {
    PlannedLists(files, imports, budget, roots, groups, chunks);
    var i := GroupOfTarget(files, roots, groups, t);
    NamedExactly(files, roots, |files|, RootName(files, roots, t));
    GroupTogetherIffItFits(Prices(files), budget * 7 / 10, MemberLists(groups), i);
  }

  /** Targets that are displayed alike belong together anyway. */
  ghost predicate NamesTellFeatures(files: seq<SourceFile>, imports: Imports)
    requires ValidInput(files, imports)
  {
    forall t: nat, u: nat ::
      IsTarget(files, t) && IsTarget(files, u) && files[t].DisplayName() == files[u].DisplayName() ==>
        SameFeature(files, imports, t, u)
  }

  /** As every repo the program accepts is named. */
  predicate SlashFreeRepos(files: seq<SourceFile>) {
    forall t :: 0 <= t < |files| && files[t].target ==> '/' !in files[t].repo
  }

  /** A repo name without a slash and a path can be told from the display name. */
  lemma NameTellsFile(f: SourceFile, g: SourceFile)
    requires '/' !in f.repo && '/' !in g.repo && f.DisplayName() == g.DisplayName()
    ensures f.repo == g.repo && f.path == g.path
  {
    assert f.DisplayName() == f.repo + ['/'] + f.path && g.DisplayName() == g.repo + ['/'] + g.path;
    UntilOfConcat(f.repo, '/', f.path);
    UntilOfConcat(g.repo, '/', g.path);
  }

  lemma SlashFreeNamesTell(files: seq<SourceFile>, imports: Imports)
    requires ValidInput(files, imports) && SlashFreeRepos(files)
    ensures NamesTellFeatures(files, imports)
  {
    forall t: nat, u: nat | IsTarget(files, t) && IsTarget(files, u) && files[t].DisplayName() == files[u].DisplayName()
      ensures SameFeature(files, imports, t, u)
    {
      NameTellsFile(files[t], files[u]);
      assert Related(files, imports, t, u);
      ConnectedByEdge(RelatedPairs(files, imports), t, u);
    }
  }

  /** The targets among the first `k` files that belong to `t`'s feature. */
  ghost function FeatureOf(files: seq<SourceFile>, imports: Imports, k: nat, t: nat): (feature: seq<nat>)
    requires ValidInput(files, imports) && k <= |files|
  {
    if k == 0 then []
    else
      var feature := FeatureOf(files, imports, k - 1, t);
      if files[k - 1].target && SameFeature(files, imports, t, k - 1) then feature + [k - 1] else feature
  }

  /** Chains of related files only ever join targets to targets. */
  lemma FeaturesJoinTargets(files: seq<SourceFile>, imports: Imports, t: nat, u: nat)
    requires ValidInput(files, imports) && SameFeature(files, imports, t, u)
    ensures IsTarget(files, t) == IsTarget(files, u)
  {
    var pairs := RelatedPairs(files, imports);
    var walk :| Joins(pairs, walk, t, u);
    MarksFollowWalks(pairs, (v: nat) => if IsTarget(files, v) then 1 else 0, walk);
  }

  lemma {:induction false} NamedIsFeature(files: seq<SourceFile>, imports: Imports, roots: seq<nat>, k: nat, t: nat)
    requires ValidInput(files, imports) && Represents(files, imports, roots) && NamesTellFeatures(files, imports)
    requires k <= |files| && IsTarget(files, t)
    ensures Named(files, roots, k, RootName(files, roots, t)) == FeatureOf(files, imports, k, t)
  {
    if k > 0 {
      var u := k - 1;
      NamedIsFeature(files, imports, roots, u, t);
      if files[u].target {
        FeaturesJoinTargets(files, imports, t, roots[t]);
        FeaturesJoinTargets(files, imports, u, roots[u]);
        assert RootName(files, roots, u) == RootName(files, roots, t) <==> roots[t] == roots[u] by {
          if RootName(files, roots, u) == RootName(files, roots, t) {
            assert SameFeature(files, imports, roots[t], roots[u]);
            ConnectedTransitive(RelatedPairs(files, imports), t, roots[t], roots[u]);
            ConnectedSymmetric(RelatedPairs(files, imports), u, roots[u]);
            ConnectedTransitive(RelatedPairs(files, imports), t, roots[u], u);
          }
        }
      }
    }
  }

  /**
   * Whatever the names, as long as no repo's holds a slash: a whole feature (everything chained to `t` by shared
   * directories and imports) lands in one chunk, whatever came before it, exactly when it costs at most 70% of the
   * budget or is one file.
   */
  lemma FeaturesStayTogether(files: seq<SourceFile>, imports: Imports, budget: nat, chunks: seq<Chunk>, t: nat)
    requires ValidInput(files, imports) && IsPlan(files, imports, budget, chunks)
    requires SlashFreeRepos(files) && IsTarget(files, t)
    ensures var feature := FeatureOf(files, imports, |files|, t);
            || Cost(Prices(files), feature) <= budget * 7 / 10
            || |feature| == 1
            <==> exists chunk :: chunk in chunks && Holds(chunk.targets, feature)
  {
    SlashFreeNamesTell(files, imports);
    NamedFeaturesStayTogether(files, imports, budget, chunks, t);
  }

  /** The same for any names that only features share. */
  lemma NamedFeaturesStayTogether(files: seq<SourceFile>, imports: Imports, budget: nat, chunks: seq<Chunk>, t: nat)
    requires ValidInput(files, imports) && IsPlan(files, imports, budget, chunks)
    requires NamesTellFeatures(files, imports) && IsTarget(files, t)
    ensures var feature := FeatureOf(files, imports, |files|, t);
            || Cost(Prices(files), feature) <= budget * 7 / 10
            || |feature| == 1
            <==> exists chunk :: chunk in chunks && Holds(chunk.targets, feature)
  {
    hide NamesTellFeatures, Represents, IsGrouping, FeatureOf, Named;
    var roots, groups :| IsPlanFor(files, imports, budget, roots, groups, chunks);
    var feature := FeatureOf(files, imports, |files|, t);
    NamedIsFeature(files, imports, roots, |files|, t);
    assert roots[t] < |files| by {
      RootsInRange(files, imports, roots);
    }
    GroupsStayTogether(files, imports, budget, roots, groups, chunks, t);
    if Together(TargetLists(chunks), feature) {
      var i :| 0 <= i < |chunks| && Holds(TargetLists(chunks)[i], feature);
      assert chunks[i] in chunks && Holds(chunks[i].targets, feature);
    }
    if chunk :| chunk in chunks && Holds(chunk.targets, feature) {
      var i :| 0 <= i < |chunks| && chunks[i] == chunk;
      assert TargetLists(chunks)[i] in TargetLists(chunks);
    }
  }

  lemma RootsInRange(files: seq<SourceFile>, imports: Imports, roots: seq<nat>)
    requires ValidInput(files, imports) && Represents(files, imports, roots)
    ensures |roots| == |files| && forall t :: 0 <= t < |files| ==> roots[t] < |files|
  {
  }

  // ---------- the methods ----------

  /** Which pairs the grouping loop must have joined once the first `k` files are done. */
  ghost predicate JoinedUpTo(
    files: seq<SourceFile>, imports: Imports, edges: set<(nat, nat)>, byDir: map<(string, string), nat>, k: nat)
    requires ValidInput(files, imports) && k <= |files|
  {
    && edges <= RelatedPairs(files, imports)
    && (forall key :: key in byDir ==>
          byDir[key] < k && files[byDir[key]].target && files[byDir[key]].Directory() == key)
    && (forall t :: 0 <= t < k && files[t].target ==>
          files[t].Directory() in byDir && Connected(edges, byDir[files[t].Directory()], t))
    && (forall t, imp :: 0 <= t < k && files[t].target && imp in imports[t] && files[imp].target ==>
                           Connected(edges, t, imp))
  }

  lemma ConnectedStays(edges: set<(nat, nat)>, more: set<(nat, nat)>)
    requires edges <= more
    ensures forall x, y :: Connected(edges, x, y) ==> Connected(more, x, y)
  {
    forall x: nat, y: nat | Connected(edges, x, y)
      ensures Connected(more, x, y)
    {
      ConnectedMonotone(edges, more, x, y);
    }
  }

  /** What the loop joined is all there is to join: the roots are the features. */
  lemma JoinedIsFeature(
    files: seq<SourceFile>, imports: Imports, edges: set<(nat, nat)>, byDir: map<(string, string), nat>,
    roots: seq<nat>)
    requires ValidInput(files, imports) && JoinedUpTo(files, imports, edges, byDir, |files|)
    requires |roots| == |files| && Classifies(roots, edges)
    requires forall t :: 0 <= t < |files| ==> roots[t] < |files| && roots[roots[t]] == roots[t]
    ensures Represents(files, imports, roots)
  {
    var pairs := RelatedPairs(files, imports);
    forall t: nat, u: nat | Linked(pairs, t, u)
      ensures Connected(edges, t, u)
    {
      RelatedIsJoined(files, imports, edges, byDir, t, u);
    }
    forall t: nat, u: nat | t < |files| && u < |files|
      ensures roots[t] == roots[u] <==> SameFeature(files, imports, t, u)
    {
      if SameFeature(files, imports, t, u) {
        var walk :| Joins(pairs, walk, t, u);
        ConnectedThrough(pairs, edges, walk);
      }
      if roots[t] == roots[u] {
        ConnectedMonotone(edges, pairs, t, u);
      }
    }
  }

  lemma RelatedIsJoined(
    files: seq<SourceFile>, imports: Imports, edges: set<(nat, nat)>, byDir: map<(string, string), nat>, t: nat, u: nat)
    requires ValidInput(files, imports) && JoinedUpTo(files, imports, edges, byDir, |files|)
    requires Linked(RelatedPairs(files, imports), t, u)
    ensures Connected(edges, t, u)
  {
    assert Related(files, imports, t, u) || Related(files, imports, u, t);
    if files[t].Directory() == files[u].Directory() {
      var first := byDir[files[t].Directory()];
      ConnectedSymmetric(edges, first, t);
      ConnectedTransitive(edges, t, first, u);
    } else if u in imports[t] {
    } else {
      ConnectedSymmetric(edges, u, t);
    }
  }

  /** Joins the targets that share a directory or import each other. */
  method JoinTargets(files: seq<SourceFile>, imports: Imports) returns (uf: UnionFind)
    requires ValidInput(files, imports)
    ensures fresh(uf) && fresh(uf.parent) && uf.Valid() && uf.parent.Length == |files|
    ensures Represents(files, imports, uf.AllRoots())
  {
    uf := new UnionFind(|files|);
    var byDir: map<(string, string), nat> := map[];
    for t := 0 to |files|
      invariant fresh(uf) && fresh(uf.parent) && uf.Valid() && uf.parent.Length == |files|
      invariant JoinedUpTo(files, imports, uf.edges, byDir, t)
    {
      if files[t].target {
        byDir := JoinTarget(files, imports, uf, byDir, t);
      } else {
        ContextNeedsNoJoin(files, imports, uf.edges, byDir, t);
      }
    }
    RootsRepresent(files, imports, uf, byDir);
  }

  /** Groups the targets by the display name of their root. */
  method GroupTargets(files: seq<SourceFile>, imports: Imports, uf: UnionFind) returns (groups: seq<Group>)
    requires ValidInput(files, imports) && uf.Valid() && uf.parent.Length == |files|
    requires Represents(files, imports, uf.AllRoots())
    modifies uf.parent
    ensures IsGrouping(files, old(uf.AllRoots()), |files|, groups)
  {
    hide IsGrouping, Entered, SameFeature;
    ghost var roots := uf.AllRoots();
    NoGroups(files, roots);
    groups := [];
    for t := 0 to |files|
      invariant uf.Valid() && uf.AllRoots() == roots
      invariant IsGrouping(files, roots, t, groups)
    {
      GroupingGrows(files, roots, t, groups);
      if files[t].target {
        var root := uf.Find(t);
        groups := Entered(groups, files[root].DisplayName(), t);
      }
    }
  }

  lemma NoGroups(files: seq<SourceFile>, roots: seq<nat>)
    requires |roots| == |files| && forall t :: 0 <= t < |files| ==> roots[t] < |files|
    ensures IsGrouping(files, roots, 0, [])
  {
  }

  lemma RootsRepresent(files: seq<SourceFile>, imports: Imports, uf: UnionFind, byDir: map<(string, string), nat>)
    requires ValidInput(files, imports) && uf.Valid() && uf.parent.Length == |files|
    requires JoinedUpTo(files, imports, uf.edges, byDir, |files|)
    ensures Represents(files, imports, uf.AllRoots())
  {
    var roots := uf.AllRoots();
    assert forall t :: 0 <= t < |files| ==> roots[t] < |files| && roots[roots[t]] == roots[t];
    JoinedIsFeature(files, imports, uf.edges, byDir, roots);
  }

  ghost predicate ImportsJoined(files: seq<SourceFile>, imports: Imports, edges: set<(nat, nat)>, t: nat, k: nat)
    requires ValidInput(files, imports) && t < |files| && k <= |imports[t]|
  {
    forall j :: 0 <= j < k && files[imports[t][j]].target ==> Connected(edges, t, imports[t][j])
  }

  /** Once a target is joined to its directory and its imports, the loop has done one file more. */
  lemma JoinedGrows(
    files: seq<SourceFile>, imports: Imports, edges: set<(nat, nat)>, byDir: map<(string, string), nat>, t: nat,
    more: set<(nat, nat)>, after: map<(string, string), nat>)
    requires ValidInput(files, imports) && IsTarget(files, t) && JoinedUpTo(files, imports, edges, byDir, t)
    requires edges <= more <= RelatedPairs(files, imports)
    requires after == if files[t].Directory() in byDir then byDir else byDir[files[t].Directory() := t]
    requires Connected(more, after[files[t].Directory()], t)
    requires ImportsJoined(files, imports, more, t, |imports[t]|)
    ensures JoinedUpTo(files, imports, more, after, t + 1)
  {
    ConnectedStays(edges, more);
    forall u, imp | 0 <= u < t + 1 && files[u].target && imp in imports[u] && files[imp].target
      ensures Connected(more, u, imp)
    {
      if u == t {
        var j :| 0 <= j < |imports[t]| && imports[t][j] == imp;
      }
    }
  }

  lemma ContextNeedsNoJoin(
    files: seq<SourceFile>, imports: Imports, edges: set<(nat, nat)>, byDir: map<(string, string), nat>, t: nat)
    requires ValidInput(files, imports) && t < |files| && !files[t].target
    requires JoinedUpTo(files, imports, edges, byDir, t)
    ensures JoinedUpTo(files, imports, edges, byDir, t + 1)
  {
  }

  /** One target's unions: with the first target of its directory, and with every target it imports. */
  method JoinTarget(files: seq<SourceFile>, imports: Imports, uf: UnionFind, byDir: map<(string, string), nat>, t: nat)
    returns (after: map<(string, string), nat>)
    requires ValidInput(files, imports) && IsTarget(files, t)
    requires uf.Valid() && uf.parent.Length == |files|
    requires JoinedUpTo(files, imports, uf.edges, byDir, t)
    modifies uf, uf.parent
    ensures uf.Valid()
    ensures JoinedUpTo(files, imports, uf.edges, after, t + 1)
  {
    var key := files[t].Directory();
    ghost var edges := uf.edges;
    if key in byDir {
      after := byDir;
      uf.Union(byDir[key], t);
      ConnectedByEdge(uf.edges, byDir[key], t);
    } else {
      after := byDir[key := t];
      ConnectedReflexive(uf.edges, t);
    }
    ghost var middle := uf.edges;
    JoinImports(files, imports, uf, t);
    ConnectedMonotone(middle, uf.edges, after[key], t);
    JoinedGrows(files, imports, edges, byDir, t, uf.edges, after);
  }

  method JoinImports(files: seq<SourceFile>, imports: Imports, uf: UnionFind, t: nat)
    requires ValidInput(files, imports) && IsTarget(files, t)
    requires uf.Valid() && uf.parent.Length == |files| && uf.edges <= RelatedPairs(files, imports)
    modifies uf, uf.parent
    ensures uf.Valid() && old(uf.edges) <= uf.edges <= RelatedPairs(files, imports)
    ensures ImportsJoined(files, imports, uf.edges, t, |imports[t]|)
  {
    hide Connected;
    for i := 0 to |imports[t]|
      invariant uf.Valid()
      invariant old(uf.edges) <= uf.edges <= RelatedPairs(files, imports)
      invariant ImportsJoined(files, imports, uf.edges, t, i)
    {
      var imp := imports[t][i];
      if files[imp].target {
        ghost var before := uf.edges;
        uf.Union(t, imp);
        ConnectedStays(before, uf.edges);
        ConnectedByEdge(uf.edges, t, imp);
      }
    }
  }

  /** The chunks made so far, and the list being filled: how the packing loop stands for `bins`. */
  ghost predicate Stands(files: seq<SourceFile>, imports: Imports, budget: nat, bins: Bins, state: Packer)
    requires ValidInput(files, imports)
  {
    && state.current == bins.current && InRange(bins.current, |files|)
    && state.currentCost == Cost(Prices(files), bins.current)
    && AreChunksOf(bins.done, imports, Prices(files), budget, state.chunks)
  }

  datatype Packer = Packer(current: seq<nat>, currentCost: nat, chunks: seq<Chunk>)

  /** Plans the chunks over a given import graph: groups, packed into target lists, each filled up with context. */
  method PlanFeatures(files: seq<SourceFile>, imports: Imports, budget: nat) returns (chunks: seq<Chunk>)
    requires ValidInput(files, imports)
    ensures IsPlan(files, imports, budget, chunks)
  {
    var uf := JoinTargets(files, imports);
    ghost var roots := uf.AllRoots();
    var groups := GroupTargets(files, imports, uf);
    GroupsInRange(files, roots, groups);
    chunks := PackAll(files, imports, budget, groups);
    assert IsPlanFor(files, imports, budget, roots, groups, chunks);
  }

  lemma GroupsInRange(files: seq<SourceFile>, roots: seq<nat>, groups: seq<Group>)
    requires |files| == |roots| && forall t :: 0 <= t < |files| ==> roots[t] < |files|
    requires IsGrouping(files, roots, |files|, groups)
    ensures forall g :: 0 <= g < |groups| ==> InRange(groups[g].members, |files|)
  {
    forall g, k | 0 <= g < |groups| && 0 <= k < |groups[g].members|
      ensures groups[g].members[k] < |files|
    {
      GroupIsNamed(files, roots, groups, g);
      NamedExactly(files, roots, |files|, groups[g].key);
      assert groups[g].members[k] in groups[g].members;
    }
  }

  method PackAll(files: seq<SourceFile>, imports: Imports, budget: nat, groups: seq<Group>) returns (chunks: seq<Chunk>)
    requires ValidInput(files, imports)
    requires forall g :: 0 <= g < |groups| ==> InRange(groups[g].members, |files|)
    ensures AreChunksOf(
              Pack(Prices(files), budget * 7 / 10, MemberLists(groups)), imports, Prices(files), budget, chunks)
  {
    ghost var price, limit, lists := Prices(files), budget * 7 / 10, MemberLists(groups);
    var state := Packer([], 0, []);
    for g := 0 to |groups|
      invariant Stands(files, imports, budget, PushGroups(price, limit, lists, g), state)
    {
      state := PackOne(files, imports, budget, groups[g].members, PushGroups(price, limit, lists, g), state);
    }
    state := Flush(files, imports, budget, PushGroups(price, limit, lists, |groups|), state);
    chunks := state.chunks;
  }

  /** Packs one group, starting a fresh chunk first if it fits whole but not beside the open one. */
  method PackOne(
    files: seq<SourceFile>, imports: Imports, budget: nat, group: seq<nat>, ghost bins: Bins, before: Packer)
    returns (state: Packer)
    requires ValidInput(files, imports) && InRange(group, |files|) && Stands(files, imports, budget, bins, before)
    ensures Stands(files, imports, budget, PushGroup(Prices(files), budget * 7 / 10, bins, group), state)
  {
    hide AreChunksOf, PushTarget, FileCost;
    var price, targetBudget := Prices(files), budget * 7 / 10;
    state := before;
    var groupCost := Cost(price, group);
    if state.current != [] && state.currentCost + groupCost > targetBudget && groupCost <= targetBudget {
      state := Flush(files, imports, budget, bins, state);
    }
    ghost var open := OpenFor(price, targetBudget, bins, group);
    for k := 0 to |group|
      invariant Stands(files, imports, budget, PushTargets(price, targetBudget, open, group, k), state)
    {
      state := PackTarget(files, imports, budget, group[k], PushTargets(price, targetBudget, open, group, k), state);
    }
  }

  method PackTarget(files: seq<SourceFile>, imports: Imports, budget: nat, t: nat, ghost bins: Bins, before: Packer)
    returns (state: Packer)
    requires ValidInput(files, imports) && t < |files| && Stands(files, imports, budget, bins, before)
    ensures Stands(files, imports, budget, PushTarget(Prices(files), budget * 7 / 10, bins, t), state)
  {
    var cost := FileCost(files[t]);
    state := before;
    CostOfSnoc(Prices(files), state.current, t);
    if state.current != [] && state.currentCost + cost > budget * 7 / 10 {
      state := Flush(files, imports, budget, bins, state);
      CostOfSnoc(Prices(files), [], t);
      assert [] + [t] == [t];
    }
    state := state.(current := state.current + [t], currentCost := state.currentCost + cost);
  }

  /** The open list, unless it is empty, becomes a chunk. */
  method Flush(files: seq<SourceFile>, imports: Imports, budget: nat, ghost bins: Bins, before: Packer)
    returns (state: Packer)
    requires ValidInput(files, imports) && Stands(files, imports, budget, bins, before)
    ensures Stands(files, imports, budget, bins.Flush(), state)
  {
    state := before;
    if state.current != [] {
      var chunk := FillContext(state.current, state.currentCost, Prices(files), imports, budget);
      state := Packer([], 0, state.chunks + [chunk]);
    }
  }
}
