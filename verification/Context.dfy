/** The files a chunk carries beside its targets: `fill_context` in chunk.rs. */
module Context {
  import opened Packing

  /** Each file's imports, as indexes of files. */
  type Imports = seq<seq<nat>>

  datatype Chunk = Chunk(targets: seq<nat>, context: seq<nat>, tokens: nat)

  ghost predicate InRange(items: seq<nat>, size: nat) {
    forall i :: 0 <= i < |items| ==> items[i] < size
  }

  ghost predicate WellFormed(imports: Imports) {
    forall i :: 0 <= i < |imports| ==> InRange(imports[i], |imports|)
  }

  function Elements(items: seq<nat>): (s: set<nat>) {
    set x | x in items
  }

  // ---------- how far a file is from the targets ----------

  /** `v` is reached from `from` in at most `steps` imports. */
  ghost predicate Within(imports: Imports, from: set<nat>, v: nat, steps: nat)
    requires WellFormed(imports)
    decreases steps
  {
    if steps == 0 then v in from
    else
      || Within(imports, from, v, steps - 1)
      || exists u: nat :: u < |imports| && Within(imports, from, u, steps - 1) && v in imports[u]
  }

  /** The shortest import path from the targets to `v` has exactly `steps` imports. */
  ghost predicate AtDistance(imports: Imports, from: set<nat>, v: nat, steps: nat)
    requires WellFormed(imports)
  {
    Within(imports, from, v, steps) && (steps > 0 ==> !Within(imports, from, v, steps - 1))
  }

  // ---------- what the loops compute ----------

  /** The imports of the first `k` files of the frontier, in the order the walk meets them. */
  function Met(imports: Imports, frontier: seq<nat>, k: nat): (met: seq<nat>)
    requires k <= |frontier| && InRange(frontier, |imports|)
  {
    if k == 0 then [] else Met(imports, frontier, k - 1) + imports[frontier[k - 1]]
  }

  /** The first occurrences, among the first `k`, of what was not seen before. */
  function Unseen(met: seq<nat>, k: nat, seen: set<nat>): (found: seq<nat>)
    requires k <= |met|
  {
    if k == 0 then []
    else
      var found := Unseen(met, k - 1, seen);
      if met[k - 1] in seen || met[k - 1] in found then found else found + [met[k - 1]]
  }

  /** The walk's next level: what the frontier imports and nobody met yet. */
  function NextLevel(imports: Imports, frontier: seq<nat>, seen: set<nat>): (level: seq<nat>)
    requires InRange(frontier, |imports|)
  {
    var met := Met(imports, frontier, |frontier|);
    Unseen(met, |met|, seen)
  }

  /** One file more is taken if it still fits. */
  function Took(price: Pricing, taken: seq<nat>, next: nat, tokens: nat, budget: nat): (after: seq<nat>) {
    if tokens + Cost(price, taken) + PriceOf(price, next) <= budget then taken + [next] else taken
  }

  /** The files taken from the first `k` offered, in order, while they fit. */
  function Taken(price: Pricing, offered: seq<nat>, k: nat, tokens: nat, budget: nat): (taken: seq<nat>)
    requires k <= |offered|
  {
    if k == 0 then [] else Took(price, Taken(price, offered, k - 1, tokens, budget), offered[k - 1], tokens, budget)
  }

  function FirstLevel(imports: Imports, targets: seq<nat>): (level: seq<nat>)
    requires InRange(targets, |imports|)
  {
    NextLevel(imports, targets, Elements(targets))
  }

  function SecondLevel(imports: Imports, targets: seq<nat>): (level: seq<nat>)
    requires WellFormed(imports) && InRange(targets, |imports|)
  {
    LevelInRange(imports, targets, Elements(targets));
    NextLevel(imports, FirstLevel(imports, targets), Elements(targets) + Elements(FirstLevel(imports, targets)))
  }

  /** Everything the walk offers: the first level, then the second. */
  function Offered(imports: Imports, targets: seq<nat>): (offered: seq<nat>)
    requires WellFormed(imports) && InRange(targets, |imports|)
  {
    FirstLevel(imports, targets) + SecondLevel(imports, targets)
  }

  function ContextOf(imports: Imports, price: Pricing, budget: nat, targets: seq<nat>): (context: seq<nat>)
    requires WellFormed(imports) && InRange(targets, |imports|)
  {
    var offered := Offered(imports, targets);
    Taken(price, offered, |offered|, Cost(price, targets), budget)
  }

  function ChunkOf(imports: Imports, price: Pricing, budget: nat, targets: seq<nat>): (chunk: Chunk)
    requires WellFormed(imports) && InRange(targets, |imports|)
  {
    var context := ContextOf(imports, price, budget, targets);
    Chunk(targets, context, Cost(price, targets) + Cost(price, context))
  }

  // ---------- the levels are the distances ----------

  lemma {:induction false} UnseenExactly(met: seq<nat>, k: nat, seen: set<nat>)
    requires k <= |met|
    ensures forall x :: x in Unseen(met, k, seen) <==> x in met[..k] && x !in seen
    ensures Distinct(Unseen(met, k, seen))
  {
    if k > 0 {
      UnseenExactly(met, k - 1, seen);
      assert met[..k] == met[..k - 1] + [met[k - 1]];
    }
  }

  lemma {:induction false} MetExactly(imports: Imports, frontier: seq<nat>, k: nat, v: nat)
    requires k <= |frontier| && InRange(frontier, |imports|)
    ensures v in Met(imports, frontier, k) <==> exists a :: 0 <= a < k && v in imports[frontier[a]]
  {
    if k > 0 {
      MetExactly(imports, frontier, k - 1, v);
    }
  }

  lemma LevelExactly(imports: Imports, frontier: seq<nat>, seen: set<nat>)
    requires InRange(frontier, |imports|)
    ensures forall v :: v in NextLevel(imports, frontier, seen) <==>
                          v !in seen && exists u :: u in frontier && v in imports[u]
    ensures Distinct(NextLevel(imports, frontier, seen))
  {
    var met := Met(imports, frontier, |frontier|);
    UnseenExactly(met, |met|, seen);
    assert met[..|met|] == met;
    forall v: nat
      ensures v in met <==> exists u :: u in frontier && v in imports[u]
    {
      MetExactly(imports, frontier, |frontier|, v);
      if u :| u in frontier && v in imports[u] {
        var a :| 0 <= a < |frontier| && frontier[a] == u;
        assert v in imports[frontier[a]];
      }
    }
  }

  lemma LevelInRange(imports: Imports, frontier: seq<nat>, seen: set<nat>)
    requires WellFormed(imports) && InRange(frontier, |imports|)
    ensures InRange(NextLevel(imports, frontier, seen), |imports|)
  {
    LevelExactly(imports, frontier, seen);
    var level := NextLevel(imports, frontier, seen);
    forall k | 0 <= k < |level|
      ensures level[k] < |imports|
    {
      assert level[k] in level;
      var u :| u in frontier && level[k] in imports[u];
    }
  }

  lemma FirstLevelIsDistanceOne(imports: Imports, targets: seq<nat>, v: nat)
    requires WellFormed(imports) && InRange(targets, |imports|)
    ensures v in FirstLevel(imports, targets) <==> AtDistance(imports, Elements(targets), v, 1)
  {
    var from := Elements(targets);
    LevelExactly(imports, targets, from);
    if AtDistance(imports, from, v, 1) {
      var u: nat :| u < |imports| && Within(imports, from, u, 0) && v in imports[u];
      assert u in targets;
    }
    if v in FirstLevel(imports, targets) {
      var u :| u in targets && v in imports[u];
      assert Within(imports, from, u, 0);
    }
  }

  lemma ImportOfWithin(imports: Imports, from: set<nat>, u: nat, v: nat, steps: nat)
    requires WellFormed(imports) && u < |imports|
    ensures Within(imports, from, u, steps) && v in imports[u] ==> Within(imports, from, v, steps + 1)
  {
  }

  lemma SecondLevelIsDistanceTwo(imports: Imports, targets: seq<nat>, v: nat)
    requires WellFormed(imports) && InRange(targets, |imports|)
    ensures v in SecondLevel(imports, targets) <==> AtDistance(imports, Elements(targets), v, 2)
  {
    var from, first := Elements(targets), FirstLevel(imports, targets);
    LevelInRange(imports, targets, from);
    LevelExactly(imports, first, from + Elements(first));
    FirstLevelIsDistanceOne(imports, targets, v);
    assert Within(imports, from, v, 1) <==> v in from || v in first;
    if AtDistance(imports, from, v, 2) {
      var u: nat :| u < |imports| && Within(imports, from, u, 1) && v in imports[u];
      FirstLevelIsDistanceOne(imports, targets, u);
      ImportOfWithin(imports, from, u, v, 0);
      assert u in first;
    }
    if v in SecondLevel(imports, targets) {
      var u :| u in first && v in imports[u];
      FirstLevelIsDistanceOne(imports, targets, u);
      ImportOfWithin(imports, from, u, v, 1);
    }
  }

  lemma LevelsAreDistances(imports: Imports, targets: seq<nat>)
    requires WellFormed(imports) && InRange(targets, |imports|)
    ensures forall v :: v in FirstLevel(imports, targets) <==> AtDistance(imports, Elements(targets), v, 1)
    ensures forall v :: v in SecondLevel(imports, targets) <==> AtDistance(imports, Elements(targets), v, 2)
  {
    forall v: nat
      ensures v in FirstLevel(imports, targets) <==> AtDistance(imports, Elements(targets), v, 1)
    {
      FirstLevelIsDistanceOne(imports, targets, v);
    }
    forall v: nat
      ensures v in SecondLevel(imports, targets) <==> AtDistance(imports, Elements(targets), v, 2)
    {
      SecondLevelIsDistanceTwo(imports, targets, v);
    }
  }

  lemma OfferedIsDistinct(imports: Imports, targets: seq<nat>)
    requires WellFormed(imports) && InRange(targets, |imports|)
    ensures Distinct(Offered(imports, targets))
    ensures forall v :: v in SecondLevel(imports, targets) ==> v !in FirstLevel(imports, targets)
    ensures forall v :: v in Offered(imports, targets) ==> v !in targets
  {
    var from, near := Elements(targets), FirstLevel(imports, targets);
    LevelInRange(imports, targets, from);
    LevelExactly(imports, targets, from);
    LevelExactly(imports, near, from + Elements(near));
    DistinctConcat(near, SecondLevel(imports, targets));
  }

  lemma DistinctConcat(a: seq<nat>, b: seq<nat>)
    requires Distinct(a) && Distinct(b) && forall v :: v in b ==> v !in a
    ensures Distinct(a + b)
  {
    forall i, j | 0 <= i < j < |a + b|
      ensures (a + b)[i] != (a + b)[j]
    {
      if i < |a| <= j {
        assert a[i] in a && b[j - |a|] in b;
      }
    }
  }

  // ---------- the greedy fill ----------

  lemma {:induction false} TakenOfPrefix(price: Pricing, a: seq<nat>, b: seq<nat>, k: nat, tokens: nat, budget: nat)
    requires k <= |a| && k <= |b| && forall i :: 0 <= i < k ==> a[i] == b[i]
    ensures Taken(price, a, k, tokens, budget) == Taken(price, b, k, tokens, budget)
  {
    if k > 0 {
      TakenOfPrefix(price, a, b, k - 1, tokens, budget);
    }
  }

  /** Once the near files are taken, the far ones are only appended. */
  lemma {:induction false} TakenPast(price: Pricing, near: seq<nat>, far: seq<nat>, k: nat, tokens: nat, budget: nat)
    returns (more: seq<nat>)
    requires k <= |far|
    ensures Taken(price, near + far, |near| + k, tokens, budget) == Taken(price, near, |near|, tokens, budget) + more
    ensures forall v :: v in more ==> v in far
  {
    if k == 0 {
      more := [];
      TakenOfPrefix(price, near + far, near, |near|, tokens, budget);
    } else {
      more := TakenPast(price, near, far, k - 1, tokens, budget);
      var first := Taken(price, near, |near|, tokens, budget);
      if tokens + Cost(price, first + more) + PriceOf(price, far[k - 1]) <= budget {
        assert first + more + [far[k - 1]] == first + (more + [far[k - 1]]);
        more := more + [far[k - 1]];
      }
    }
  }

  lemma {:induction false} TakenIsOffered(price: Pricing, offered: seq<nat>, k: nat, tokens: nat, budget: nat)
    requires k <= |offered| && Distinct(offered)
    ensures Distinct(Taken(price, offered, k, tokens, budget))
    ensures forall v :: v in Taken(price, offered, k, tokens, budget) ==> v in offered[..k]
  {
    if k > 0 {
      TakenIsOffered(price, offered, k - 1, tokens, budget);
      assert offered[..k] == offered[..k - 1] + [offered[k - 1]];
      DistinctSnoc(Taken(price, offered, k - 1, tokens, budget), offered, k - 1);
    }
  }

  lemma DistinctSnoc(taken: seq<nat>, offered: seq<nat>, k: nat)
    requires k < |offered| && Distinct(offered) && Distinct(taken)
    requires forall v :: v in taken ==> v in offered[..k]
    ensures Distinct(taken + [offered[k]])
  {
    assert offered[k] !in taken;
  }

  /** The fill keeps within the budget, and leaves out only what would not fit even at the end. */
  lemma {:induction false} TakenFills(price: Pricing, offered: seq<nat>, k: nat, tokens: nat, budget: nat)
    requires k <= |offered|
    ensures var taken := Taken(price, offered, k, tokens, budget);
            && (taken != [] ==> tokens + Cost(price, taken) <= budget)
            && (forall i :: 0 <= i < k && offered[i] !in taken ==>
                              tokens + Cost(price, taken) + PriceOf(price, offered[i]) > budget)
  {
    if k > 0 {
      TakenFills(price, offered, k - 1, tokens, budget);
      CostOfSnoc(price, Taken(price, offered, k - 1, tokens, budget), offered[k - 1]);
    }
  }

  lemma ContextExactly(imports: Imports, price: Pricing, budget: nat, targets: seq<nat>)
    requires WellFormed(imports) && InRange(targets, |imports|)
    ensures var chunk := ChunkOf(imports, price, budget, targets);
            && Distinct(chunk.context)
            && (forall v :: v in chunk.context ==> v in Offered(imports, targets))
            && (chunk.context != [] ==> chunk.tokens <= budget)
            && (forall v :: v in Offered(imports, targets) && v !in chunk.context ==>
                              chunk.tokens + PriceOf(price, v) > budget)
  {
    var offered := Offered(imports, targets);
    OfferedIsDistinct(imports, targets);
    TakenIsOffered(price, offered, |offered|, Cost(price, targets), budget);
    TakenFills(price, offered, |offered|, Cost(price, targets), budget);
    assert offered[..|offered|] == offered;
  }

  /** No repeats, no targets, and only files whose shortest import path from a target has one or two steps. */
  lemma ContextIsNear(imports: Imports, price: Pricing, budget: nat, targets: seq<nat>)
    requires WellFormed(imports) && InRange(targets, |imports|)
    ensures var context := ChunkOf(imports, price, budget, targets).context;
            && Distinct(context)
            && (forall v :: v in context ==> v !in targets)
            && (forall v :: v in context ==> || AtDistance(imports, Elements(targets), v, 1)
                                             || AtDistance(imports, Elements(targets), v, 2))
  {
    ContextExactly(imports, price, budget, targets);
    OfferedIsDistinct(imports, targets);
    LevelsAreDistances(imports, targets);
  }

  lemma ContextSplits(imports: Imports, price: Pricing, budget: nat, targets: seq<nat>)
    returns (first: seq<nat>, second: seq<nat>)
    requires WellFormed(imports) && InRange(targets, |imports|)
    ensures ChunkOf(imports, price, budget, targets).context == first + second
    ensures forall v :: v in first ==> v in FirstLevel(imports, targets)
    ensures forall v :: v in second ==> v in SecondLevel(imports, targets)
  {
    var near, far, cost := FirstLevel(imports, targets), SecondLevel(imports, targets), Cost(price, targets);
    LevelExactly(imports, targets, Elements(targets));
    first := Taken(price, near, |near|, cost, budget);
    second := TakenPast(price, near, far, |far|, cost, budget);
    TakenIsOffered(price, near, |near|, cost, budget);
    assert near[..|near|] == near;
  }

  /** Every file one import away stands before every file two imports away. */
  lemma NearestFirst(imports: Imports, price: Pricing, budget: nat, targets: seq<nat>)
    requires WellFormed(imports) && InRange(targets, |imports|)
    ensures var context := ChunkOf(imports, price, budget, targets).context;
            forall i, j :: 0 <= i < j < |context| && AtDistance(imports, Elements(targets), context[j], 1) ==>
                             AtDistance(imports, Elements(targets), context[i], 1)
  {
    var first, second := ContextSplits(imports, price, budget, targets);
    OfferedIsDistinct(imports, targets);
    FirstsBeforeSeconds(FirstLevel(imports, targets), first, second);
    LevelsAreDistances(imports, targets);
  }

  lemma FirstsBeforeSeconds(near: seq<nat>, first: seq<nat>, second: seq<nat>)
    requires (forall v :: v in first ==> v in near) && (forall v :: v in second ==> v !in near)
    ensures forall i, j :: 0 <= i < j < |first + second| && (first + second)[j] in near ==> (first + second)[i] in near
  {
    forall j | |first| <= j < |first + second|
      ensures (first + second)[j] !in near
    {
      assert (first + second)[j] == second[j - |first|];
    }
  }

  /** A file one or two imports away is left out only when it would push the finished chunk over the budget. */
  lemma ContextIsGreedy(imports: Imports, price: Pricing, budget: nat, targets: seq<nat>, v: nat)
    requires WellFormed(imports) && InRange(targets, |imports|)
    requires AtDistance(imports, Elements(targets), v, 1) || AtDistance(imports, Elements(targets), v, 2)
    requires v !in ChunkOf(imports, price, budget, targets).context
    ensures ChunkOf(imports, price, budget, targets).tokens + PriceOf(price, v) > budget
  {
    ContextExactly(imports, price, budget, targets);
    LevelsAreDistances(imports, targets);
    assert v in Offered(imports, targets);
  }

  /** The total is what the files cost, and only one oversized target goes over the budget, alone. */
  lemma ChunkKeepsBudget(imports: Imports, price: Pricing, budget: nat, targets: seq<nat>)
    requires WellFormed(imports) && InRange(targets, |imports|) && targets != []
    requires Fits(price, budget * 7 / 10, targets)
    ensures var chunk := ChunkOf(imports, price, budget, targets);
            && chunk.tokens == Cost(price, chunk.targets) + Cost(price, chunk.context)
            && (chunk.tokens <= budget || (|chunk.targets| == 1 && chunk.context == []))
  {
    ContextExactly(imports, price, budget, targets);
  }

  // ---------- the methods ----------

  /** Fills the room the targets leave with the files they import, nearest first. */
  method FillContext(targets: seq<nat>, targetsCost: nat, price: Pricing, imports: Imports, budget: nat)
    returns (chunk: Chunk)
    requires WellFormed(imports) && InRange(targets, |imports|) && targetsCost == Cost(price, targets)
    ensures chunk == ChunkOf(imports, price, budget, targets)
  {
    var inChunk := Elements(targets);
    var context: seq<nat> := [];
    var seen := inChunk;
    var tokens := targetsCost;
    var frontier := targets;
    ghost var offered: seq<nat> := [];
    for depth := 0 to 2
      invariant InRange(frontier, |imports|)
      invariant depth == 0 ==> frontier == targets && seen == inChunk && offered == []
      invariant depth == 1 ==>
                  frontier == offered == FirstLevel(imports, targets) && seen == inChunk + Elements(frontier)
      invariant depth == 2 ==> offered == Offered(imports, targets)
      invariant context == Taken(price, offered, |offered|, targetsCost, budget)
      invariant tokens == targetsCost + Cost(price, context)
    {
      LevelInRange(imports, frontier, seen);
      var next;
      next, seen := Expand(imports, frontier, seen);
      context, tokens := Take(price, next, offered, context, tokens, targetsCost, budget);
      offered := offered + next;
      frontier := next;
    }
    chunk := Chunk(targets, context, tokens);
  }

  /** One level of the walk: the files the frontier imports that were not seen yet, now seen. */
  method Expand(imports: Imports, frontier: seq<nat>, before: set<nat>) returns (next: seq<nat>, seen: set<nat>)
    requires InRange(frontier, |imports|)
    ensures next == NextLevel(imports, frontier, before)
    ensures seen == before + Elements(next)
  {
    next, seen := [], before;
    ghost var all := Met(imports, frontier, |frontier|);
    for a := 0 to |frontier|
      invariant Met(imports, frontier, a) <= all
      invariant next == Unseen(all, |Met(imports, frontier, a)|, before)
      invariant seen == before + Elements(next)
    {
      var found := imports[frontier[a]];
      ghost var met := Met(imports, frontier, a);
      MetGrows(imports, frontier, a + 1);
      for b := 0 to |found|
        invariant next == Unseen(all, |met| + b, before)
        invariant seen == before + Elements(next)
      {
        assert found[b] == Met(imports, frontier, a + 1)[|met| + b] == all[|met| + b];
        if found[b] !in seen {
          seen := seen + {found[b]};
          next := next + [found[b]];
        }
      }
    }
  }

  lemma {:induction false} MetGrows(imports: Imports, frontier: seq<nat>, k: nat)
    requires k <= |frontier| && InRange(frontier, |imports|)
    ensures Met(imports, frontier, k) <= Met(imports, frontier, |frontier|)
    decreases |frontier| - k
  {
    if k < |frontier| {
      MetGrows(imports, frontier, k + 1);
    }
  }

  /** Adds the files of one level that still fit. */
  method Take(price: Pricing, next: seq<nat>, ghost offered: seq<nat>, taken: seq<nat>, tokens: nat,
              ghost targetsCost: nat, budget: nat)
    returns (context: seq<nat>, total: nat)
    requires taken == Taken(price, offered, |offered|, targetsCost, budget)
    requires tokens == targetsCost + Cost(price, taken)
    ensures context == Taken(price, offered + next, |offered + next|, targetsCost, budget)
    ensures total == targetsCost + Cost(price, context)
  {
    context, total := taken, tokens;
    TakenOfPrefix(price, offered, offered + next, |offered|, targetsCost, budget);
    for k := 0 to |next|
      invariant context == Taken(price, offered + next, |offered| + k, targetsCost, budget)
      invariant total == targetsCost + Cost(price, context)
    {
      var cost := PriceOf(price, next[k]);
      if total + cost <= budget {
        CostOfSnoc(price, context, next[k]);
        context := context + [next[k]];
        total := total + cost;
      }
    }
  }
}
