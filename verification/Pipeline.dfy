/** From the machines' contexts to finished reviews: what a run plans, its machines have room for. */
module Pipeline {
  import Wrappers
  import opened Packing
  import opened Context
  import opened Planner
  import opened Assign
  import ReviewRun

  /** The chunk budget of a run: the review budget less the instructions every prompt carries. */
  function ChunkBudget(workers: seq<Worker>, cap: nat, overhead: nat): (budget: nat) {
    SaturatingSub(ReviewBudget(workers, cap), overhead)
  }

  /** The waiting review tasks of a run: one a chunk, numbered from 1, the instructions added back. */
  function ReviewTasks(chunks: seq<Chunk>, overhead: nat): (tasks: seq<TaskNeed>) {
    seq(|chunks|, i requires 0 <= i < |chunks| =>
      TaskNeed(i + 1, Review, chunks[i].tokens + overhead, Wrappers.None, false))
  }

  predicate Oversized(chunk: Chunk, budget: nat) {
    chunk.tokens > budget
  }

  lemma TargetsCostSomething(files: seq<SourceFile>, targets: seq<nat>)
    requires targets != [] && InRange(targets, |files|)
    ensures Cost(Prices(files), targets) >= 20
  {
    assert CostTo(Prices(files), targets, |targets|)
        == CostTo(Prices(files), targets, |targets| - 1) + PriceOf(Prices(files), targets[|targets| - 1]);
  }

  lemma PlannedInRange(files: seq<SourceFile>, imports: Imports, budget: nat, chunks: seq<Chunk>, chunk: Chunk)
    requires ValidInput(files, imports) && IsPlan(files, imports, budget, chunks) && chunk in chunks
    ensures InRange(chunk.targets, |files|)
  {
    var roots, groups :| IsPlanFor(files, imports, budget, roots, groups, chunks);
    var i :| 0 <= i < |chunks| && chunks[i] == chunk;
  }

  /** Every planned chunk is one oversized target alone, or its review fits some machine of the run. */
  lemma EveryChunkFitsSomeMachine(
    files: seq<SourceFile>, imports: Imports, workers: seq<Worker>, cap: nat, overhead: nat, chunks: seq<Chunk>,
    chunk: Chunk)
    requires ValidInput(files, imports)
    requires IsPlan(files, imports, ChunkBudget(workers, cap, overhead), chunks) && chunk in chunks
    ensures || (Oversized(chunk, ChunkBudget(workers, cap, overhead)) && |chunk.targets| == 1 && chunk.context == [])
            || exists w :: w in workers && Capacity(w, Review) >= chunk.tokens + overhead
  {
    var budget := ChunkBudget(workers, cap, overhead);
    ChunksKeepBudget(files, imports, budget, chunks, chunk);
    EveryTargetOnce(files, imports, budget, chunks);
    PlannedInRange(files, imports, budget, chunks, chunk);
    TargetsCostSomething(files, chunk.targets);
    MaxCapacityIsReached(workers, |workers|);
    if chunk.tokens <= budget {
      var i :| 0 <= i < |workers| && Capacity(workers[i], Review) == MaxCapacity(workers, |workers|);
      assert workers[i] in workers;
    }
  }

  /** The machines of a plan as a later round sees them: the same contexts; speed, load and rest may have changed. */
  ghost predicate SameContexts(plan: seq<Worker>, now: seq<Worker>) {
    |now| == |plan| && forall j :: 0 <= j < |plan| ==> now[j].ctxTokens == plan[j].ctxTokens
  }

  /** The review of a chunk, whatever its id. */
  function ReviewOf(chunk: Chunk, overhead: nat, id: nat): (need: TaskNeed) {
    TaskNeed(id, Review, chunk.tokens + overhead, Wrappers.None, false)
  }

  /** However the machines' speeds changed since, a planned chunk has room in one of their contexts. */
  lemma PlannedReviewHasRoom(
    files: seq<SourceFile>, imports: Imports, plan: seq<Worker>, now: seq<Worker>, cap: nat, overhead: nat,
    chunks: seq<Chunk>, chunk: Chunk, id: nat)
    requires ValidInput(files, imports) && SameContexts(plan, now)
    requires IsPlan(files, imports, ChunkBudget(plan, cap, overhead), chunks)
    requires chunk in chunks && !Oversized(chunk, ChunkBudget(plan, cap, overhead))
    ensures exists w :: w in now && HasRoom(ReviewOf(chunk, overhead, id), w)
  {
    hide IsPlan;
    EveryChunkFitsSomeMachine(files, imports, plan, cap, overhead, chunks, chunk);
    var w :| w in plan && Capacity(w, Review) >= chunk.tokens + overhead;
    var j :| 0 <= j < |plan| && plan[j] == w;
    FitsIffRoomAndSpeed(ReviewOf(chunk, overhead, id), w);
    assert HasRoom(ReviewOf(chunk, overhead, id), now[j]) && now[j] in now;
  }

  /** No machine that has room for a review was measured to be too slow for it. */
  ghost predicate SpeedsSuffice(need: TaskNeed, now: seq<Worker>) {
    forall w :: w in now && HasRoom(need, w) ==> IsFastEnough(need, w)
  }

  lemma PlannedReviewIsDoable(
    files: seq<SourceFile>, imports: Imports, plan: seq<Worker>, now: seq<Worker>, cap: nat, overhead: nat,
    chunks: seq<Chunk>, chunk: Chunk, id: nat)
    requires ValidInput(files, imports) && SameContexts(plan, now)
    requires IsPlan(files, imports, ChunkBudget(plan, cap, overhead), chunks)
    requires chunk in chunks && !Oversized(chunk, ChunkBudget(plan, cap, overhead))
    requires SpeedsSuffice(ReviewOf(chunk, overhead, id), now)
    ensures Doable(ReviewOf(chunk, overhead, id), now)
  {
    hide IsPlan, HasRoom, IsFastEnough, Doable;
    PlannedReviewHasRoom(files, imports, plan, now, cap, overhead, chunks, chunk, id);
    DoableIffRoomAndSpeed(ReviewOf(chunk, overhead, id), now);
  }

  /**
   * When no target is oversized, as many rounds as there are chunks hand out a planned run, whatever the machines'
   * speeds become, as long as they come back free and none with room for a review has become too slow for it.
   */
  lemma PlannedRunFinishes(
    files: seq<SourceFile>, imports: Imports, plan: seq<Worker>, cap: nat, overhead: nat, chunks: seq<Chunk>,
    snapshots: seq<seq<Worker>>)
    requires ValidInput(files, imports) && |snapshots| >= |chunks|
    requires IsPlan(files, imports, ChunkBudget(plan, cap, overhead), chunks)
    requires forall chunk :: chunk in chunks ==> !Oversized(chunk, ChunkBudget(plan, cap, overhead))
    requires forall r :: 0 <= r < |snapshots| ==> AllFree(snapshots[r]) && SameContexts(plan, snapshots[r])
    requires forall r, need :: 0 <= r < |snapshots| && need in ReviewTasks(chunks, overhead) ==>
                                 SpeedsSuffice(need, snapshots[r])
    ensures AfterSnapshots(ReviewTasks(chunks, overhead), snapshots, |snapshots|) == []
  {
    hide IsPlan, SpeedsSuffice, AfterSnapshots, Doable, AllFree, SameContexts;
    var needs := ReviewTasks(chunks, overhead);
    ChangingRoundsClear(needs, snapshots);
    var rest := AfterSnapshots(needs, snapshots, |snapshots|);
    if rest != [] {
      var need := rest[0];
      assert need in rest;
      var r :| 0 <= r < |snapshots| && !Doable(need, snapshots[r]);
      var i :| 0 <= i < |chunks| && needs[i] == need;
      assert chunks[i] in chunks && need == ReviewOf(chunks[i], overhead, i + 1);
      PlannedReviewIsDoable(files, imports, plan, snapshots[r], cap, overhead, chunks, chunks[i], i + 1);
      assert false;
    }
  }

  /** The tasks a run starts with: a review of each chunk. */
  function ChunkTasks(chunks: seq<Chunk>, overhead: nat): (tasks: seq<ReviewRun.Task>)
    ensures |tasks| == |chunks|
  {
    seq(|chunks|, i requires 0 <= i < |chunks| =>
      ReviewRun.Task(Review, chunks[i].tokens + overhead, Wrappers.None, false, 0, ReviewRun.Waiting))
  }

  /**
   * Whatever was handed out, failed, was paused, raised or measured before: a planned review that is not oversized has
   * room in a machine's context. While it waits and nothing runs, a round with the machines as they are `now`, and
   * free, hands something out if one with room for it is unmeasured or fast enough.
   */
  lemma PlannedRunNeverStarves(
    files: seq<SourceFile>, imports: Imports, plan: seq<Worker>, now: seq<Worker>, cap: nat, overhead: nat,
    chunks: seq<Chunk>, events: seq<ReviewRun.Event>, k: nat, i: nat)
    requires ValidInput(files, imports) && SameContexts(plan, now) && AllFree(now)
    requires IsPlan(files, imports, ChunkBudget(plan, cap, overhead), chunks)
    requires k <= |events| && ReviewRun.Run(ChunkTasks(chunks, overhead), events, k).Some?
    requires i < |chunks| && !Oversized(chunks[i], ChunkBudget(plan, cap, overhead))
    requires var tasks := ReviewRun.Run(ChunkTasks(chunks, overhead), events, k).value;
             i < |tasks| && tasks[i].state == ReviewRun.Waiting && ReviewRun.NothingRuns(tasks)
    ensures var tasks := ReviewRun.Run(ChunkTasks(chunks, overhead), events, k).value;
            var need := ReviewOf(chunks[i], overhead, i + 1);
            && tasks[i].Need(i + 1) == need
            && (exists w :: w in now && HasRoom(need, w))
            && (Doable(need, now) <==> exists w :: w in now && HasRoom(need, w) && IsFastEnough(need, w))
            && (Doable(need, now) ==> ReviewRun.PicksOf(tasks, now) != [])
  {
    hide ReviewRun.Run, ReviewRun.PicksOf, IsPlan, HasRoom, IsFastEnough, Doable;
    var tasks := ReviewRun.Run(ChunkTasks(chunks, overhead), events, k).value;
    ReviewRun.NeedsStay(ChunkTasks(chunks, overhead), events, k, i);
    assert chunks[i] in chunks;
    PlannedReviewHasRoom(files, imports, plan, now, cap, overhead, chunks, chunks[i], i + 1);
    DoableIffRoomAndSpeed(ReviewOf(chunks[i], overhead, i + 1), now);
    if Doable(ReviewOf(chunks[i], overhead, i + 1), now) {
      ReviewRun.FreeRoundHandsOut(tasks, now, i);
    }
  }

  /** Whatever is handed out leaves the machine room for its answer. */
  lemma HandedOutFitsContext(pending: seq<TaskNeed>, workers: seq<Worker>, occupied: set<string>, pick: Pick)
    requires pick in AssignTo(pending, workers, occupied, |pending|).picks
    ensures exists t: nat, w ::
              && Behind(pending, workers, occupied, pick, t, w)
              && (pending[t].tokens > 0 ==> pending[t].tokens + OUTPUT_RESERVE <= w.ctxTokens)
  {
    AssignIsSafe(pending, workers, occupied, |pending|);
    assert KeepsRules(pending, workers, occupied, |pending|, pick);
    var t: nat, w :| t < |pending| && Behind(pending, workers, occupied, pick, t, w);
    if pending[t].tokens > 0 {
      CapacityLeavesRoom(w, pending[t].kind, pending[t].tokens);
    }
  }
}
