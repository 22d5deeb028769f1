/** Pairing waiting tasks with free machines: assign.rs. */
module Assign {
  import opened Wrappers
  import opened Text

  datatype Worker = Worker(
    nodeId: string, hostname: string, model: string, ctxTokens: nat, busy: bool, resting: bool,
    promptTps: Option<real>)

  datatype TaskKind = Review | Verify

  datatype TaskNeed = TaskNeed(id: nat, kind: TaskKind, tokens: nat, avoidModel: Option<string>, preferLarge: bool)

  datatype Pick = Pick(task: nat, node: string)

  /** Tokens kept free for the answer. */
  const OUTPUT_RESERVE: nat := 4096

  function MaxReadSecs(kind: TaskKind): (secs: real) {
    match kind
    case Review => 900.0
    case Verify => 180.0
  }

  function SaturatingSub(a: nat, b: nat): (d: nat) {
    if a >= b then a - b else 0
  }

  function Min(a: nat, b: nat): (m: nat) {
    if a <= b then a else b
  }

  /** The largest prompt a machine should be given for a task of this kind. */
  function Capacity(w: Worker, kind: TaskKind): (tokens: nat) {
    var byCtx := SaturatingSub(w.ctxTokens * 9 / 10, OUTPUT_RESERVE);
    match w.promptTps
    case Some(tps) => if tps > 0.0 then Min(byCtx, (tps * MaxReadSecs(kind)).Floor) else byCtx
    case None => byCtx
  }

  /** A prompt the capacity admits leaves room for the answer in the machine's context. */
  lemma CapacityLeavesRoom(w: Worker, kind: TaskKind, tokens: nat)
    requires 0 < tokens <= Capacity(w, kind)
    ensures tokens + OUTPUT_RESERVE <= w.ctxTokens
  {
  }

  /** The biggest review capacity among the first `k` machines. */
  function MaxCapacity(workers: seq<Worker>, k: nat): (tokens: nat)
    requires k <= |workers|
  {
    if k == 0 then 0
    else
      var before, last := MaxCapacity(workers, k - 1), Capacity(workers[k - 1], Review);
      if last >= before then last else before
  }

  function ReviewBudget(workers: seq<Worker>, cap: nat): (budget: nat) {
    Min(MaxCapacity(workers, |workers|), cap)
  }

  lemma {:induction false} MaxCapacityIsReached(workers: seq<Worker>, k: nat)
    requires k <= |workers|
    ensures forall i :: 0 <= i < k ==> Capacity(workers[i], Review) <= MaxCapacity(workers, k)
    ensures MaxCapacity(workers, k) > 0 ==>
             exists i :: 0 <= i < k && Capacity(workers[i], Review) == MaxCapacity(workers, k)
  {
    if k > 0 {
      MaxCapacityIsReached(workers, k - 1);
    }
  }

  // ---------- choosing a machine for one task ----------

  /** The order machines are compared by: capacity, then node id. */
  predicate KeyLess(kind: TaskKind, a: Worker, b: Worker) {
    || Capacity(a, kind) < Capacity(b, kind)
    || (Capacity(a, kind) == Capacity(b, kind) && Less(a.nodeId, b.nodeId))
  }

  predicate Free(w: Worker, taken: set<string>) {
    !w.busy && !w.resting && w.nodeId !in taken
  }

  predicate Fits(task: TaskNeed, w: Worker) {
    Capacity(w, task.kind) >= task.tokens
  }

  predicate OtherModel(task: TaskNeed, w: Worker) {
    task.avoidModel != Some(w.model)
  }

  predicate DifferentModelExists(task: TaskNeed, workers: seq<Worker>) {
    exists i :: 0 <= i < |workers| && Fits(task, workers[i]) && OtherModel(task, workers[i])
  }

  /** For a check: fits, and is of another model whenever a fitting machine of another model exists. */
  predicate Suitable(task: TaskNeed, workers: seq<Worker>, w: Worker) {
    Fits(task, w) && (DifferentModelExists(task, workers) ==> OtherModel(task, w))
  }

  /** `filter(ok).max_by_key`: the last of the largest, among the first `k`. */
  function Largest(kind: TaskKind, workers: seq<Worker>, k: nat, ok: Worker -> bool): (best: Option<Worker>)
    requires k <= |workers|
  {
    if k == 0 then None
    else
      var best, w := Largest(kind, workers, k - 1, ok), workers[k - 1];
      if ok(w) && (best.None? || !KeyLess(kind, w, best.value)) then Some(w) else best
  }

  /** `filter(ok).min_by_key`: the first of the smallest, among the first `k`. */
  function Smallest(kind: TaskKind, workers: seq<Worker>, k: nat, ok: Worker -> bool): (best: Option<Worker>)
    requires k <= |workers|
  {
    if k == 0 then None
    else
      var best, w := Smallest(kind, workers, k - 1, ok), workers[k - 1];
      if ok(w) && (best.None? || KeyLess(kind, w, best.value)) then Some(w) else best
  }

  function Choice(task: TaskNeed, workers: seq<Worker>, taken: set<string>): (choice: Option<Worker>) {
    match task.kind
    case Review =>
      Largest(Review, workers, |workers|, (w: Worker) => Free(w, taken) && Fits(task, w))
    case Verify =>
      if task.preferLarge then
        var best := Largest(Verify, workers, |workers|, (w: Worker) => Suitable(task, workers, w));
        if best.Some? && Free(best.value, taken) then best else None
      else
        Smallest(Verify, workers, |workers|, (w: Worker) => Suitable(task, workers, w) && Free(w, taken))
  }

  lemma KeyLessIsTransitive(kind: TaskKind, a: Worker, b: Worker, c: Worker)
    requires KeyLess(kind, a, b) && KeyLess(kind, b, c)
    ensures KeyLess(kind, a, c)
  {
    if Less(a.nodeId, b.nodeId) && Less(b.nodeId, c.nodeId) {
      LessIsTransitive(a.nodeId, b.nodeId, c.nodeId);
    }
  }

  lemma KeyLessIsTotal(kind: TaskKind, a: Worker, b: Worker)
    ensures !(KeyLess(kind, a, b) && KeyLess(kind, b, a))
    ensures || KeyLess(kind, a, b)
            || KeyLess(kind, b, a)
            || (Capacity(a, kind) == Capacity(b, kind) && a.nodeId == b.nodeId)
  {
    LessIsTotal(a.nodeId, b.nodeId);
  }

  ghost predicate IsLargest(kind: TaskKind, workers: seq<Worker>, k: nat, ok: Worker -> bool, best: Option<Worker>)
    requires k <= |workers|
  {
    && (best.None? <==> forall i :: 0 <= i < k ==> !ok(workers[i]))
    && (best.Some? ==> ok(best.value) && best.value in workers[..k])
    && (best.Some? ==> forall i :: 0 <= i < k && ok(workers[i]) ==> !KeyLess(kind, best.value, workers[i]))
  }

  ghost predicate IsSmallest(kind: TaskKind, workers: seq<Worker>, k: nat, ok: Worker -> bool, best: Option<Worker>)
    requires k <= |workers|
  {
    && (best.None? <==> forall i :: 0 <= i < k ==> !ok(workers[i]))
    && (best.Some? ==> ok(best.value) && best.value in workers[..k])
    && (best.Some? ==> forall i :: 0 <= i < k && ok(workers[i]) ==> !KeyLess(kind, workers[i], best.value))
  }

  lemma {:induction false} LargestIsLargest(kind: TaskKind, workers: seq<Worker>, k: nat, ok: Worker -> bool)
    requires k <= |workers|
    ensures IsLargest(kind, workers, k, ok, Largest(kind, workers, k, ok))
  {
    if k > 0 {
      LargestIsLargest(kind, workers, k - 1, ok);
      var before, w := Largest(kind, workers, k - 1, ok), workers[k - 1];
      assert workers[..k] == workers[..k - 1] + [w];
      KeyLessIsTotal(kind, w, w);
      if ok(w) && before.Some? {
        KeyLessIsTotal(kind, w, before.value);
        forall i | 0 <= i < k - 1 && ok(workers[i]) && !KeyLess(kind, w, before.value)
          ensures !KeyLess(kind, w, workers[i])
        {
          SameRank(kind, before.value, w, workers[i]);
        }
      }
    }
  }

  /** What is not below the old best is not above anything the old best is not above. */
  lemma SameRank(kind: TaskKind, best: Worker, w: Worker, other: Worker)
    requires !KeyLess(kind, w, best) && !KeyLess(kind, best, other)
    ensures !KeyLess(kind, w, other)
  {
    KeyLessIsTotal(kind, w, best);
    if KeyLess(kind, w, other) && KeyLess(kind, best, w) {
      KeyLessIsTransitive(kind, best, w, other);
    }
  }

  lemma {:induction false} SmallestIsSmallest(kind: TaskKind, workers: seq<Worker>, k: nat, ok: Worker -> bool)
    requires k <= |workers|
    ensures IsSmallest(kind, workers, k, ok, Smallest(kind, workers, k, ok))
  {
    if k > 0 {
      SmallestIsSmallest(kind, workers, k - 1, ok);
      var before, w := Smallest(kind, workers, k - 1, ok), workers[k - 1];
      assert workers[..k] == workers[..k - 1] + [w];
      KeyLessIsTotal(kind, w, w);
      if ok(w) && before.Some? && KeyLess(kind, w, before.value) {
        forall i | 0 <= i < k - 1 && ok(workers[i])
          ensures !KeyLess(kind, workers[i], w)
        {
          if KeyLess(kind, workers[i], w) {
            KeyLessIsTransitive(kind, workers[i], w, before.value);
          }
        }
      }
    }
  }

  /** The rules every handed-out task keeps. */
  ghost predicate Allowed(task: TaskNeed, workers: seq<Worker>, taken: set<string>, w: Worker) {
    && w in workers && Free(w, taken) && Fits(task, w)
    && (task.kind == Verify && DifferentModelExists(task, workers) ==> OtherModel(task, w))
  }

  /** `max_by_key` keeps the last of the largest. */
  lemma {:induction false} LargestIsLast(
    kind: TaskKind, workers: seq<Worker>, k: nat, ok: Worker -> bool)
    returns (i: nat)
    requires k <= |workers| && Largest(kind, workers, k, ok).Some?
    ensures i < k && Largest(kind, workers, k, ok) == Some(workers[i]) && ok(workers[i])
    ensures forall j :: 0 <= j < k && ok(workers[j]) ==>
                          !KeyLess(kind, workers[i], workers[j]) && (j > i ==> KeyLess(kind, workers[j], workers[i]))
  {
    hide KeyLess;
    var before, w := Largest(kind, workers, k - 1, ok), workers[k - 1];
    LargestIsLargest(kind, workers, k, ok);
    if ok(w) && (before.None? || !KeyLess(kind, w, before.value)) {
      i := k - 1;
    } else {
      i := LargestIsLast(kind, workers, k - 1, ok);
    }
  }

  /** The machine a check that prefers large waits for: suitable, as large as any, the last of its rank. */
  ghost predicate IsAwaited(task: TaskNeed, workers: seq<Worker>, i: nat) {
    && i < |workers| && Suitable(task, workers, workers[i])
    && forall j :: 0 <= j < |workers| && Suitable(task, workers, workers[j]) ==>
                     !KeyLess(Verify, workers[i], workers[j]) && (j > i ==> KeyLess(Verify, workers[j], workers[i]))
  }

  lemma LargeCheckWaitsForOne(task: TaskNeed, workers: seq<Worker>, taken: set<string>)
    requires task.kind == Verify && task.preferLarge
    ensures var choice := Choice(task, workers, taken);
            && (choice.None? <==>
                  || (forall i :: 0 <= i < |workers| ==> !Suitable(task, workers, workers[i]))
                  || (exists i: nat :: IsAwaited(task, workers, i) && !Free(workers[i], taken)))
            && (choice.Some? ==> exists i: nat :: IsAwaited(task, workers, i) && choice.value == workers[i])
  {
    hide KeyLess, Suitable;
    var ok := (w: Worker) => Suitable(task, workers, w);
    LargestIsLargest(Verify, workers, |workers|, ok);
    var best := Largest(Verify, workers, |workers|, ok);
    if best.Some? {
      var i := LargestIsLast(Verify, workers, |workers|, ok);
      assert IsAwaited(task, workers, i);
      forall j: nat | IsAwaited(task, workers, j)
        ensures j == i
      {
        assert Suitable(task, workers, workers[i]) && Suitable(task, workers, workers[j]);
      }
    }
  }

  /**
   * A choice keeps the rules. A review takes the largest machine allowed and a check the smallest, and either waits
   * only if none is allowed. A check that prefers large takes the largest suitable machine or waits for it: it goes
   * without exactly if no machine is suitable or the machine it waits for is not free.
   */
  lemma ChoiceIsRight(task: TaskNeed, workers: seq<Worker>, taken: set<string>)
    ensures var choice := Choice(task, workers, taken);
            && (choice.Some? ==> Allowed(task, workers, taken, choice.value))
            && (task.kind == Review ==>
                  && (choice.None? <==> forall w :: w in workers ==> !Allowed(task, workers, taken, w))
                  && (choice.Some? ==>
                        forall w :: Allowed(task, workers, taken, w) ==> !KeyLess(Review, choice.value, w)))
            && (task.kind == Verify && !task.preferLarge ==>
                  && (choice.None? <==> forall w :: w in workers ==> !Allowed(task, workers, taken, w))
                  && (choice.Some? ==>
                        forall w :: Allowed(task, workers, taken, w) ==> !KeyLess(Verify, w, choice.value)))
            && (task.kind == Verify && task.preferLarge ==>
                  && (choice.None? <==>
                        || (forall i :: 0 <= i < |workers| ==> !Suitable(task, workers, workers[i]))
                        || (exists i: nat :: IsAwaited(task, workers, i) && !Free(workers[i], taken)))
                  && (choice.Some? ==> exists i: nat :: IsAwaited(task, workers, i) && choice.value == workers[i]))
  {
    hide IsAwaited, KeyLess;
    if task.kind == Verify && task.preferLarge {
      LargeCheckWaitsForOne(task, workers, taken);
    }
    LargestIsLargest(Review, workers, |workers|, (w: Worker) => Free(w, taken) && Fits(task, w));
    LargestIsLargest(Verify, workers, |workers|, (w: Worker) => Suitable(task, workers, w));
    SmallestIsSmallest(Verify, workers, |workers|, (w: Worker) => Suitable(task, workers, w) && Free(w, taken));
    assert workers[..|workers|] == workers;
  }

  // ---------- one round ----------

  /** What is taken and handed out once the first `k` tasks had their turn. */
  datatype Round = Round(taken: set<string>, picks: seq<Pick>)

  function AssignTo(pending: seq<TaskNeed>, workers: seq<Worker>, occupied: set<string>, k: nat): (round: Round)
    requires k <= |pending|
  {
    if k == 0 then Round(occupied, [])
    else
      var before := AssignTo(pending, workers, occupied, k - 1);
      match Choice(pending[k - 1], workers, before.taken)
      case None => before
      case Some(w) => Round(before.taken + {w.nodeId}, before.picks + [Pick(pending[k - 1].id, w.nodeId)])
  }

  method Assign(pending: seq<TaskNeed>, workers: seq<Worker>, occupied: set<string>) returns (out: seq<Pick>)
    ensures out == AssignTo(pending, workers, occupied, |pending|).picks
  {
    var taken := occupied;
    out := [];
    for k := 0 to |pending|
      invariant Round(taken, out) == AssignTo(pending, workers, occupied, k)
    {
      var choice := Choice(pending[k], workers, taken);
      if choice.Some? {
        taken := taken + {choice.value.nodeId};
        out := out + [Pick(pending[k].id, choice.value.nodeId)];
      }
    }
  }

  /** The task and machine behind a pick. */
  ghost predicate Behind(
    pending: seq<TaskNeed>, workers: seq<Worker>, occupied: set<string>, pick: Pick, t: nat, w: Worker)
  {
    && t < |pending| && pending[t].id == pick.task && w.nodeId == pick.node
    && Allowed(pending[t], workers, occupied, w)
  }

  ghost predicate KeepsRules(pending: seq<TaskNeed>, workers: seq<Worker>, occupied: set<string>, k: nat, pick: Pick) {
    exists t: nat, w :: t < k && Behind(pending, workers, occupied, pick, t, w)
  }

  /** No machine is handed out twice, and every pick keeps the rules. */
  lemma {:induction false} AssignIsSafe(pending: seq<TaskNeed>, workers: seq<Worker>, occupied: set<string>, k: nat)
    requires k <= |pending|
    ensures var round := AssignTo(pending, workers, occupied, k);
            && round.taken == occupied + (set p | p in round.picks :: p.node)
            && (forall i, j :: 0 <= i < j < |round.picks| ==> round.picks[i].node != round.picks[j].node)
            && (forall pick :: pick in round.picks ==> KeepsRules(pending, workers, occupied, k, pick))
  {
    if k > 0 {
      AssignIsSafe(pending, workers, occupied, k - 1);
      var before, after := AssignTo(pending, workers, occupied, k - 1), AssignTo(pending, workers, occupied, k);
      ChoiceIsRight(pending[k - 1], workers, before.taken);
      var choice := Choice(pending[k - 1], workers, before.taken);
      if choice.Some? {
        var pick := Pick(pending[k - 1].id, choice.value.nodeId);
        assert Behind(pending, workers, occupied, pick, k - 1, choice.value);
        assert after.picks == before.picks + [pick];
        assert forall p :: p in after.picks <==> p in before.picks || p == pick;
      }
      forall pick | pick in before.picks
        ensures KeepsRules(pending, workers, occupied, k, pick)
      {
        var t: nat, w :| t < k - 1 && Behind(pending, workers, occupied, pick, t, w);
      }
    }
  }

  ghost predicate DistinctIds(pending: seq<TaskNeed>) {
    forall i, j :: 0 <= i < j < |pending| ==> pending[i].id != pending[j].id
  }

  ghost predicate IdAmong(pending: seq<TaskNeed>, k: nat, id: nat)
    requires k <= |pending|
  {
    exists t :: 0 <= t < k && pending[t].id == id
  }

  ghost predicate OncePerTask(picks: seq<Pick>) {
    forall i, j :: 0 <= i < j < |picks| ==> picks[i].task != picks[j].task
  }

  /** A task gets at most one machine. */
  lemma {:induction false} EachTaskOnce(pending: seq<TaskNeed>, workers: seq<Worker>, occupied: set<string>, k: nat)
    requires k <= |pending| && DistinctIds(pending)
    ensures forall pick :: pick in AssignTo(pending, workers, occupied, k).picks ==> IdAmong(pending, k, pick.task)
    ensures OncePerTask(AssignTo(pending, workers, occupied, k).picks)
  {
    if k > 0 {
      EachTaskOnce(pending, workers, occupied, k - 1);
      var before, id := AssignTo(pending, workers, occupied, k - 1).picks, pending[k - 1].id;
      forall pick | pick in before
        ensures pick.task != id && IdAmong(pending, k, pick.task)
      {
        assert IdAmong(pending, k - 1, pick.task);
      }
      assert IdAmong(pending, k, id);
      forall i | 0 <= i < |before|
        ensures before[i].task != id
      {
        assert before[i] in before;
      }
    }
  }

  lemma {:induction false} TakenGrows(
    pending: seq<TaskNeed>, workers: seq<Worker>, occupied: set<string>, j: nat, k: nat)
    requires j <= k <= |pending|
    ensures AssignTo(pending, workers, occupied, j).taken <= AssignTo(pending, workers, occupied, k).taken
    ensures AssignTo(pending, workers, occupied, j).picks <= AssignTo(pending, workers, occupied, k).picks
    decreases k - j
  {
    if j < k {
      TakenGrows(pending, workers, occupied, j, k - 1);
    }
  }

  /**
   * A review or an ordinary check is left waiting only when no allowed machine is free even at the end of the round;
   * a check that prefers large, when the machine it waits for is not.
   */
  lemma WaitsOnlyWhenNothingIsFree(pending: seq<TaskNeed>, workers: seq<Worker>, occupied: set<string>, t: nat)
    requires t < |pending|
    requires Choice(pending[t], workers, AssignTo(pending, workers, occupied, t).taken).None?
    ensures var task, taken := pending[t], AssignTo(pending, workers, occupied, |pending|).taken;
            if task.kind == Verify && task.preferLarge
            then forall i: nat :: IsAwaited(task, workers, i) ==> !Free(workers[i], taken)
            else forall w :: !Allowed(task, workers, taken, w)
  {
    var task, taken := pending[t], AssignTo(pending, workers, occupied, t).taken;
    ChoiceIsRight(task, workers, taken);
    TakenGrows(pending, workers, occupied, t, |pending|);
    if task.kind == Verify && task.preferLarge {
      forall i: nat, j: nat | IsAwaited(task, workers, i) && IsAwaited(task, workers, j)
        ensures i == j
      {
        OneIsAwaited(task, workers, i, j);
      }
    }
  }

  lemma OneIsAwaited(task: TaskNeed, workers: seq<Worker>, i: nat, j: nat)
    requires IsAwaited(task, workers, i) && IsAwaited(task, workers, j)
    ensures i == j
  {
  }

  // ---------- repeated rounds ----------

  /** Some machine could take it, were it free. */
  predicate Doable(task: TaskNeed, workers: seq<Worker>) {
    exists i :: 0 <= i < |workers| && Fits(task, workers[i])
  }

  predicate Picked(picks: seq<Pick>, id: nat) {
    exists i :: 0 <= i < |picks| && picks[i].task == id
  }

  /** The tasks, among the first `k`, that were not handed out. */
  function Waiting(pending: seq<TaskNeed>, picks: seq<Pick>, k: nat): (rest: seq<TaskNeed>)
    requires k <= |pending|
  {
    if k == 0 then []
    else Waiting(pending, picks, k - 1) + if Picked(picks, pending[k - 1].id) then [] else [pending[k - 1]]
  }

  function DoableCount(pending: seq<TaskNeed>, workers: seq<Worker>, k: nat): (count: nat)
    requires k <= |pending|
    ensures count <= k
  {
    if k == 0 then 0 else DoableCount(pending, workers, k - 1) + if Doable(pending[k - 1], workers) then 1 else 0
  }

  /** What still waits after some rounds in which every machine came back free. */
  function AfterRounds(pending: seq<TaskNeed>, workers: seq<Worker>, rounds: nat): (rest: seq<TaskNeed>) {
    if rounds == 0 then pending
    else
      var rest := AfterRounds(pending, workers, rounds - 1);
      Waiting(rest, AssignTo(rest, workers, {}, |rest|).picks, |rest|)
  }

  ghost predicate AllFree(workers: seq<Worker>) {
    forall w :: w in workers ==> !w.busy && !w.resting
  }

  /** With every machine free and none taken yet, a task gets a machine exactly when one can hold it. */
  lemma DoableIsChosen(task: TaskNeed, workers: seq<Worker>)
    requires AllFree(workers)
    ensures Choice(task, workers, {}).Some? <==> Doable(task, workers)
  {
    ChoiceIsRight(task, workers, {});
    if Choice(task, workers, {}).Some? {
      var i :| 0 <= i < |workers| && workers[i] == Choice(task, workers, {}).value;
      assert Fits(task, workers[i]);
    }
    if Doable(task, workers) {
      var i :| 0 <= i < |workers| && Fits(task, workers[i])
               && (DifferentModelExists(task, workers) ==> OtherModel(task, workers[i]));
      assert Suitable(task, workers, workers[i]);
      if task.kind == Verify && task.preferLarge {
        LargestIsLargest(Verify, workers, |workers|, (w: Worker) => Suitable(task, workers, w));
      } else {
        assert Allowed(task, workers, {}, workers[i]);
      }
    }
  }

  lemma {:induction false} NothingTakenBeforeFirst(pending: seq<TaskNeed>, workers: seq<Worker>, k: nat)
    requires k <= |pending| && AllFree(workers)
    requires forall i :: 0 <= i < k ==> !Doable(pending[i], workers)
    ensures AssignTo(pending, workers, {}, k) == Round({}, [])
  {
    if k > 0 {
      NothingTakenBeforeFirst(pending, workers, k - 1);
      DoableIsChosen(pending[k - 1], workers);
    }
  }

  /** A round with a doable task hands out the first of them. */
  lemma FirstDoableIsPicked(pending: seq<TaskNeed>, workers: seq<Worker>, f: nat)
    requires AllFree(workers) && f < |pending| && Doable(pending[f], workers)
    requires forall i :: 0 <= i < f ==> !Doable(pending[i], workers)
    ensures Picked(AssignTo(pending, workers, {}, |pending|).picks, pending[f].id)
  {
    hide Choice, Doable;
    NothingTakenBeforeFirst(pending, workers, f);
    DoableIsChosen(pending[f], workers);
    var after := AssignTo(pending, workers, {}, f + 1).picks;
    assert after[0].task == pending[f].id;
    TakenGrows(pending, workers, {}, f + 1, |pending|);
    assert AssignTo(pending, workers, {}, |pending|).picks[0] == after[0];
  }

  lemma {:induction false} FirstDoable(pending: seq<TaskNeed>, workers: seq<Worker>, k: nat) returns (f: nat)
    requires k <= |pending| && DoableCount(pending, workers, k) > 0
    ensures f < k && Doable(pending[f], workers) && forall i :: 0 <= i < f ==> !Doable(pending[i], workers)
  {
    if DoableCount(pending, workers, k - 1) > 0 {
      f := FirstDoable(pending, workers, k - 1);
    } else {
      f := k - 1;
      NoneDoable(pending, workers, k - 1);
    }
  }

  lemma {:induction false} NoneDoable(pending: seq<TaskNeed>, workers: seq<Worker>, k: nat)
    requires k <= |pending| && DoableCount(pending, workers, k) == 0
    ensures forall i :: 0 <= i < k ==> !Doable(pending[i], workers)
  {
    if k > 0 {
      NoneDoable(pending, workers, k - 1);
    }
  }

  lemma {:induction false} CountOfPrefix(a: seq<TaskNeed>, b: seq<TaskNeed>, workers: seq<Worker>, k: nat)
    requires k <= |a| && k <= |b| && forall i :: 0 <= i < k ==> a[i] == b[i]
    ensures DoableCount(a, workers, k) == DoableCount(b, workers, k)
  {
    if k > 0 {
      CountOfPrefix(a, b, workers, k - 1);
    }
  }

  function WaitingDoable(pending: seq<TaskNeed>, picks: seq<Pick>, workers: seq<Worker>, k: nat): (count: nat)
    requires k <= |pending|
  {
    DoableCount(Waiting(pending, picks, k), workers, |Waiting(pending, picks, k)|)
  }

  /** What waits was there before; what was handed out no longer waits; and a doable pick is one doable task less. */
  lemma {:induction false} WaitingExactly(pending: seq<TaskNeed>, picks: seq<Pick>, workers: seq<Worker>, k: nat)
    requires k <= |pending|
    ensures forall task :: task in Waiting(pending, picks, k) <==> task in pending[..k] && !Picked(picks, task.id)
    ensures forall f :: 0 <= f < k && Doable(pending[f], workers) && Picked(picks, pending[f].id) ==>
                          WaitingDoable(pending, picks, workers, k) < DoableCount(pending, workers, k)
    ensures WaitingDoable(pending, picks, workers, k) <= DoableCount(pending, workers, k)
  {
    if k > 0 {
      WaitingExactly(pending, picks, workers, k - 1);
      var before, last := Waiting(pending, picks, k - 1), pending[k - 1];
      assert pending[..k] == pending[..k - 1] + [last];
      if Picked(picks, last.id) {
        assert before + [] == before;
      } else {
        CountOfPrefix(before, before + [last], workers, |before|);
      }
    }
  }

  lemma RoundMakesProgress(pending: seq<TaskNeed>, workers: seq<Worker>)
    requires AllFree(workers)
    ensures var rest := Waiting(pending, AssignTo(pending, workers, {}, |pending|).picks, |pending|);
            DoableCount(rest, workers, |rest|) <= SaturatingSub(DoableCount(pending, workers, |pending|), 1)
  {
    WaitingExactly(pending, AssignTo(pending, workers, {}, |pending|).picks, workers, |pending|);
    if DoableCount(pending, workers, |pending|) > 0 {
      var f := FirstDoable(pending, workers, |pending|);
      FirstDoableIsPicked(pending, workers, f);
    }
  }

  lemma {:induction false} RoundsCountDown(pending: seq<TaskNeed>, workers: seq<Worker>, rounds: nat)
    requires AllFree(workers)
    ensures var rest := AfterRounds(pending, workers, rounds);
            && DoableCount(rest, workers, |rest|) <= SaturatingSub(DoableCount(pending, workers, |pending|), rounds)
            && forall task :: task in rest ==> task in pending
  {
    hide AssignTo, Doable, DoableCount, Waiting;
    if rounds > 0 {
      RoundsCountDown(pending, workers, rounds - 1);
      var rest := AfterRounds(pending, workers, rounds - 1);
      RoundMakesProgress(rest, workers);
      WaitingExactly(rest, AssignTo(rest, workers, {}, |rest|).picks, workers, |rest|);
      assert rest[..|rest|] == rest;
    }
  }

  /** As many rounds as there are doable tasks hand out every one of them. */
  lemma RoundsClearEveryDoableTask(pending: seq<TaskNeed>, workers: seq<Worker>, rounds: nat)
    requires AllFree(workers) && rounds >= DoableCount(pending, workers, |pending|)
    ensures forall task :: task in AfterRounds(pending, workers, rounds) ==> task in pending && !Doable(task, workers)
  {
    RoundsCountDown(pending, workers, rounds);
    var rest := AfterRounds(pending, workers, rounds);
    NoneDoable(rest, workers, |rest|);
  }

  // ---------- rounds with machines that change ----------

  /** A machine's context has room for the prompt and the answer. */
  predicate HasRoom(task: TaskNeed, w: Worker) {
    task.tokens == 0 || task.tokens <= SaturatingSub(w.ctxTokens * 9 / 10, OUTPUT_RESERVE)
  }

  /** A machine's measured speed, if it has one, reads the prompt in the time there is. */
  predicate IsFastEnough(task: TaskNeed, w: Worker) {
    w.promptTps.None? || w.promptTps.value <= 0.0 || (w.promptTps.value * MaxReadSecs(task.kind)).Floor >= task.tokens
  }

  /** What a caller can check: a task fits a machine exactly if there is room for it and time to read it. */
  lemma FitsIffRoomAndSpeed(task: TaskNeed, w: Worker)
    ensures Fits(task, w) <==> HasRoom(task, w) && IsFastEnough(task, w)
  {
  }

  lemma DoableIffRoomAndSpeed(task: TaskNeed, workers: seq<Worker>)
    ensures Doable(task, workers) <==> exists w :: w in workers && HasRoom(task, w) && IsFastEnough(task, w)
  {
    hide HasRoom, IsFastEnough, Fits;
    if i :| 0 <= i < |workers| && Fits(task, workers[i]) {
      FitsIffRoomAndSpeed(task, workers[i]);
    }
    if w :| w in workers && HasRoom(task, w) && IsFastEnough(task, w) {
      FitsIffRoomAndSpeed(task, w);
      var i :| 0 <= i < |workers| && workers[i] == w;
    }
  }

  /** What still waits after rounds whose machines may differ: `snapshots[r]` is what round `r` sees. */
  function AfterSnapshots(pending: seq<TaskNeed>, snapshots: seq<seq<Worker>>, k: nat): (rest: seq<TaskNeed>)
    requires k <= |snapshots|
  {
    if k == 0 then pending
    else
      var rest := AfterSnapshots(pending, snapshots, k - 1);
      Waiting(rest, AssignTo(rest, snapshots[k - 1], {}, |rest|).picks, |rest|)
  }

  lemma {:induction false} WaitingShrinks(pending: seq<TaskNeed>, picks: seq<Pick>, k: nat)
    requires k <= |pending|
    ensures |Waiting(pending, picks, k)| <= k
    ensures (exists i :: 0 <= i < k && Picked(picks, pending[i].id)) ==> |Waiting(pending, picks, k)| < k
    ensures forall task :: task in Waiting(pending, picks, k) ==> task in pending
  {
    hide Picked;
    if k > 0 {
      WaitingShrinks(pending, picks, k - 1);
    }
  }

  /** Each round takes something off, or leaves nothing behind that its machines could do. */
  lemma RoundShrinks(pending: seq<TaskNeed>, workers: seq<Worker>)
    requires AllFree(workers)
    ensures var rest := Waiting(pending, AssignTo(pending, workers, {}, |pending|).picks, |pending|);
            && (forall task :: task in rest ==> task in pending)
            && |rest| <= |pending|
            && (|rest| == |pending| ==> forall task :: task in pending ==> !Doable(task, workers))
  {
    hide AssignTo, Doable, DoableCount, Waiting, Picked;
    var picks := AssignTo(pending, workers, {}, |pending|).picks;
    WaitingShrinks(pending, picks, |pending|);
    if DoableCount(pending, workers, |pending|) > 0 {
      var f := FirstDoable(pending, workers, |pending|);
      FirstDoableIsPicked(pending, workers, f);
    } else {
      NoneDoable(pending, workers, |pending|);
    }
  }

  /**
   * After some rounds, whatever they saw: there is one task less a round, or what is left was once too much for all.
   */
  lemma {:induction false} SnapshotsCountDown(pending: seq<TaskNeed>, snapshots: seq<seq<Worker>>, k: nat)
    requires k <= |snapshots| && forall r :: 0 <= r < |snapshots| ==> AllFree(snapshots[r])
    ensures var rest := AfterSnapshots(pending, snapshots, k);
            && (forall task :: task in rest ==> task in pending)
            && (|rest| + k <= |pending|
                || forall task :: task in rest ==> exists r :: 0 <= r < k && !Doable(task, snapshots[r]))
  {
    hide AssignTo, Doable, Waiting, AllFree;
    if k > 0 {
      SnapshotsCountDown(pending, snapshots, k - 1);
      var before := AfterSnapshots(pending, snapshots, k - 1);
      RoundShrinks(before, snapshots[k - 1]);
      var rest := AfterSnapshots(pending, snapshots, k);
      if |rest| + k > |pending| {
        forall task | task in rest
          ensures exists r :: 0 <= r < k && !Doable(task, snapshots[r])
        {
          assert task in before;
          if |rest| == |before| && |before| + (k - 1) <= |pending| {
            assert !Doable(task, snapshots[k - 1]);
          } else {
            var r :| 0 <= r < k - 1 && !Doable(task, snapshots[r]);
          }
        }
      }
    }
  }

  /**
   * Whatever changes between rounds: as many rounds of free machines as there are tasks hand out every task that each
   * round had a machine for.
   */
  lemma ChangingRoundsClear(pending: seq<TaskNeed>, snapshots: seq<seq<Worker>>)
    requires |snapshots| >= |pending| && forall r :: 0 <= r < |snapshots| ==> AllFree(snapshots[r])
    ensures forall task :: task in AfterSnapshots(pending, snapshots, |snapshots|) ==>
                             task in pending && exists r :: 0 <= r < |snapshots| && !Doable(task, snapshots[r])
  {
    hide AfterSnapshots, Doable;
    SnapshotsCountDown(pending, snapshots, |snapshots|);
  }

  // ---------- the rules in numbers and fields ----------

  /** Room beside 4096 tokens for the answer in nine tenths of the context, and 15 minutes to read, or 3 for a check. */
  predicate CanHold(task: TaskNeed, w: Worker) {
    || task.tokens == 0
    || (&& task.tokens + 4096 <= w.ctxTokens * 9 / 10
        && (|| w.promptTps.None?
            || w.promptTps.value <= 0.0
            || (w.promptTps.value * (if task.kind == Review then 900.0 else 180.0)).Floor >= task.tokens))
  }

  lemma FitsIffCanHold(task: TaskNeed, w: Worker)
    ensures Fits(task, w) <==> CanHold(task, w)
  {
  }

  /** For a check: not the model to avoid, unless every machine that can hold it runs that one. */
  ghost predicate MayCheck(task: TaskNeed, workers: seq<Worker>, w: Worker) {
    task.kind == Verify && task.avoidModel == Some(w.model) ==>
      forall v :: v in workers && CanHold(task, v) ==> task.avoidModel == Some(v.model)
  }

  lemma SuitableIffMayCheck(task: TaskNeed, workers: seq<Worker>, w: Worker)
    requires task.kind == Verify
    ensures Suitable(task, workers, w) <==> CanHold(task, w) && MayCheck(task, workers, w)
  {
    hide CanHold, Fits;
    forall v: Worker
      ensures Fits(task, v) <==> CanHold(task, v)
    {
      FitsIffCanHold(task, v);
    }
    if v :| v in workers && CanHold(task, v) && task.avoidModel != Some(v.model) {
      var i :| 0 <= i < |workers| && workers[i] == v;
    }
  }

  /** Idle, rested, given to nobody, with room for the task, and of a model that may do it. */
  ghost predicate IsOpenTo(task: TaskNeed, workers: seq<Worker>, taken: set<string>, w: Worker) {
    && w in workers && !w.busy && !w.resting && w.nodeId !in taken
    && CanHold(task, w) && MayCheck(task, workers, w)
  }

  lemma AllowedIffOpen(task: TaskNeed, workers: seq<Worker>, taken: set<string>, w: Worker)
    ensures Allowed(task, workers, taken, w) <==> IsOpenTo(task, workers, taken, w)
  {
    hide CanHold, Fits;
    FitsIffCanHold(task, w);
    if task.kind == Verify {
      SuitableIffMayCheck(task, workers, w);
    }
  }

  /** Whatever is handed out goes to a machine that is in the list, idle, rested, unoccupied, large and fast enough. */
  lemma HandedOutToOpenMachines(pending: seq<TaskNeed>, workers: seq<Worker>, occupied: set<string>, pick: Pick)
    returns (t: nat, w: Worker)
    requires pick in AssignTo(pending, workers, occupied, |pending|).picks
    ensures t < |pending| && pending[t].id == pick.task && w.nodeId == pick.node
    ensures IsOpenTo(pending[t], workers, occupied, w)
  {
    hide AssignTo, Allowed, IsOpenTo;
    AssignIsSafe(pending, workers, occupied, |pending|);
    assert KeepsRules(pending, workers, occupied, |pending|, pick);
    t, w :| t < |pending| && Behind(pending, workers, occupied, pick, t, w);
    AllowedIffOpen(pending[t], workers, occupied, w);
  }

  /** `w` can do more than `v`, or as much under a later name. */
  predicate Outdoes(kind: TaskKind, w: Worker, v: Worker) {
    || Capacity(w, kind) > Capacity(v, kind)
    || (Capacity(w, kind) == Capacity(v, kind) && (w.nodeId == v.nodeId || Less(v.nodeId, w.nodeId)))
  }

  lemma OutdoesUnlessLess(kind: TaskKind, w: Worker, v: Worker)
    ensures Outdoes(kind, w, v) <==> !KeyLess(kind, w, v)
  {
    LessIsTotal(w.nodeId, v.nodeId);
  }

  /**
   * Of the machines open to it a review takes the one that can do most and a check the one that can do least, each if
   * there is one; a check that prefers large takes the one that can do most of all that may do it, if that is free.
   */
  lemma ChoiceInFields(task: TaskNeed, workers: seq<Worker>, taken: set<string>)
    ensures var choice := Choice(task, workers, taken);
            && (choice.Some? ==> IsOpenTo(task, workers, taken, choice.value))
            && (task.kind == Review || !task.preferLarge ==>
                  (choice.None? <==> forall v :: !IsOpenTo(task, workers, taken, v)))
            && (task.kind == Review && choice.Some? ==>
                  forall v :: IsOpenTo(task, workers, taken, v) ==> Outdoes(Review, choice.value, v))
            && (task.kind == Verify && !task.preferLarge && choice.Some? ==>
                  forall v :: IsOpenTo(task, workers, taken, v) ==> Outdoes(Verify, v, choice.value))
            && (task.kind == Verify && task.preferLarge && choice.Some? ==>
                  forall v :: v in workers && CanHold(task, v) && MayCheck(task, workers, v) ==>
                                Outdoes(Verify, choice.value, v))
  {
    hide Choice, Allowed, IsOpenTo, Outdoes, KeyLess, Suitable, CanHold, MayCheck;
    ChoiceIsRight(task, workers, taken);
    var choice := Choice(task, workers, taken);
    forall v
      ensures Allowed(task, workers, taken, v) <==> IsOpenTo(task, workers, taken, v)
      ensures choice.Some? ==> (Outdoes(task.kind, choice.value, v) <==> !KeyLess(task.kind, choice.value, v))
      ensures choice.Some? ==> (Outdoes(task.kind, v, choice.value) <==> !KeyLess(task.kind, v, choice.value))
    {
      AllowedIffOpen(task, workers, taken, v);
      if choice.Some? {
        OutdoesUnlessLess(task.kind, choice.value, v);
        OutdoesUnlessLess(task.kind, v, choice.value);
      }
    }
    AllowedAreListed(task, workers, taken);
    if task.kind == Verify && task.preferLarge && choice.Some? {
      var i: nat :| IsAwaited(task, workers, i) && choice.value == workers[i];
      forall v | v in workers && CanHold(task, v) && MayCheck(task, workers, v)
        ensures Outdoes(Verify, choice.value, v)
      {
        SuitableIffMayCheck(task, workers, v);
        var j :| 0 <= j < |workers| && workers[j] == v;
      }
    }
  }

  lemma AllowedAreListed(task: TaskNeed, workers: seq<Worker>, taken: set<string>)
    ensures forall v :: Allowed(task, workers, taken, v) ==> v in workers
  {
  }

  lemma {:induction false} ChosenIsPicked(pending: seq<TaskNeed>, workers: seq<Worker>, occupied: set<string>, t: nat)
    requires t < |pending| && Choice(pending[t], workers, AssignTo(pending, workers, occupied, t).taken).Some?
    ensures exists pick :: pick in AssignTo(pending, workers, occupied, |pending|).picks && pick.task == pending[t].id
  {
    hide Choice;
    var before, next := AssignTo(pending, workers, occupied, t), t + 1;
    var pick := Pick(pending[t].id, Choice(pending[t], workers, before.taken).value.nodeId);
    assert pick in AssignTo(pending, workers, occupied, next).picks;
    TakenGrows(pending, workers, occupied, next, |pending|);
    assert pick in AssignTo(pending, workers, occupied, |pending|).picks;
  }

  /** A review or an ordinary check that nobody got has no machine open to it that was not given away. */
  lemma LeftWaitingForLackOfMachines(pending: seq<TaskNeed>, workers: seq<Worker>, occupied: set<string>, t: nat)
    requires t < |pending| && (pending[t].kind == Review || !pending[t].preferLarge)
    requires forall pick :: pick in AssignTo(pending, workers, occupied, |pending|).picks ==> pick.task != pending[t].id
    ensures var given := set pick | pick in AssignTo(pending, workers, occupied, |pending|).picks :: pick.node;
            forall w :: !IsOpenTo(pending[t], workers, occupied + given, w)
  {
    hide AssignTo, Choice, Allowed, IsOpenTo;
    if Choice(pending[t], workers, AssignTo(pending, workers, occupied, t).taken).Some? {
      ChosenIsPicked(pending, workers, occupied, t);
    } else {
      WaitsOnlyWhenNothingIsFree(pending, workers, occupied, t);
      AssignIsSafe(pending, workers, occupied, |pending|);
      forall w: Worker
        ensures !IsOpenTo(pending[t], workers, AssignTo(pending, workers, occupied, |pending|).taken, w)
      {
        AllowedIffOpen(pending[t], workers, AssignTo(pending, workers, occupied, |pending|).taken, w);
      }
    }
  }
}
