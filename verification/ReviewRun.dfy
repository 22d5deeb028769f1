/**
 * The loop of a review run: hand out, collect, try again, give up; `dispatch_all` in the review capability's run.rs.
 */
module ReviewRun {
  import opened Wrappers
  import opened Assign

  /** How often a task may fail, and how often it may fail or be paused, before it is given up. */
  const MAX_ATTEMPTS_FAILED: nat := 3
  const MAX_ATTEMPTS_PAUSED: nat := 5

  datatype TaskState = Waiting | Running(node: string) | Done | GaveUp

  /** A task of the run; its id is its position, counted from one. */
  datatype Task = Task(
    kind: TaskKind, tokens: nat, avoidModel: Option<string>, preferLarge: bool, attempts: nat, state: TaskState)
  {
    function Need(id: nat): (need: TaskNeed) {
      TaskNeed(id, kind, tokens, avoidModel, preferLarge)
    }

    predicate IsOver() {
      state == Done || state == GaveUp
    }
  }

  datatype Outcome = Finished | Preempted | Failed | NoWorker

  /** A round of hand-outs to the machines as they are, the result of a task that ran, or too long a standstill. */
  datatype Event = HandOut(workers: seq<Worker>) | Result(task: nat, outcome: Outcome, raised: seq<Task>) | Stall

  /** What waits among the first `k` tasks. */
  function PendingTo(tasks: seq<Task>, k: nat): (pending: seq<TaskNeed>)
    requires k <= |tasks|
  {
    if k == 0 then []
    else PendingTo(tasks, k - 1) + if tasks[k - 1].state == Waiting then [tasks[k - 1].Need(k)] else []
  }

  function Occupied(tasks: seq<Task>): (nodes: set<string>) {
    set i | 0 <= i < |tasks| && tasks[i].state.Running? :: tasks[i].state.node
  }

  function PicksOf(tasks: seq<Task>, workers: seq<Worker>): (picks: seq<Pick>) {
    var pending := PendingTo(tasks, |tasks|);
    AssignTo(pending, workers, Occupied(tasks), |pending|).picks
  }

  /** The tasks once the first `k` picks are handed out. */
  function Handed(tasks: seq<Task>, picks: seq<Pick>, k: nat): (after: seq<Task>)
    requires k <= |picks|
    ensures |after| == |tasks|
  {
    if k == 0 then tasks
    else
      var before, pick := Handed(tasks, picks, k - 1), picks[k - 1];
      if 1 <= pick.task <= |before|
      then before[pick.task - 1 := before[pick.task - 1].(state := Running(pick.node))] else before
  }

  /** One attempt more, and given up if that makes too many. */
  function Missed(t: Task, most: nat): (after: Task) {
    t.(attempts := t.attempts + 1, state := if t.attempts + 1 >= most then GaveUp else Waiting)
  }

  /** A task after a result; what was tried too often is given up. */
  function Retried(t: Task, outcome: Outcome): (after: Task) {
    match outcome
    case Finished => t.(state := Done)
    case Preempted => Missed(t, MAX_ATTEMPTS_PAUSED)
    case Failed => Missed(t, MAX_ATTEMPTS_FAILED)
    case NoWorker => t.(state := Waiting)
  }

  function Fresh(raised: seq<Task>): (tasks: seq<Task>)
    ensures |tasks| == |raised|
  {
    seq(|raised|, i requires 0 <= i < |raised| => raised[i].(attempts := 0, state := Waiting))
  }

  function AfterStall(tasks: seq<Task>): (after: seq<Task>)
    ensures |after| == |tasks|
  {
    seq(|tasks|, i requires 0 <= i < |tasks| =>
      if tasks[i].state == Waiting then tasks[i].(state := GaveUp) else tasks[i])
  }

  predicate NothingRuns(tasks: seq<Task>) {
    forall i :: 0 <= i < |tasks| ==> !tasks[i].state.Running?
  }

  /** The tasks after one event, if it can happen. A finished review raises checks. */
  function Apply(tasks: seq<Task>, e: Event): (after: Option<seq<Task>>) {
    match e
    case HandOut(workers) =>
      var picks := PicksOf(tasks, workers);
      Some(Handed(tasks, picks, |picks|))
    case Result(i, outcome, raised) =>
      if i < |tasks| && tasks[i].state.Running?
      then Some(tasks[i := Retried(tasks[i], outcome)] + if outcome == Finished then Fresh(raised) else [])
      else None
    case Stall => if NothingRuns(tasks) then Some(AfterStall(tasks)) else None
  }

  /** The tasks after the first `k` events of a run, if all of them could happen. */
  function Run(start: seq<Task>, events: seq<Event>, k: nat): (tasks: Option<seq<Task>>)
    requires k <= |events|
  {
    if k == 0 then Some(start)
    else match Run(start, events, k - 1) case None => None case Some(tasks) => Apply(tasks, events[k - 1])
  }

  /** A run starts with fresh tasks. */
  predicate AreFresh(tasks: seq<Task>) {
    forall i :: 0 <= i < |tasks| ==> tasks[i].attempts == 0 && tasks[i].state == Waiting
  }

  // ---------- a round ----------

  /** What is handed to a round: one of the first `k` tasks, by its id, while it waits. */
  predicate IsPending(tasks: seq<Task>, k: nat, need: TaskNeed)
    requires k <= |tasks|
  {
    1 <= need.id <= k && tasks[need.id - 1].state == Waiting && need == tasks[need.id - 1].Need(need.id)
  }

  lemma {:induction false} PendingHas(tasks: seq<Task>, k: nat, need: TaskNeed)
    requires k <= |tasks|
    ensures need in PendingTo(tasks, k) <==> IsPending(tasks, k, need)
  {
    if k > 0 {
      PendingHas(tasks, k - 1, need);
    }
  }

  lemma {:induction false} PendingOnce(tasks: seq<Task>, k: nat)
    requires k <= |tasks|
    ensures DistinctIds(PendingTo(tasks, k))
  {
    if k > 0 {
      PendingOnce(tasks, k - 1);
      var before := PendingTo(tasks, k - 1);
      forall t | 0 <= t < |before|
        ensures before[t].id < k
      {
        assert before[t] in before;
        PendingHas(tasks, k - 1, before[t]);
      }
    }
  }

  lemma PendingExactly(tasks: seq<Task>)
    ensures DistinctIds(PendingTo(tasks, |tasks|))
    ensures forall need :: need in PendingTo(tasks, |tasks|) <==> IsPending(tasks, |tasks|, need)
  {
    hide PendingTo, IsPending;
    PendingOnce(tasks, |tasks|);
    forall need
      ensures need in PendingTo(tasks, |tasks|) <==> IsPending(tasks, |tasks|, need)
    {
      PendingHas(tasks, |tasks|, need);
    }
  }

  /** A pick of a round: a waiting task, for a machine that runs none of this run's. */
  ghost predicate PickFits(tasks: seq<Task>, pick: Pick) {
    1 <= pick.task <= |tasks| && tasks[pick.task - 1].state == Waiting && pick.node !in Occupied(tasks)
  }

  ghost predicate EachOnce(picks: seq<Pick>) {
    forall p, q :: 0 <= p < q < |picks| ==> picks[p].task != picks[q].task && picks[p].node != picks[q].node
  }

  lemma IdAmongIsWaiting(tasks: seq<Task>, id: nat)
    requires IdAmong(PendingTo(tasks, |tasks|), |PendingTo(tasks, |tasks|)|, id)
    ensures 1 <= id <= |tasks| && tasks[id - 1].state == Waiting
  {
    hide PendingTo;
    PendingExactly(tasks);
    var pending := PendingTo(tasks, |tasks|);
    var t :| 0 <= t < |pending| && pending[t].id == id;
    assert pending[t] in pending;
  }

  lemma RulesKeepFree(pending: seq<TaskNeed>, workers: seq<Worker>, occupied: set<string>, k: nat, pick: Pick)
    requires KeepsRules(pending, workers, occupied, k, pick)
    ensures pick.node !in occupied
  {
  }

  /** A round picks waiting tasks, each once, and machines that run none of this run's, each once. */
  lemma RoundPicksFit(tasks: seq<Task>, workers: seq<Worker>)
    ensures EachOnce(PicksOf(tasks, workers))
    ensures forall pick :: pick in PicksOf(tasks, workers) ==> PickFits(tasks, pick)
  {
    hide AssignTo, Occupied, PendingTo, KeepsRules, IdAmong;
    var pending, occupied := PendingTo(tasks, |tasks|), Occupied(tasks);
    PendingExactly(tasks);
    EachTaskOnce(pending, workers, occupied, |pending|);
    AssignIsSafe(pending, workers, occupied, |pending|);
    forall pick | pick in PicksOf(tasks, workers)
      ensures PickFits(tasks, pick)
    {
      IdAmongIsWaiting(tasks, pick.task);
      RulesKeepFree(pending, workers, occupied, |pending|, pick);
    }
  }

  /** Handing out touches exactly the picked tasks. */
  lemma {:induction false} HandedAt(tasks: seq<Task>, picks: seq<Pick>, k: nat, i: nat)
    requires k <= |picks| && i < |tasks| && EachOnce(picks)
    ensures forall p :: 0 <= p < k && picks[p].task == i + 1 ==>
                          Handed(tasks, picks, k)[i] == tasks[i].(state := Running(picks[p].node))
    ensures (forall p :: 0 <= p < k ==> picks[p].task != i + 1) ==> Handed(tasks, picks, k)[i] == tasks[i]
  {
    if k > 0 {
      HandedAt(tasks, picks, k - 1, i);
    }
  }

  /** What a round makes of one task: it runs if it was picked, and is left alone if not. */
  lemma RoundAt(tasks: seq<Task>, workers: seq<Worker>, i: nat) returns (p: nat)
    requires i < |tasks|
    ensures var picks, after := PicksOf(tasks, workers), Apply(tasks, HandOut(workers)).value;
            && |after| == |tasks| && p <= |picks|
            && (p < |picks| ==> tasks[i].state == Waiting && after[i] == tasks[i].(state := Running(picks[p].node))
                                && picks[p].task == i + 1 && picks[p].node !in Occupied(tasks))
            && (p == |picks| ==> after[i] == tasks[i])
  {
    hide Occupied, PicksOf;
    var picks := PicksOf(tasks, workers);
    RoundPicksFit(tasks, workers);
    HandedAt(tasks, picks, |picks|, i);
    if q :| 0 <= q < |picks| && picks[q].task == i + 1 {
      p := q;
      assert picks[p] in picks;
    } else {
      p := |picks|;
    }
  }

  // ---------- what every event keeps ----------

  /** A task is tried again only while it may be, and given up when it was tried too often. */
  predicate AttemptsFit(t: Task) {
    t.attempts <= MAX_ATTEMPTS_PAUSED && (t.attempts == MAX_ATTEMPTS_PAUSED ==> t.state == GaveUp)
  }

  predicate RunApart(tasks: seq<Task>, i: nat, j: nat) {
    i < |tasks| && j < |tasks| && i != j && tasks[i].state.Running? && tasks[j].state.Running? ==>
      tasks[i].state.node != tasks[j].state.node
  }

  lemma RoundKeepsApart(tasks: seq<Task>, workers: seq<Worker>, i: nat, j: nat)
    requires RunApart(tasks, i, j)
    ensures RunApart(Apply(tasks, HandOut(workers)).value, i, j)
  {
    hide PicksOf, Handed;
    if i < |tasks| && j < |tasks| && i != j {
      RoundPicksFit(tasks, workers);
      var p := RoundAt(tasks, workers, i);
      var q := RoundAt(tasks, workers, j);
    }
  }

  lemma EventKeepsApart(tasks: seq<Task>, e: Event, i: nat, j: nat)
    requires Apply(tasks, e).Some? && RunApart(tasks, i, j)
    ensures RunApart(Apply(tasks, e).value, i, j)
  {
    if e.HandOut? {
      RoundKeepsApart(tasks, e.workers, i, j);
    }
  }

  /** No machine ever runs two tasks of a run, however rounds, results and standstills interleave. */
  lemma {:induction false} OneTaskAMachine(start: seq<Task>, events: seq<Event>, k: nat, i: nat, j: nat)
    requires AreFresh(start) && k <= |events| && Run(start, events, k).Some?
    ensures RunApart(Run(start, events, k).value, i, j)
  {
    hide Apply;
    if k > 0 {
      OneTaskAMachine(start, events, k - 1, i, j);
      EventKeepsApart(Run(start, events, k - 1).value, events[k - 1], i, j);
    }
  }

  predicate IsMiss(e: Event, i: nat) {
    e.Result? && e.task == i && (e.outcome == Failed || e.outcome == Preempted)
  }

  /** How often, in the first `k` events, task `i` failed or was paused. */
  function Misses(events: seq<Event>, k: nat, i: nat): (n: nat)
    requires k <= |events|
  {
    if k == 0 then 0 else Misses(events, k - 1, i) + if IsMiss(events[k - 1], i) then 1 else 0
  }

  lemma EventCounts(tasks: seq<Task>, e: Event, i: nat)
    requires Apply(tasks, e).Some?
    ensures |tasks| <= |Apply(tasks, e).value|
    ensures i < |tasks| ==>
              Apply(tasks, e).value[i].attempts == tasks[i].attempts + if IsMiss(e, i) then 1 else 0
    ensures i < |tasks| && AttemptsFit(tasks[i]) ==> AttemptsFit(Apply(tasks, e).value[i])
    ensures |tasks| <= i < |Apply(tasks, e).value| ==>
              Apply(tasks, e).value[i].attempts == 0 && Apply(tasks, e).value[i].state == Waiting
    ensures i >= |tasks| ==> !IsMiss(e, i)
  {
    if e.HandOut? && i < |tasks| {
      hide PicksOf, Handed;
      var p := RoundAt(tasks, e.workers, i);
    }
  }

  /** A task's attempts are its failures and pauses, and there are never more than five. */
  lemma {:induction false} AttemptsAreCounted(start: seq<Task>, events: seq<Event>, k: nat, i: nat)
    requires AreFresh(start) && k <= |events| && Run(start, events, k).Some?
    ensures var tasks := Run(start, events, k).value;
            && (i >= |tasks| ==> Misses(events, k, i) == 0)
            && (i < |tasks| ==>
                  tasks[i].attempts == Misses(events, k, i) <= 5 && AttemptsFit(tasks[i]))
  {
    hide Apply;
    if k > 0 {
      AttemptsAreCounted(start, events, k - 1, i);
      EventCounts(Run(start, events, k - 1).value, events[k - 1], i);
    }
  }

  lemma EventKeepsOver(tasks: seq<Task>, e: Event, i: nat)
    requires Apply(tasks, e).Some? && i < |tasks| && tasks[i].IsOver()
    ensures i < |Apply(tasks, e).value| && Apply(tasks, e).value[i] == tasks[i]
  {
    if e.HandOut? {
      hide PicksOf, Handed;
      var p := RoundAt(tasks, e.workers, i);
    }
  }

  /** A task that is done or given up stays so: it is never handed out again. */
  lemma {:induction false} OverIsFinal(start: seq<Task>, events: seq<Event>, j: nat, k: nat, i: nat)
    requires j <= k <= |events| && Run(start, events, j).Some? && Run(start, events, k).Some?
    requires i < |Run(start, events, j).value| && Run(start, events, j).value[i].IsOver()
    ensures i < |Run(start, events, k).value| && Run(start, events, k).value[i] == Run(start, events, j).value[i]
    decreases k
  {
    hide Apply;
    if j < k {
      OverIsFinal(start, events, j, k - 1, i);
      EventKeepsOver(Run(start, events, k - 1).value, events[k - 1], i);
    }
  }

  /** The event at step `j` gives the running or waiting task up: a failure too many, a pause too many, a standstill. */
  predicate GivesUp(start: seq<Task>, events: seq<Event>, j: nat, i: nat) {
    && j < |events| && Run(start, events, j).Some? && Run(start, events, j + 1).Some?
    && i < |Run(start, events, j).value|
    && match events[j]
       case HandOut(_) => false
       case Stall => Run(start, events, j).value[i].state == Waiting
       case Result(t, outcome, _) =>
         && t == i
         && ((outcome == Failed && Misses(events, j + 1, i) >= 3)
             || (outcome == Preempted && Misses(events, j + 1, i) >= 5))
  }

  lemma EventGivesUp(tasks: seq<Task>, e: Event, i: nat)
    requires Apply(tasks, e).Some? && i < |Apply(tasks, e).value|
    ensures Apply(tasks, e).value[i].state == GaveUp <==>
            && i < |tasks|
            && (|| tasks[i].state == GaveUp
                || (e.Stall? && tasks[i].state == Waiting)
                || (e.Result? && e.task == i && e.outcome == Failed && tasks[i].attempts + 1 >= MAX_ATTEMPTS_FAILED)
                || (e.Result? && e.task == i && e.outcome == Preempted && tasks[i].attempts + 1 >= MAX_ATTEMPTS_PAUSED))
  {
    if e.HandOut? && i < |tasks| {
      hide PicksOf, Handed;
      var p := RoundAt(tasks, e.workers, i);
    }
  }

  /**
   * A task is given up exactly by a failure that is its third miss or a later one, by a pause that is its fifth, or by
   * a standstill while it waits. Three pauses alone give nothing up.
   */
  lemma {:induction false} GivenUpExactly(start: seq<Task>, events: seq<Event>, k: nat, i: nat)
    requires AreFresh(start) && k <= |events| && Run(start, events, k).Some?
    ensures (i < |Run(start, events, k).value| && Run(start, events, k).value[i].state == GaveUp) <==>
            exists j: nat :: j < k && GivesUp(start, events, j, i)
  {
    hide Apply, GivesUp;
    if k > 0 {
      var tasks, e := Run(start, events, k - 1).value, events[k - 1];
      GivenUpExactly(start, events, k - 1, i);
      AttemptsAreCounted(start, events, k - 1, i);
      EventCounts(tasks, e, i);
      LastEventGivesUp(start, events, k - 1, i);
      if i < |Apply(tasks, e).value| {
        EventGivesUp(tasks, e, i);
      }
    }
  }

  lemma LastEventGivesUp(start: seq<Task>, events: seq<Event>, j: nat, i: nat)
    requires AreFresh(start) && j < |events| && Run(start, events, j).Some? && Run(start, events, j + 1).Some?
    ensures var tasks, e := Run(start, events, j).value, events[j];
            GivesUp(start, events, j, i) <==>
            && i < |tasks|
            && (|| (e.Stall? && tasks[i].state == Waiting)
                || (e.Result? && e.task == i && e.outcome == Failed && tasks[i].attempts + 1 >= MAX_ATTEMPTS_FAILED)
                || (e.Result? && e.task == i && e.outcome == Preempted && tasks[i].attempts + 1 >= MAX_ATTEMPTS_PAUSED))
  {
    hide Apply;
    AttemptsAreCounted(start, events, j, i);
  }

  lemma EventKeepsNeed(tasks: seq<Task>, e: Event, i: nat)
    requires Apply(tasks, e).Some? && i < |tasks|
    ensures i < |Apply(tasks, e).value| && Apply(tasks, e).value[i].Need(i + 1) == tasks[i].Need(i + 1)
  {
    if e.HandOut? {
      hide PicksOf, Handed;
      var p := RoundAt(tasks, e.workers, i);
    }
  }

  /** What a task needs never changes. */
  lemma {:induction false} NeedsStay(start: seq<Task>, events: seq<Event>, k: nat, i: nat)
    requires k <= |events| && Run(start, events, k).Some? && i < |start|
    ensures i < |Run(start, events, k).value| && Run(start, events, k).value[i].Need(i + 1) == start[i].Need(i + 1)
  {
    hide Apply;
    if k > 0 {
      NeedsStay(start, events, k - 1, i);
      EventKeepsNeed(Run(start, events, k - 1).value, events[k - 1], i);
    }
  }

  // ---------- a round that hands something out ----------

  /**
   * With nothing running and every machine free, a round hands out something whenever a waiting task fits a machine.
   */
  lemma FreeRoundHandsOut(tasks: seq<Task>, workers: seq<Worker>, i: nat)
    requires AllFree(workers) && NothingRuns(tasks)
    requires i < |tasks| && tasks[i].state == Waiting && Doable(tasks[i].Need(i + 1), workers)
    ensures PicksOf(tasks, workers) != [] && !NothingRuns(Apply(tasks, HandOut(workers)).value)
  {
    hide AssignTo, Doable, PendingTo;
    var pending := PendingTo(tasks, |tasks|);
    PendingExactly(tasks);
    assert Occupied(tasks) == {};
    assert IsPending(tasks, |tasks|, tasks[i].Need(i + 1));
    var t :| 0 <= t < |pending| && pending[t] == tasks[i].Need(i + 1);
    DoableIsCounted(pending, workers, t, |pending|);
    var f := FirstDoable(pending, workers, |pending|);
    FirstDoableIsPicked(pending, workers, f);
    PickedIsRunning(tasks, workers, pending[f].id);
  }

  lemma {:induction false} DoableIsCounted(pending: seq<TaskNeed>, workers: seq<Worker>, t: nat, k: nat)
    requires t < k <= |pending| && Doable(pending[t], workers)
    ensures DoableCount(pending, workers, k) > 0
  {
    if t < k - 1 {
      DoableIsCounted(pending, workers, t, k - 1);
    }
  }

  lemma PickedIsRunning(tasks: seq<Task>, workers: seq<Worker>, id: nat)
    requires Picked(PicksOf(tasks, workers), id)
    ensures PicksOf(tasks, workers) != [] && !NothingRuns(Apply(tasks, HandOut(workers)).value)
  {
    hide Occupied, PicksOf;
    var picks := PicksOf(tasks, workers);
    RoundPicksFit(tasks, workers);
    var p :| 0 <= p < |picks| && picks[p].task == id;
    assert picks[p] in picks;
    HandedAt(tasks, picks, |picks|, id - 1);
  }

  /**
   * With nothing running and every machine free, a round hands out something exactly if some waiting task has, as the
   * machines are now, one with room for it and time to read it.
   */
  lemma FreeRoundHandsOutIff(tasks: seq<Task>, now: seq<Worker>)
    requires AllFree(now) && NothingRuns(tasks)
    ensures PicksOf(tasks, now) != [] <==>
            exists i, w :: 0 <= i < |tasks| && tasks[i].state == Waiting && w in now
                        && HasRoom(tasks[i].Need(i + 1), w) && IsFastEnough(tasks[i].Need(i + 1), w)
  {
    hide AssignTo, Doable, PendingTo, HasRoom, IsFastEnough;
    forall i: nat | i < |tasks|
      ensures Doable(tasks[i].Need(i + 1), now)
         <==> exists w :: w in now && HasRoom(tasks[i].Need(i + 1), w) && IsFastEnough(tasks[i].Need(i + 1), w)
    {
      DoableIffRoomAndSpeed(tasks[i].Need(i + 1), now);
    }
    if i: nat :| i < |tasks| && tasks[i].state == Waiting && Doable(tasks[i].Need(i + 1), now) {
      FreeRoundHandsOut(tasks, now, i);
    } else {
      NothingHandedOut(tasks, now);
    }
  }

  lemma NothingHandedOut(tasks: seq<Task>, now: seq<Worker>)
    requires AllFree(now) && NothingRuns(tasks)
    requires forall i: nat :: i < |tasks| && tasks[i].state == Waiting ==> !Doable(tasks[i].Need(i + 1), now)
    ensures PicksOf(tasks, now) == []
  {
    hide AssignTo, Doable, PendingTo;
    var pending := PendingTo(tasks, |tasks|);
    PendingExactly(tasks);
    assert Occupied(tasks) == {};
    forall t | 0 <= t < |pending|
      ensures !Doable(pending[t], now)
    {
      assert pending[t] in pending && IsPending(tasks, |tasks|, pending[t]);
      var i := pending[t].id - 1;
      assert pending[t] == tasks[i].Need(i + 1);
    }
    NothingTakenBeforeFirst(pending, now, |pending|);
  }

  // ---------- a run that stands still ----------

  const UNMEASURED: Worker := Worker("mac1", "mac1", "coder", 262_144, false, false, None)
  const SLOW: Worker := UNMEASURED.(promptTps := Some(20.0))
  const LONG_REVIEW: Task := Task(Review, 60_000, None, false, 0, Waiting)

  function SlowRun(): (events: seq<Event>) {
    [HandOut([UNMEASURED]), Result(0, Finished, []), Stall]
  }

  lemma CapacityFalls()
    ensures Capacity(UNMEASURED, Review) == 231_833 && Capacity(SLOW, Review) == 18_000
  {
  }

  lemma LongReviewNeedsUnmeasured(id: nat)
    ensures Doable(LONG_REVIEW.Need(id), [UNMEASURED]) && !Doable(LONG_REVIEW.Need(id), [SLOW])
  {
    CapacityFalls();
    hide Capacity;
    assert Fits(LONG_REVIEW.Need(id), [UNMEASURED][0]);
  }

  /** Of two long reviews one machine takes the first, in one round. */
  lemma FirstOfTwoIsHandedOut()
    ensures Apply([LONG_REVIEW, LONG_REVIEW], HandOut([UNMEASURED]))
         == Some([LONG_REVIEW.(state := Running("mac1")), LONG_REVIEW])
  {
    var tasks, workers := [LONG_REVIEW, LONG_REVIEW], [UNMEASURED];
    var first, second := LONG_REVIEW.Need(1), LONG_REVIEW.Need(2);
    CapacityFalls();
    assert PendingTo(tasks, 1) == [first];
    assert PendingTo(tasks, 2) == [first, second];
    assert Occupied(tasks) == {};
    FirstIsChosen(first, second, workers);
    assert PicksOf(tasks, workers) == [Pick(1, "mac1")];
    assert Handed(tasks, [Pick(1, "mac1")], 1) == [LONG_REVIEW.(state := Running("mac1")), LONG_REVIEW];
  }

  lemma FirstIsChosen(first: TaskNeed, second: TaskNeed, workers: seq<Worker>)
    requires workers == [UNMEASURED] && first == LONG_REVIEW.Need(1) && second == LONG_REVIEW.Need(2)
    ensures AssignTo([first, second], workers, {}, 2).picks == [Pick(1, "mac1")]
  {
    CapacityFalls();
    hide Capacity;
    var free: set<string>, gone := {}, {"mac1"};
    assert Largest(Review, workers, 0, (w: Worker) => Free(w, free) && Fits(first, w)) == None;
    assert Choice(first, workers, free) == Some(UNMEASURED);
    assert Largest(Review, workers, 0, (w: Worker) => Free(w, gone) && Fits(second, w)) == None;
    assert Choice(second, workers, gone) == None;
    assert {} + {"mac1"} == gone;
    var pending := [first, second];
    assert AssignTo(pending, workers, free, 0) == Round(free, []);
    assert AssignTo(pending, workers, free, 1) == Round(gone, [] + [Pick(1, "mac1")]);
    assert AssignTo(pending, workers, free, 2) == AssignTo(pending, workers, free, 1);
  }

  /**
   * A review that fitted at planning is given up, although its machine is free: the first review measured the machine's
   * speed, and at that speed the second takes too long to read.
   */
  lemma SlowMachineStarvesAReview()
    ensures var start, events := [LONG_REVIEW, LONG_REVIEW], SlowRun();
            && Doable(start[1].Need(2), [UNMEASURED]) && AllFree([SLOW])
            && Run(start, events, 2).Some? && NothingRuns(Run(start, events, 2).value)
            && PicksOf(Run(start, events, 2).value, [SLOW]) == []
            && Run(start, events, 3).Some? && |Run(start, events, 3).value| == 2
            && Run(start, events, 3).value[1].state == GaveUp
  {
    hide PicksOf, Doable, Handed;
    var start, events := [LONG_REVIEW, LONG_REVIEW], SlowRun();
    LongReviewNeedsUnmeasured(2);
    FirstOfTwoIsHandedOut();
    var tasks := [LONG_REVIEW.(state := Done), LONG_REVIEW];
    assert Run(start, events, 0) == Some(start);
    assert Run(start, events, 1) == Some([LONG_REVIEW.(state := Running("mac1")), LONG_REVIEW]);
    assert Run(start, events, 2) == Some(tasks) by {
      assert [LONG_REVIEW.(state := Running("mac1")), LONG_REVIEW][0 := LONG_REVIEW.(state := Done)] + Fresh([]) ==
             tasks;
    }
    NothingHandedOut(tasks, [SLOW]);
    assert Run(start, events, 3) == Apply(tasks, Stall);
  }
}
