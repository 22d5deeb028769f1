/**
 * Review requests and home commands on shared machines: `run_work_request` and `select_control_target` in
 * inference.rs, the reader's side of a stream in server.rs, and the router, as one state machine. Each step is what
 * one holder of the router's lock or of the stream map's lock does at a time; steps interleave freely.
 */
module WorkRuns {
  import opened Wrappers
  import opened WorkRouter

  const STREAM_CHANNEL_CAP: nat := 256

  /** Seconds a review request waits for its first message, and for each later one. */
  const WORK_FIRST_TOKEN_SECS: nat := 1200
  const WORK_TOKEN_GAP_SECS: nat := 180

  function Patience(first: bool): (seconds: nat) {
    if first then WORK_FIRST_TOKEN_SECS else WORK_TOKEN_GAP_SECS
  }

  /** What a reader feeds into a review request's stream. */
  datatype Msg = Chunk | Result(output: string, error: Option<string>) | Error(text: string)

  /** Why a request failed: what the machine said, or that it was not reached, went away, or fell silent. */
  datatype Reason = Said(text: string) | Unsent | Closed | Silent

  datatype Outcome = Finished(output: string) | Failed(reason: Reason) | Preempted | NoWorker

  /**
   * A review request: claimed, entered in the stream map, streaming (with nothing read yet, or waiting for the next
   * message since some second), answering, and gone with its claim.
   */
  datatype WorkRun =
    | Claimed(node: Node)
    | Sending(node: Node)
    | Streaming(node: Node, first: bool, since: nat)
    | Replying(outcome: Outcome)
    | Over(outcome: Outcome)
  {
    predicate Live() {
      Claimed? || Sending? || Streaming?
    }
  }

  /** A home command: picked but not yet in flight, in flight, or answered. */
  datatype HomeRun = OnItsWay(node: Node, pausing: bool, since: nat) | Running(node: Node) | Answered

  datatype State = State(
    clock: nat,
    claims: Claims,
    works: map<Id, WorkRun>,
    homes: map<Id, HomeRun>,
    /** Requests whose pause signal was fired. */
    paused: set<Id>,
    /** The shared map: whose messages go where, and from which machine. */
    streams: map<Id, Node>,
    queues: map<Id, seq<Msg>>,
    /** Senders in a reader's hand, each with the message it is about to send. */
    held: map<Id, Msg>,
    /** The requests a machine was told to stop working on. */
    cancelled: set<Id>)

  datatype Step =
    | Tick(seconds: nat)
    | PickWork(id: Id, roles: ModelRoles, cands: seq<Candidate>, node: Option<Node>, model: Option<string>)
    | NotConnected(id: Id)
    | Register(id: Id)
    | SendOk(id: Id)
    | SendFail(id: Id)
    | SeePause(id: Id)
    | SeeMessage(id: Id)
    | SeeClosed(id: Id)
    | TimeOut(id: Id)
    | Finish(id: Id)
    | Take(id: Id, msg: Msg)
    | Deliver(id: Id)
    | Disconnect(lost: Node)
    | PickHome(id: Id, roles: ModelRoles, cands: seq<Candidate>, requested: Option<string>)
    | BeginHome(id: Id)
    | EndHome(id: Id)

  const INITIAL := State(0, Claims(map[], map[]), map[], map[], {}, map[], map[], map[], {})

  predicate IsNew(s: State, id: Id) {
    id !in s.works && id !in s.homes
  }

  function ResultOutcome(msg: Msg): (outcome: Outcome)
    requires !msg.Chunk?
  {
    match msg
    case Result(output, None) => Finished(output)
    case Result(_, Some(e)) => Failed(Said(e))
    case Error(text) => Failed(Said(text))
  }

  predicate CanTake(s: State, id: Id) {
    id in s.works && !s.works[id].Over? && id in s.queues && |s.queues[id]| < STREAM_CHANNEL_CAP
  }

  /** `try_send`: a full or closed channel drops the message. */
  function Pushed(s: State, id: Id, msg: Msg): (queue: seq<Msg>)
    requires id in s.queues
  {
    if CanTake(s, id) then s.queues[id] + [msg] else s.queues[id]
  }

  function Reply(s: State, id: Id, outcome: Outcome): (after: State) {
    s.(works := s.works[id := Replying(outcome)])
  }

  /** The entry goes, and the machine is told to stop. */
  function Stopped(s: State, id: Id): (after: State) {
    s.(streams := s.streams - {id}, cancelled := s.cancelled + {id})
  }

  predicate IsStreaming(s: State, id: Id) {
    id in s.works && s.works[id].Streaming? && id in s.queues
  }

  /** The review pick and the claim, under one lock. */
  function ApplyPickWork(s: State, step: Step): (after: Option<State>)
    requires step.PickWork?
  {
    if !IsNew(s, step.id) then None
    else match WorkRouter.PickWork(s.claims, step.roles, step.cands, step.node, step.model, s.clock)
      case None => Some(Reply(s, step.id, NoWorker))
      case Some(c) =>
        Some(s.(works := s.works[step.id := Claimed(c.node)], claims := AfterWorkPick(s.claims, step.id, Some(c))))
  }

  /** The home pick and the pausing, under one lock; the home command's own claim comes later. */
  function ApplyPickHome(s: State, step: Step): (after: Option<State>)
    requires step.PickHome?
  {
    if !IsNew(s, step.id) then None
    else match PickControl(s.claims, step.roles, step.cands, step.requested)
      case None => Some(s.(homes := s.homes[step.id := Answered]))
      case Some(pick) =>
        Some(s.(homes := s.homes[step.id := OnItsWay(pick.target.node, pick.preempt != {}, s.clock)],
                claims := AfterPick(s.claims, pick, s.clock), paused := s.paused + pick.preempt))
  }

  /** One turn of the select loop, on a message. */
  function ApplySeeMessage(s: State, id: Id): (after: Option<State>) {
    if !IsStreaming(s, id) || s.queues[id] == [] then None
    else
      var msg := s.queues[id][0];
      var rest := s.(queues := s.queues[id := s.queues[id][1..]]);
      if msg.Chunk? then Some(rest.(works := s.works[id := Streaming(s.works[id].node, false, s.clock)]))
      else Some(Reply(rest, id, ResultOutcome(msg)))
  }

  /** The reader on a frame: a result takes the entry out of the map, a chunk only looks it up. */
  function ApplyTake(s: State, id: Id, msg: Msg): (after: Option<State>) {
    if msg.Error? || id in s.held then None
    else if id !in s.streams then Some(if msg.Chunk? then s.(cancelled := s.cancelled + {id}) else s)
    else Some(s.(held := s.held[id := msg], streams := if msg.Chunk? then s.streams else s.streams - {id}))
  }

  function ApplyDeliver(s: State, id: Id): (after: Option<State>) {
    if id !in s.held || id !in s.queues then None
    else
      var after := s.(held := s.held - {id}, queues := s.queues[id := Pushed(s, id, s.held[id])]);
      Some(if s.held[id].Chunk? && !CanTake(s, id) then Stopped(after, id) else after)
  }

  function ApplyDisconnect(s: State, node: Node): (after: Option<State>) {
    Some(s.(streams := map id | id in s.streams && s.streams[id] != node :: s.streams[id],
            queues := map id | id in s.queues ::
              if id in s.streams && s.streams[id] == node then Pushed(s, id, Error(node)) else s.queues[id]))
  }

  /** The steps of a review request that move nothing but itself. */
  function ApplyOwn(s: State, step: Step): (after: Option<State>) {
    match step
    case NotConnected(id) =>
      if id in s.works && s.works[id].Claimed? then Some(Reply(s, id, NoWorker)) else None
    case Register(id) =>
      if id in s.works && s.works[id].Claimed?
      then Some(s.(works := s.works[id := Sending(s.works[id].node)], streams := s.streams[id := s.works[id].node],
                   queues := s.queues[id := []]))
      else None
    case SendOk(id) =>
      if id in s.works && s.works[id].Sending?
      then Some(s.(works := s.works[id := Streaming(s.works[id].node, true, s.clock)])) else None
    case SendFail(id) =>
      if id in s.works && s.works[id].Sending?
      then Some(Reply(s, id, Failed(Unsent)).(streams := s.streams - {id})) else None
    case SeePause(id) =>
      if IsStreaming(s, id) && id in s.paused then Some(Reply(Stopped(s, id), id, Preempted)) else None
    case SeeClosed(id) =>
      if IsStreaming(s, id) && s.queues[id] == [] && id !in s.streams && id !in s.held
      then Some(Reply(s, id, Failed(Closed))) else None
    case TimeOut(id) =>
      if && IsStreaming(s, id) && s.queues[id] == []
         && s.clock >= s.works[id].since + Patience(s.works[id].first)
      then Some(Reply(Stopped(s, id), id, Failed(Silent))) else None
    case Finish(id) =>
      if id in s.works && s.works[id].Replying?
      then Some(s.(works := s.works[id := Over(s.works[id].outcome)],
                   claims := s.claims.(inFlight := s.claims.inFlight - {id})))
      else None
    case _ => None
  }

  function ApplyHome(s: State, step: Step): (after: Option<State>) {
    match step
    case BeginHome(id) =>
      if id in s.homes && s.homes[id].OnItsWay?
      then Some(s.(homes := s.homes[id := Running(s.homes[id].node)],
                   claims := s.claims.(inFlight := s.claims.inFlight[id := Claim(s.homes[id].node, Control)])))
      else None
    case EndHome(id) =>
      if id in s.homes && !s.homes[id].Answered?
      then Some(s.(homes := s.homes[id := Answered], claims := s.claims.(inFlight := s.claims.inFlight - {id})))
      else None
    case _ => None
  }

  /** One step, if it can happen; ids are fresh, as generated ids are. */
  function Apply(s: State, step: Step): (after: Option<State>) {
    match step
    case Tick(seconds) => Some(s.(clock := s.clock + seconds))
    case PickWork(_, _, _, _, _) => ApplyPickWork(s, step)
    case PickHome(_, _, _, _) => ApplyPickHome(s, step)
    case BeginHome(_) => ApplyHome(s, step)
    case EndHome(_) => ApplyHome(s, step)
    case SeeMessage(id) => ApplySeeMessage(s, id)
    case Take(id, msg) => ApplyTake(s, id, msg)
    case Deliver(id) => ApplyDeliver(s, id)
    case Disconnect(node) => ApplyDisconnect(s, node)
    case _ => ApplyOwn(s, step)
  }

  /** The state after the first `k` steps of a run, if all of them could happen. */
  function Run(steps: seq<Step>, k: nat): (s: Option<State>)
    requires k <= |steps|
  {
    if k == 0 then Some(INITIAL)
    else match Run(steps, k - 1) case None => None case Some(s) => Apply(s, steps[k - 1])
  }

  // ---------- the invariant ----------

  /** Whose claim an entry of the router is. */
  predicate ClaimFits(s: State, id: Id, claim: Claim) {
    match claim.class_
    case Work =>
      && id in s.works && id !in s.paused
      && (s.works[id].Replying? || (s.works[id].Live() && s.works[id].node == claim.node))
    case Control => id in s.homes && s.homes[id] == Running(claim.node)
  }

  predicate StreamFits(s: State, id: Id) {
    && (id in s.streams ==> id in s.works && (s.works[id].Sending? || s.works[id].Streaming?))
    && (id in s.queues ==> id in s.works && !s.works[id].Claimed?)
    && (id in s.held ==> id in s.queues)
    && (id in s.works && (s.works[id].Sending? || s.works[id].Streaming?) ==> id in s.queues)
    && (id in s.queues && id in s.streams ==> forall i :: 0 <= i < |s.queues[id]| ==> s.queues[id][i].Chunk?)
    && (id in s.held && id in s.streams ==> s.held[id].Chunk?)
  }

  /** What every step keeps, said of one id. */
  predicate InvAt(s: State, id: Id) {
    && (id in s.claims.inFlight ==> ClaimFits(s, id, s.claims.inFlight[id]))
    && !(id in s.works && id in s.homes)
    && (id in s.works && s.works[id].Live() ==>
          id in s.paused || (id in s.claims.inFlight && s.claims.inFlight[id] == Claim(s.works[id].node, Work)))
    && (id in s.homes && s.homes[id].Running? ==>
          id in s.claims.inFlight && s.claims.inFlight[id] == Claim(s.homes[id].node, Control))
    && (id in s.paused ==> id in s.works)
    && (id in s.works && (s.works[id].Replying? || s.works[id].Over?) && s.works[id].outcome == Preempted ==>
          id in s.paused && id in s.cancelled)
    && StreamFits(s, id)
  }

  ghost predicate Inv(s: State) {
    forall id: Id :: InvAt(s, id)
  }

  lemma OwnStepKeepsInvAt(s: State, step: Step, id: Id)
    requires InvAt(s, id) && ApplyOwn(s, step).Some?
    ensures InvAt(ApplyOwn(s, step).value, id)
  {
  }

  lemma HomeStepKeepsInvAt(s: State, step: Step, id: Id)
    requires InvAt(s, id) && ApplyHome(s, step).Some?
    ensures InvAt(ApplyHome(s, step).value, id)
  {
  }

  lemma PickWorkKeepsInvAt(s: State, step: Step, id: Id)
    requires step.PickWork? && Inv(s) && ApplyPickWork(s, step).Some?
    ensures InvAt(ApplyPickWork(s, step).value, id)
  {
    hide WorkRouter.PickWork;
    assert InvAt(s, id);
  }

  lemma PickHomeKeepsInvAt(s: State, step: Step, id: Id)
    requires step.PickHome? && Inv(s) && ApplyPickHome(s, step).Some?
    ensures InvAt(ApplyPickHome(s, step).value, id)
  {
    hide PickControl;
    assert InvAt(s, id);
    var picked := PickControl(s.claims, step.roles, step.cands, step.requested);
    if picked.Some? {
      PickPausesWork(s.claims, step.roles, step.cands, step.requested);
      assert AfterPick(s.claims, picked.value, s.clock).inFlight == s.claims.inFlight - picked.value.preempt;
    }
  }

  lemma SeeMessageKeepsInvAt(s: State, seen: Id, id: Id)
    requires InvAt(s, id) && ApplySeeMessage(s, seen).Some?
    ensures InvAt(ApplySeeMessage(s, seen).value, id)
  {
    if seen == id {
      var after := ApplySeeMessage(s, seen).value;
      assert forall i :: 0 <= i < |after.queues[id]| ==> after.queues[id][i] == s.queues[id][i + 1];
    }
  }

  lemma TakeKeepsInvAt(s: State, taken: Id, msg: Msg, id: Id)
    requires InvAt(s, id) && ApplyTake(s, taken, msg).Some?
    ensures InvAt(ApplyTake(s, taken, msg).value, id)
  {
  }

  lemma DeliverKeepsInvAt(s: State, delivered: Id, id: Id)
    requires InvAt(s, id) && ApplyDeliver(s, delivered).Some?
    ensures InvAt(ApplyDeliver(s, delivered).value, id)
  {
  }

  lemma DisconnectKeepsInvAt(s: State, lost: Node, id: Id)
    requires InvAt(s, id)
    ensures InvAt(ApplyDisconnect(s, lost).value, id)
  {
  }

  lemma StepKeepsInv(s: State, step: Step)
    requires Inv(s) && Apply(s, step).Some?
    ensures Inv(Apply(s, step).value)
  {
    hide InvAt, ApplyOwn, ApplyHome, ApplyPickWork, ApplyPickHome, ApplyTake, ApplyDeliver, ApplyDisconnect,
      ApplySeeMessage;
    forall id: Id
      ensures InvAt(Apply(s, step).value, id)
    {
      assert InvAt(s, id);
      match step {
        case Tick(_) => TickKeepsInvAt(s, step, id);
        case PickWork(_, _, _, _, _) => PickWorkKeepsInvAt(s, step, id);
        case PickHome(_, _, _, _) => PickHomeKeepsInvAt(s, step, id);
        case BeginHome(_) => HomeStepKeepsInvAt(s, step, id);
        case EndHome(_) => HomeStepKeepsInvAt(s, step, id);
        case SeeMessage(seen) => SeeMessageKeepsInvAt(s, seen, id);
        case Take(taken, msg) => TakeKeepsInvAt(s, taken, msg, id);
        case Deliver(delivered) => DeliverKeepsInvAt(s, delivered, id);
        case Disconnect(lost) => DisconnectKeepsInvAt(s, lost, id);
        case _ => OwnStepKeepsInvAt(s, step, id);
      }
    }
  }

  lemma TickKeepsInvAt(s: State, step: Step, id: Id)
    requires step.Tick? && InvAt(s, id) && Apply(s, step).Some?
    ensures InvAt(Apply(s, step).value, id)
  {
  }

  lemma {:induction false} RunKeepsInv(steps: seq<Step>, k: nat)
    requires k <= |steps| && Run(steps, k).Some?
    ensures Inv(Run(steps, k).value)
  {
    hide Apply, InvAt;
    if k > 0 {
      RunKeepsInv(steps, k - 1);
      StepKeepsInv(Run(steps, k - 1).value, steps[k - 1]);
    } else {
      InitiallyInv();
    }
  }

  lemma InitiallyInv()
    ensures Inv(INITIAL)
  {
  }

  // ---------- one review request a machine ----------

  predicate OneWork(s: State, a: Id, b: Id) {
    && a in s.claims.inFlight && b in s.claims.inFlight
    && s.claims.inFlight[a].class_ == Work && s.claims.inFlight[b] == s.claims.inFlight[a]
    ==> a == b
  }

  /** What a step does to the claims: nothing, one claim on a free machine, a home claim, or fewer claims. */
  lemma ClaimsAfter(s: State, step: Step)
    requires Apply(s, step).Some?
    ensures var before, after := s.claims, Apply(s, step).value.claims;
            || (forall id :: id in after.inFlight ==>
                  id in before.inFlight && after.inFlight[id] == before.inFlight[id])
            || exists id, claim ::
                 after == before.(inFlight := before.inFlight[id := claim]) && IsAdmitted(s, step, id, claim)
  {
    hide PickControl, ApplyTake, ApplyDeliver, ApplyDisconnect, ApplySeeMessage;
    var after := Apply(s, step).value.claims;
    match step {
      case PickWork(id, roles, cands, node, model) =>
        WorkPickIsBest(s.claims, roles, cands, node, model, s.clock);
        var target := WorkRouter.PickWork(s.claims, roles, cands, node, model, s.clock);
        assert target.Some? ==> IsAdmitted(s, step, id, Claim(target.value.node, Work));
      case BeginHome(id) =>
        assert IsAdmitted(s, step, id, Claim(s.homes[id].node, Control));
      case SeeMessage(_) =>
        MessagesClaimNothing(s, step);
      case Take(_, _) =>
        MessagesClaimNothing(s, step);
      case Deliver(_) =>
        MessagesClaimNothing(s, step);
      case Disconnect(_) =>
        MessagesClaimNothing(s, step);
      case _ =>
    }
  }

  lemma MessagesClaimNothing(s: State, step: Step)
    requires Apply(s, step).Some? && (step.SeeMessage? || step.Take? || step.Deliver? || step.Disconnect?)
    ensures var after := Apply(s, step).value;
            after.claims == s.claims && after.homes == s.homes && after.clock == s.clock
  {
  }

  /** A claim enters as review work on a machine that is free and not resting, or as a home command that was picked. */
  predicate IsAdmitted(s: State, step: Step, id: Id, claim: Claim) {
    match claim.class_
    case Work => step.PickWork? && step.id == id && !s.claims.Busy(claim.node) && !s.claims.Resting(claim.node, s.clock)
    case Control => step == BeginHome(id) && id in s.homes && s.homes[id].OnItsWay? && s.homes[id].node == claim.node
  }

  lemma StepKeepsOneWork(s: State, step: Step, a: Id, b: Id)
    requires Apply(s, step).Some? && OneWork(s, a, b) && OneWork(s, b, a)
    ensures OneWork(Apply(s, step).value, a, b)
  {
    hide Apply;
    ClaimsAfter(s, step);
  }

  /** No machine ever has two review requests at once, however picks, pauses and ends interleave. */
  lemma {:induction false} OneReviewAMachine(steps: seq<Step>, k: nat, a: Id, b: Id)
    requires k <= |steps| && Run(steps, k).Some?
    ensures OneWork(Run(steps, k).value, a, b)
  {
    hide Apply;
    if k > 0 {
      OneReviewAMachine(steps, k - 1, a, b);
      OneReviewAMachine(steps, k - 1, b, a);
      StepKeepsOneWork(Run(steps, k - 1).value, steps[k - 1], a, b);
    }
  }

  // ---------- how a review request ends ----------

  /**
   * A request that is over holds no machine and no entry of the stream map; while it runs it holds both or was paused.
   */
  lemma NothingIsLeftBehind(steps: seq<Step>, k: nat, id: Id)
    requires k <= |steps| && Run(steps, k).Some? && id in Run(steps, k).value.works
    ensures var s := Run(steps, k).value;
            && (s.works[id].Over? ==> id !in s.claims.inFlight && id !in s.streams)
            && (s.works[id].Replying? ==> id !in s.streams)
            && (s.works[id].Live() ==>
                  id in s.paused || (id in s.claims.inFlight && s.claims.inFlight[id] == Claim(s.works[id].node, Work)))
  {
    RunKeepsInv(steps, k);
    assert InvAt(Run(steps, k).value, id);
  }

  predicate Ended(s: State, id: Id) {
    id in s.works && (s.works[id].Replying? || s.works[id].Over?)
  }

  lemma StepKeepsOutcome(s: State, step: Step, id: Id)
    requires Apply(s, step).Some? && Ended(s, id)
    ensures Ended(Apply(s, step).value, id) && Apply(s, step).value.works[id].outcome == s.works[id].outcome
  {
    hide WorkRouter.PickWork, PickControl, AfterPick, Pushed;
  }

  /** A request is answered once: its outcome never changes. */
  lemma {:induction false} AnsweredOnce(steps: seq<Step>, j: nat, k: nat, id: Id)
    requires j <= k <= |steps| && Run(steps, j).Some? && Run(steps, k).Some? && Ended(Run(steps, j).value, id)
    ensures Ended(Run(steps, k).value, id)
    ensures Run(steps, k).value.works[id].outcome == Run(steps, j).value.works[id].outcome
    decreases k
  {
    hide Apply;
    if j < k {
      AnsweredOnce(steps, j, k - 1, id);
      StepKeepsOutcome(Run(steps, k - 1).value, steps[k - 1], id);
    }
  }

  lemma {:induction false} RunOfPrefix(steps: seq<Step>, more: seq<Step>, k: nat)
    requires k <= |steps|
    ensures Run(steps + more, k) == Run(steps, k)
  {
    hide Apply;
    if k > 0 {
      RunOfPrefix(steps, more, k - 1);
    }
  }

  lemma RunOneMore(steps: seq<Step>, step: Step)
    requires Run(steps, |steps|).Some?
    ensures Run(steps + [step], |steps| + 1) == Apply(Run(steps, |steps|).value, step)
  {
    hide Apply;
    RunOfPrefix(steps, [step], |steps|);
  }

  /** The request reads a message or times out, or time passes. */
  predicate IsOwn(step: Step, id: Id) {
    step == SeeMessage(id) || step == TimeOut(id) || step.Tick?
  }

  /** A message read ends the request or leaves one less to read. */
  lemma ReadingShrinksQueue(s: State, id: Id)
    requires InvAt(s, id) && IsStreaming(s, id) && s.queues[id] != []
    ensures Apply(s, SeeMessage(id)).Some?
    ensures || Ended(Apply(s, SeeMessage(id)).value, id)
            || (IsStreaming(Apply(s, SeeMessage(id)).value, id)
                && |Apply(s, SeeMessage(id)).value.queues[id]| == |s.queues[id]| - 1)
  {
  }

  /** With nothing to read, patience runs out. */
  lemma SilenceEnds(s: State, id: Id)
    requires IsStreaming(s, id) && s.queues[id] == []
    ensures var later := Apply(s, Tick(Patience(s.works[id].first) + s.works[id].since));
            later.Some? && Apply(later.value, TimeOut(id)).Some? && Ended(Apply(later.value, TimeOut(id)).value, id)
  {
  }

  lemma StreamingHasQueue(s: State, id: Id)
    requires InvAt(s, id) && id in s.works && s.works[id].Streaming?
    ensures IsStreaming(s, id)
  {
  }

  /**
   * However a run went, a streaming request needs nobody else to end: reading what has come, and at last waiting for as
   * long as its patience lasts, answers it within two steps more than it has messages waiting.
   */
  lemma {:induction false} StreamingEndsByItself(steps: seq<Step>, id: Id) returns (more: seq<Step>)
    requires Run(steps, |steps|).Some? && id in Run(steps, |steps|).value.works
    requires Run(steps, |steps|).value.works[id].Streaming?
    ensures id in Run(steps, |steps|).value.queues
    ensures |more| <= |Run(steps, |steps|).value.queues[id]| + 2
    ensures forall i :: 0 <= i < |more| ==> IsOwn(more[i], id)
    ensures Run(steps + more, |steps + more|).Some? && Ended(Run(steps + more, |steps + more|).value, id)
    decreases if id in Run(steps, |steps|).value.queues then |Run(steps, |steps|).value.queues[id]| else 0
  {
    hide Apply, InvAt, Ended;
    var s := Run(steps, |steps|).value;
    RunKeepsInv(steps, |steps|);
    assert InvAt(s, id);
    StreamingHasQueue(s, id);
    if s.queues[id] == [] {
      SilenceEnds(s, id);
      var wait := Tick(Patience(s.works[id].first) + s.works[id].since);
      RunOneMore(steps, wait);
      RunOneMore(steps + [wait], TimeOut(id));
      more := [wait, TimeOut(id)];
      assert steps + more == steps + [wait] + [TimeOut(id)];
    } else {
      ReadingShrinksQueue(s, id);
      RunOneMore(steps, SeeMessage(id));
      if Ended(Apply(s, SeeMessage(id)).value, id) {
        more := [SeeMessage(id)];
      } else {
        var rest := StreamingEndsByItself(steps + [SeeMessage(id)], id);
        more := [SeeMessage(id)] + rest;
        assert steps + more == steps + [SeeMessage(id)] + rest;
      }
    }
  }

  /** The select loop starts waiting anew: after the send, and after each message. */
  predicate StartsWaiting(step: Step, id: Id) {
    step == SendOk(id) || step == SeeMessage(id)
  }

  /** A streaming request has waited since the last time it started to, and for its first message if it read none. */
  predicate WaitsSince(steps: seq<Step>, k: nat, s: State, id: Id)
    requires k <= |steps|
  {
    id in s.works && s.works[id].Streaming? ==>
      && s.works[id].since <= s.clock
      && (forall j :: 0 <= j < k && StartsWaiting(steps[j], id) && Run(steps, j).Some? ==>
                        Run(steps, j).value.clock <= s.works[id].since)
      && (s.works[id].first ==> forall j :: 0 <= j < k ==> steps[j] != SeeMessage(id))
  }

  lemma ReadersKeepWorks(s: State, step: Step)
    requires Apply(s, step).Some? && (step.Take? || step.Deliver? || step.Disconnect?)
    ensures Apply(s, step).value.works == s.works && Apply(s, step).value.clock == s.clock
  {
  }

  lemma StepKeepsWaiting(s: State, step: Step, id: Id)
    requires Apply(s, step).Some? && id in Apply(s, step).value.works && Apply(s, step).value.works[id].Streaming?
    ensures id in s.works
    ensures s.clock <= Apply(s, step).value.clock
    ensures if StartsWaiting(step, id)
            then Apply(s, step).value.works[id].since == s.clock
                 && Apply(s, step).value.works[id].first == (step == SendOk(id))
                 && (step == SendOk(id) <==> s.works[id].Sending?)
            else s.works[id] == Apply(s, step).value.works[id]
  {
    hide WorkRouter.PickWork, PickControl, AfterPick, ApplyTake, ApplyDeliver, ApplyDisconnect;
    if step.Take? || step.Deliver? || step.Disconnect? {
      ReadersKeepWorks(s, step);
    }
  }

  /** Until it streams, a request has read nothing. */
  lemma {:induction false} NothingReadBefore(steps: seq<Step>, k: nat, id: Id)
    requires k <= |steps| && Run(steps, k).Some?
    requires id in Run(steps, k).value.works ==>
             Run(steps, k).value.works[id].Claimed? || Run(steps, k).value.works[id].Sending?
    ensures forall j :: 0 <= j < k ==> steps[j] != SeeMessage(id)
  {
    hide Apply;
    if k > 0 {
      ReadingComesLater(Run(steps, k - 1).value, steps[k - 1], id);
      NothingReadBefore(steps, k - 1, id);
    }
  }

  lemma ReadingComesLater(s: State, step: Step, id: Id)
    requires Apply(s, step).Some?
    requires id in Apply(s, step).value.works ==>
               Apply(s, step).value.works[id].Claimed? || Apply(s, step).value.works[id].Sending?
    ensures step != SeeMessage(id) && (id in s.works ==> s.works[id].Claimed? || s.works[id].Sending?)
  {
    hide WorkRouter.PickWork, PickControl, AfterPick, ApplyTake, ApplyDeliver, ApplyDisconnect;
    if step.Take? || step.Deliver? || step.Disconnect? {
      ReadersKeepWorks(s, step);
    }
  }

  lemma {:induction false} StreamsWaitSince(steps: seq<Step>, k: nat, id: Id)
    requires k <= |steps| && Run(steps, k).Some?
    ensures WaitsSince(steps, k, Run(steps, k).value, id)
    ensures forall j :: 0 <= j < k && Run(steps, j).Some? ==> Run(steps, j).value.clock <= Run(steps, k).value.clock
  {
    hide Apply;
    if k > 0 {
      var s, step := Run(steps, k - 1).value, steps[k - 1];
      StreamsWaitSince(steps, k - 1, id);
      ClockGoesOn(s, step);
      if id in Run(steps, k).value.works && Run(steps, k).value.works[id].Streaming? {
        StepKeepsWaiting(s, step, id);
        if step == SendOk(id) {
          NothingReadBefore(steps, k - 1, id);
        }
      }
    }
  }

  lemma ClockGoesOn(s: State, step: Step)
    requires Apply(s, step).Some?
    ensures s.clock <= Apply(s, step).value.clock
  {
    hide WorkRouter.PickWork, PickControl, AfterPick, Pushed;
  }

  /**
   * A request times out only in silence: three minutes after it last read anything, and twenty after it was sent if it
   * has read nothing at all.
   */
  lemma TimesOutInSilence(steps: seq<Step>, k: nat, j: nat, id: Id)
    requires j < k < |steps| && Run(steps, k).Some? && Run(steps, j).Some? && StartsWaiting(steps[j], id)
    requires steps[k] == TimeOut(id) && Apply(Run(steps, k).value, steps[k]).Some?
    ensures Run(steps, k).value.clock >= Run(steps, j).value.clock + 180
    ensures (forall i :: 0 <= i < k ==> steps[i] != SeeMessage(id)) ==>
              Run(steps, k).value.clock >= Run(steps, j).value.clock + 1200
  {
    hide Apply;
    StreamsWaitSince(steps, k, id);
    TimeOutIsDue(Run(steps, k).value, id);
    if forall i :: 0 <= i < k ==> steps[i] != SeeMessage(id) {
      FirstUntilRead(steps, k, id);
    }
  }

  /** A request times out exactly when it streams, has nothing to read, and twenty or three minutes have passed. */
  lemma TimeOutIsDue(s: State, id: Id)
    ensures Apply(s, TimeOut(id)).Some? <==>
            && IsStreaming(s, id) && s.queues[id] == []
            && s.clock >= s.works[id].since + if s.works[id].first then 1200 else 180
  {
  }

  lemma {:induction false} FirstUntilRead(steps: seq<Step>, k: nat, id: Id)
    requires k <= |steps| && Run(steps, k).Some? && forall i :: 0 <= i < k ==> steps[i] != SeeMessage(id)
    ensures id in Run(steps, k).value.works && Run(steps, k).value.works[id].Streaming? ==>
             Run(steps, k).value.works[id].first
  {
    hide Apply;
    if k > 0 {
      FirstUntilRead(steps, k - 1, id);
      if id in Run(steps, k).value.works && Run(steps, k).value.works[id].Streaming? {
        StepKeepsWaiting(Run(steps, k - 1).value, steps[k - 1], id);
      }
    }
  }

  /** The reader took this message for this request off the wire before. */
  predicate Arrived(steps: seq<Step>, k: nat, id: Id, msg: Msg)
    requires k <= |steps|
  {
    exists i :: 0 <= i < k && steps[i] == Take(id, msg)
  }

  lemma ArrivedStays(steps: seq<Step>, k: nat, id: Id, msg: Msg)
    requires k < |steps|
    ensures Arrived(steps, k, id, msg) || steps[k] == Take(id, msg) ==> Arrived(steps, k + 1, id, msg)
  {
  }

  predicate Reports(s: State, id: Id, msg: Msg) {
    || (id in s.held && s.held[id] == msg)
    || (id in s.queues && exists i :: 0 <= i < |s.queues[id]| && s.queues[id][i] == msg)
    || (Ended(s, id) && s.works[id].outcome.Finished? && msg == Result(s.works[id].outcome.output, None))
  }

  lemma SeeMessageMovesResults(s: State, seen: Id, id: Id, msg: Msg)
    requires ApplySeeMessage(s, seen).Some? && msg.Result? && Reports(ApplySeeMessage(s, seen).value, id, msg)
    ensures Reports(s, id, msg)
  {
    var after := ApplySeeMessage(s, seen).value;
    if seen == id {
      assert || s.queues[id][0] == msg
             || forall i :: 0 <= i < |after.queues[id]| ==> after.queues[id][i] == s.queues[id][i + 1];
    }
  }

  lemma DeliverMovesResults(s: State, delivered: Id, id: Id, msg: Msg)
    requires ApplyDeliver(s, delivered).Some? && msg.Result? && Reports(ApplyDeliver(s, delivered).value, id, msg)
    ensures Reports(s, id, msg)
  {
  }

  lemma DisconnectMovesResults(s: State, lost: Node, id: Id, msg: Msg)
    requires msg.Result? && Reports(ApplyDisconnect(s, lost).value, id, msg)
    ensures Reports(s, id, msg)
  {
  }

  lemma TakeMovesResults(s: State, taken: Id, frame: Msg, id: Id, msg: Msg)
    requires ApplyTake(s, taken, frame).Some? && msg.Result? && Reports(ApplyTake(s, taken, frame).value, id, msg)
    ensures Reports(s, id, msg) || (taken == id && frame == msg)
  {
  }

  lemma OwnStepsMoveNoResults(s: State, step: Step, id: Id, msg: Msg)
    requires ApplyOwn(s, step).Some? && msg.Result? && Reports(ApplyOwn(s, step).value, id, msg)
    ensures Reports(s, id, msg)
  {
  }

  lemma PicksMoveNoResults(s: State, step: Step, id: Id, msg: Msg)
    requires Apply(s, step).Some? && (step.PickWork? || step.PickHome?)
    requires msg.Result? && Reports(Apply(s, step).value, id, msg)
    ensures Reports(s, id, msg)
  {
    hide WorkRouter.PickWork, PickControl, AfterPick, ApplyHome, ApplyOwn, ApplyTake, ApplyDeliver, ApplyDisconnect,
      ApplySeeMessage;
  }

  lemma HomesMoveNoResults(s: State, step: Step, id: Id, msg: Msg)
    requires Apply(s, step).Some? && (step.Tick? || step.BeginHome? || step.EndHome?)
    requires msg.Result? && Reports(Apply(s, step).value, id, msg)
    ensures Reports(s, id, msg)
  {
    hide ApplyPickWork, ApplyPickHome, ApplyOwn, ApplyTake, ApplyDeliver, ApplyDisconnect, ApplySeeMessage;
  }

  /** A step moves a result on, or takes it off the wire; it makes none up. */
  lemma StepMovesResults(s: State, step: Step, id: Id, msg: Msg)
    requires Apply(s, step).Some? && msg.Result? && Reports(Apply(s, step).value, id, msg)
    ensures Reports(s, id, msg) || step == Take(id, msg)
  {
    hide Reports, ApplyTake, ApplyDeliver, ApplyDisconnect, ApplySeeMessage, ApplyOwn, ApplyHome, ApplyPickHome,
      ApplyPickWork;
    match step {
      case SeeMessage(seen) => SeeMessageMovesResults(s, seen, id, msg);
      case Take(taken, frame) => TakeMovesResults(s, taken, frame, id, msg);
      case Deliver(delivered) => DeliverMovesResults(s, delivered, id, msg);
      case Disconnect(lost) => DisconnectMovesResults(s, lost, id, msg);
      case Tick(_) => HomesMoveNoResults(s, step, id, msg);
      case PickWork(_, _, _, _, _) => PicksMoveNoResults(s, step, id, msg);
      case PickHome(_, _, _, _) => PicksMoveNoResults(s, step, id, msg);
      case BeginHome(_) => HomesMoveNoResults(s, step, id, msg);
      case EndHome(_) => HomesMoveNoResults(s, step, id, msg);
      case _ => OwnStepsMoveNoResults(s, step, id, msg);
    }
  }

  lemma {:induction false} ResultsComeFromTheWire(steps: seq<Step>, k: nat, id: Id, msg: Msg)
    requires k <= |steps| && Run(steps, k).Some? && msg.Result? && Reports(Run(steps, k).value, id, msg)
    ensures Arrived(steps, k, id, msg)
  {
    hide Apply, Reports, Arrived;
    if k > 0 {
      StepMovesResults(Run(steps, k - 1).value, steps[k - 1], id, msg);
      if Reports(Run(steps, k - 1).value, id, msg) {
        ResultsComeFromTheWire(steps, k - 1, id, msg);
      }
      ArrivedStays(steps, k - 1, id, msg);
    } else {
      NoReportsAtFirst(id, msg);
    }
  }

  lemma NoReportsAtFirst(id: Id, msg: Msg)
    ensures !Reports(INITIAL, id, msg)
  {
  }

  /** What a request is finished with, a machine reported for that very request and without an error. */
  lemma FinishedIsItsOwn(steps: seq<Step>, k: nat, id: Id)
    requires k <= |steps| && Run(steps, k).Some? && Ended(Run(steps, k).value, id)
    requires Run(steps, k).value.works[id].outcome.Finished?
    ensures Arrived(steps, k, id, Result(Run(steps, k).value.works[id].outcome.output, None))
  {
    hide Apply, Arrived;
    ResultsComeFromTheWire(steps, k, id, Result(Run(steps, k).value.works[id].outcome.output, None));
  }

  /** The step picks a home command's machine and pauses this request for it. */
  predicate Pauses(s: State, step: Step, id: Id) {
    && step.PickHome? && IsNew(s, step.id)
    && PickControl(s.claims, step.roles, step.cands, step.requested).Some?
    && id in PickControl(s.claims, step.roles, step.cands, step.requested).value.preempt
  }

  lemma StepPauses(s: State, step: Step, id: Id)
    requires Apply(s, step).Some? && id in Apply(s, step).value.paused
    ensures id in s.paused || Pauses(s, step, id)
  {
    hide WorkRouter.PickWork, PickControl, AfterPick, Pushed;
  }

  lemma {:induction false} PausedByAPick(steps: seq<Step>, k: nat, id: Id)
    requires k <= |steps| && Run(steps, k).Some? && id in Run(steps, k).value.paused
    ensures exists i :: 0 <= i < k && Run(steps, i).Some? && Pauses(Run(steps, i).value, steps[i], id)
  {
    hide Apply, Pauses;
    if k > 0 {
      var s := Run(steps, k - 1).value;
      StepPauses(s, steps[k - 1], id);
      if id in s.paused {
        PausedByAPick(steps, k - 1, id);
      } else {
        assert Run(steps, k - 1).Some? && Pauses(Run(steps, k - 1).value, steps[k - 1], id);
      }
    }
  }

  /**
   * Work is reported as preempted only when some home command paused it, and that home command had nowhere else to
   * go: every machine it could use was busy.
   */
  lemma PreemptedForAReason(steps: seq<Step>, k: nat, id: Id) returns (i: nat)
    requires k <= |steps| && Run(steps, k).Some?
    requires Ended(Run(steps, k).value, id) && Run(steps, k).value.works[id].outcome == Preempted
    ensures i < k && Run(steps, i).Some? && Pauses(Run(steps, i).value, steps[i], id)
    ensures forall c :: IsUsable(steps[i].roles, steps[i].cands, steps[i].requested, c) ==>
                          Run(steps, i).value.claims.Busy(c.node)
  {
    RunKeepsInv(steps, k);
    assert InvAt(Run(steps, k).value, id);
    PausedByAPick(steps, k, id);
    i :| 0 <= i < k && Run(steps, i).Some? && Pauses(Run(steps, i).value, steps[i], id);
    var claims, step := Run(steps, i).value.claims, steps[i];
    PickPausesWork(claims, step.roles, step.cands, step.requested);
    ControlPickIsBest(claims, step.roles, step.cands, step.requested);
    var pick := PickControl(claims, step.roles, step.cands, step.requested).value;
    assert claims.Busy(pick.target.node);
    hide PickControl;
    assert Rank(claims, pick.target.node) >= 1;
  }

  /** Why a request ends, whichever step ends it. */
  lemma EndsForItsReason(s: State, step: Step, id: Id)
    requires Apply(s, step).Some? && !Ended(s, id) && Ended(Apply(s, step).value, id)
    ensures match Apply(s, step).value.works[id].outcome
            case NoWorker => step == NotConnected(id) || (step.PickWork? && step.id == id)
            case Preempted => step == SeePause(id) && id in s.paused
            case Finished(output) => ReadsNext(s, step, id, Result(output, None))
            case Failed(Said(text)) =>
              || ReadsNext(s, step, id, Error(text))
              || (id in s.queues && s.queues[id] != [] && s.queues[id][0].Result?
                  && ReadsNext(s, step, id, Result(s.queues[id][0].output, Some(text))))
            case Failed(Unsent) => step == SendFail(id)
            case Failed(Closed) =>
              step == SeeClosed(id) && id in s.queues && s.queues[id] == [] && id !in s.streams && id !in s.held
            case Failed(Silent) => step == TimeOut(id)
  {
    hide WorkRouter.PickWork, PickControl, AfterPick, ApplyTake, ApplyDeliver, ApplyDisconnect, ApplySeeMessage;
    if step.Take? || step.Deliver? || step.Disconnect? {
      ReadersKeepWorks(s, step);
    } else if step.SeeMessage? {
      ReadingEnds(s, step.id, id);
    }
  }

  lemma ReadingEnds(s: State, seen: Id, id: Id)
    requires ApplySeeMessage(s, seen).Some?
    ensures var after := ApplySeeMessage(s, seen).value;
            if seen == id && id in s.queues && s.queues[id] != [] && !s.queues[id][0].Chunk?
            then after.works == s.works[id := Replying(ResultOutcome(s.queues[id][0]))]
            else !Ended(s, id) ==> !Ended(after, id)
  {
  }

  predicate ReadsNext(s: State, step: Step, id: Id, msg: Msg) {
    step == SeeMessage(id) && id in s.queues && s.queues[id] != [] && s.queues[id][0] == msg
  }

  // ---------- the stream of a request ----------

  /** The request still listens, and fewer than 256 messages wait for it. */
  predicate HasRoom(s: State, id: Id) {
    id in s.works && !s.works[id].Over? && id in s.queues && |s.queues[id]| < 256
  }

  predicate IsLost(s: State, step: Step, id: Id) {
    step.Disconnect? && id in s.streams && s.streams[id] == step.lost
  }

  /** What a reader sends to a request in a step. */
  function SentIn(s: State, step: Step, id: Id): (msgs: seq<Msg>) {
    if step == Deliver(id) && id in s.held then [s.held[id]]
    else if IsLost(s, step, id) then [Error(step.lost)]
    else []
  }

  /** What the request reads in a step. */
  function ReadIn(s: State, step: Step, id: Id): (msgs: seq<Msg>) {
    if step == SeeMessage(id) && id in s.queues && s.queues[id] != [] then [s.queues[id][0]] else []
  }

  /** What readers sent to a request in the first `k` steps, in order. */
  function Delivered(steps: seq<Step>, k: nat, id: Id): (msgs: seq<Msg>)
    requires k <= |steps|
  {
    if k == 0 || Run(steps, k - 1).None? then []
    else Delivered(steps, k - 1, id) + SentIn(Run(steps, k - 1).value, steps[k - 1], id)
  }

  /** What the request read in the first `k` steps, in order. */
  function ReadBy(steps: seq<Step>, k: nat, id: Id): (msgs: seq<Msg>)
    requires k <= |steps|
  {
    if k == 0 || Run(steps, k - 1).None? then []
    else ReadBy(steps, k - 1, id) + ReadIn(Run(steps, k - 1).value, steps[k - 1], id)
  }

  predicate SendsTo(s: State, step: Step, id: Id) {
    step == Deliver(id) || IsLost(s, step, id)
  }

  lemma MessageStepsMoveQueues(s: State, step: Step, id: Id)
    requires Apply(s, step).Some? && InvAt(s, id)
    requires step.SeeMessage? || step.Take? || step.Deliver? || step.Disconnect?
    ensures var after := Apply(s, step).value;
            && (id in s.queues <==> id in after.queues)
            && (id !in s.queues ==> step != SeeMessage(id) && !SendsTo(s, step, id))
            && (id in s.queues && SendsTo(s, step, id) && HasRoom(s, id) ==>
                  after.queues[id] == s.queues[id] + [if step == Deliver(id) then s.held[id] else Error(step.lost)])
            && (id in s.queues && SendsTo(s, step, id) && !HasRoom(s, id) ==> after.queues[id] == s.queues[id])
            && (id in s.queues && step == SeeMessage(id) ==>
                  s.queues[id] != [] && after.queues[id] == s.queues[id][1..])
            && (id in s.queues && step != SeeMessage(id) && !SendsTo(s, step, id) ==> after.queues[id] == s.queues[id])
            && (step == Deliver(id) ==> id in s.held)
  {
  }

  lemma OtherStepsKeepQueues(s: State, step: Step, id: Id)
    requires Apply(s, step).Some? && InvAt(s, id)
    requires !(step.SeeMessage? || step.Take? || step.Deliver? || step.Disconnect?)
    ensures var after := Apply(s, step).value;
            if step == Register(id) then id !in s.queues && id in after.queues && after.queues[id] == []
            else (id in s.queues <==> id in after.queues) && (id in s.queues ==> after.queues[id] == s.queues[id])
  {
    hide WorkRouter.PickWork, PickControl, AfterPick, ApplyTake, ApplyDeliver, ApplyDisconnect, ApplySeeMessage;
  }

  lemma QueueBalances(s: State, step: Step, id: Id)
    requires Apply(s, step).Some? && InvAt(s, id) && (SendsTo(s, step, id) ==> HasRoom(s, id))
    ensures var after := Apply(s, step).value;
            && (id in s.queues ==>
                  id in after.queues && ReadIn(s, step, id) + after.queues[id] == s.queues[id] + SentIn(s, step, id))
            && (id !in s.queues ==>
                  && ReadIn(s, step, id) == [] && SentIn(s, step, id) == []
                  && (id in after.queues ==> after.queues[id] == []))
  {
    hide Apply, InvAt;
    if step.SeeMessage? || step.Take? || step.Deliver? || step.Disconnect? {
      MessageStepsMoveQueues(s, step, id);
      if id in s.queues && step == SeeMessage(id) {
        assert s.queues[id] == [s.queues[id][0]] + s.queues[id][1..];
      }
    } else {
      OtherStepsKeepQueues(s, step, id);
    }
  }

  /** While there is room, a request reads what is sent to it: everything, once, in order. */
  lemma {:induction false} StreamsKeepOrder(steps: seq<Step>, k: nat, id: Id)
    requires k <= |steps| && Run(steps, k).Some?
    requires forall j :: 0 <= j < k && Run(steps, j).Some? && SendsTo(Run(steps, j).value, steps[j], id) ==>
                           HasRoom(Run(steps, j).value, id)
    ensures if id in Run(steps, k).value.queues
            then ReadBy(steps, k, id) + Run(steps, k).value.queues[id] == Delivered(steps, k, id)
            else ReadBy(steps, k, id) == [] && Delivered(steps, k, id) == []
  {
    hide Apply, InvAt, HasRoom, SendsTo, ReadIn, SentIn;
    if k > 0 {
      var s, step, after := Run(steps, k - 1).value, steps[k - 1], Run(steps, k).value;
      StreamsKeepOrder(steps, k - 1, id);
      RunKeepsInv(steps, k - 1);
      assert InvAt(s, id);
      QueueBalances(s, step, id);
      if id in s.queues {
        var read, sent := ReadBy(steps, k - 1, id), Delivered(steps, k - 1, id);
        assert read + ReadIn(s, step, id) + after.queues[id] == read + (ReadIn(s, step, id) + after.queues[id]);
        assert read + (s.queues[id] + SentIn(s, step, id)) == sent + SentIn(s, step, id);
      }
    }
  }

  /** Without room a message is dropped; a chunk's stream is then given up, and its machine told to stop. */
  lemma FullStreamsAreStopped(s: State, id: Id)
    requires Apply(s, Deliver(id)).Some?
    ensures var after := Apply(s, Deliver(id)).value;
            && id in s.held && id !in after.held
            && (if s.held[id].Chunk? && !HasRoom(s, id)
                then after.streams == s.streams - {id} && after.cancelled == s.cancelled + {id}
                else after.streams == s.streams && after.cancelled == s.cancelled)
  {
  }

  /** Readers hold one message for a request at a time; a result takes its entry with it, a chunk needs one. */
  lemma ReadersTakeOneAtATime(s: State, id: Id, msg: Msg)
    ensures Apply(s, Take(id, msg)).Some? <==> !msg.Error? && id !in s.held
    ensures Apply(s, Take(id, msg)).Some? ==>
              var after := Apply(s, Take(id, msg)).value;
              if id !in s.streams then after.held == s.held && (msg.Chunk? ==> id in after.cancelled)
              else after.held == s.held[id := msg] && (id in after.streams <==> msg.Chunk?)
  {
  }

  // ---------- home commands and the clock ----------

  /** A home command that was picked can always end, in flight or not, once, and then holds no machine. */
  lemma HomeCommandsCanEnd(s: State, id: Id)
    ensures Apply(s, EndHome(id)).Some? <==> id in s.homes && (s.homes[id].OnItsWay? || s.homes[id].Running?)
    ensures Apply(s, EndHome(id)).Some? ==>
              var after := Apply(s, EndHome(id)).value;
              id in after.homes && after.homes[id] == Answered && id !in after.claims.inFlight
  {
  }

  /** The seconds that passed in the first `k` steps. */
  function Elapsed(steps: seq<Step>, k: nat): (seconds: nat)
    requires k <= |steps|
  {
    if k == 0 then 0 else Elapsed(steps, k - 1) + if steps[k - 1].Tick? then steps[k - 1].seconds else 0
  }

  lemma OnlyTicksTakeTime(s: State, step: Step)
    requires Apply(s, step).Some?
    ensures Apply(s, step).value.clock == s.clock + if step.Tick? then step.seconds else 0
  {
    hide WorkRouter.PickWork, PickControl, AfterPick, ApplyTake, ApplyDeliver, ApplyDisconnect;
    if step.Take? || step.Deliver? || step.Disconnect? {
      ReadersKeepWorks(s, step);
    }
  }

  lemma {:induction false} ClockCountsSeconds(steps: seq<Step>, k: nat)
    requires k <= |steps| && Run(steps, k).Some?
    ensures Run(steps, k).value.clock == Elapsed(steps, k)
  {
    hide Apply;
    if k > 0 {
      ClockCountsSeconds(steps, k - 1);
      OnlyTicksTakeTime(Run(steps, k - 1).value, steps[k - 1]);
    }
  }

  // ---------- the rest after a pause ----------

  predicate RestsUntil(s: State, n: Node, t: nat) {
    n in s.claims.restUntil && s.claims.restUntil[n] >= t
  }

  predicate RestIsBounded(s: State, n: Node) {
    n in s.claims.restUntil ==> s.claims.restUntil[n] <= s.clock + 30
  }

  lemma StepKeepsRest(s: State, step: Step, n: Node, t: nat)
    requires Apply(s, step).Some? && RestIsBounded(s, n)
    ensures RestIsBounded(Apply(s, step).value, n) && Apply(s, step).value.clock >= s.clock
    ensures RestsUntil(s, n, t) && t <= s.clock + REST_AFTER_PREEMPT ==> RestsUntil(Apply(s, step).value, n, t)
  {
    hide WorkRouter.PickWork, PickControl, Pushed, ApplyTake, ApplyDeliver, ApplyDisconnect, ApplySeeMessage;
    if step.SeeMessage? || step.Take? || step.Deliver? || step.Disconnect? {
      MessagesClaimNothing(s, step);
    }
  }

  lemma {:induction false} RestStays(steps: seq<Step>, j: nat, k: nat, n: Node, t: nat)
    requires j <= k <= |steps| && Run(steps, j).Some? && Run(steps, k).Some?
    ensures RestIsBounded(Run(steps, k).value, n) && Run(steps, j).value.clock <= Run(steps, k).value.clock
    ensures RestsUntil(Run(steps, j).value, n, t) && t <= Run(steps, j).value.clock + REST_AFTER_PREEMPT ==>
              RestsUntil(Run(steps, k).value, n, t)
    decreases k
  {
    hide Apply, RestsUntil, RestIsBounded;
    if j < k {
      RestStays(steps, j, k - 1, n, t);
      StepKeepsRest(Run(steps, k - 1).value, steps[k - 1], n, t);
    } else if k > 0 {
      RestStays(steps, k - 1, k - 1, n, t);
      StepKeepsRest(Run(steps, k - 1).value, steps[k - 1], n, t);
    } else {
      RestsAtFirst(n);
    }
  }

  lemma RestsAtFirst(n: Node)
    ensures RestIsBounded(INITIAL, n)
  {
  }

  /** The step claims machine `n` for review work. */
  predicate StartsWork(s: State, step: Step, n: Node) {
    step.PickWork? && IsNew(s, step.id) && PickOf(s, step).Some? && PickOf(s, step).value.node == n
  }

  function PickOf(s: State, step: Step): (target: Option<Candidate>)
    requires step.PickWork?
  {
    WorkRouter.PickWork(s.claims, step.roles, step.cands, step.node, step.model, s.clock)
  }

  lemma PausingRests(s: State, step: Step, id: Id)
    requires Apply(s, step).Some? && Pauses(s, step, id)
    ensures var n := PickControl(s.claims, step.roles, step.cands, step.requested).value.target.node;
            RestsUntil(Apply(s, step).value, n, s.clock + REST_AFTER_PREEMPT) && Apply(s, step).value.clock == s.clock
  {
    hide PickControl;
    PickPausesWork(s.claims, step.roles, step.cands, step.requested);
  }

  /** After a home command paused work on a machine, no review work starts there for thirty seconds. */
  lemma RestIsHonoured(steps: seq<Step>, j: nat, k: nat, id: Id)
    requires j < k < |steps| && Run(steps, j).Some? && Run(steps, k).Some? && Pauses(Run(steps, j).value, steps[j], id)
    requires var pick := PickControl(Run(steps, j).value.claims, steps[j].roles, steps[j].cands, steps[j].requested);
             StartsWork(Run(steps, k).value, steps[k], pick.value.target.node)
    ensures Run(steps, k).value.clock >= Run(steps, j).value.clock + 30
  {
    hide Apply, PickControl, WorkRouter.PickWork;
    var s, step, next := Run(steps, j).value, steps[j], j + 1;
    RunIsClosed(steps, next, k);
    PausingRests(s, step, id);
    var n := PickControl(s.claims, step.roles, step.cands, step.requested).value.target.node;
    RestStays(steps, next, k, n, s.clock + REST_AFTER_PREEMPT);
    var late, last := Run(steps, k).value, steps[k];
    WorkPickIsBest(late.claims, last.roles, last.cands, last.node, last.model, late.clock);
  }

  lemma {:induction false} RunIsClosed(steps: seq<Step>, j: nat, k: nat)
    requires j <= k <= |steps| && Run(steps, k).Some?
    ensures Run(steps, j).Some?
    decreases k
  {
    hide Apply;
    if j < k {
      RunIsClosed(steps, j, k - 1);
    }
  }

  // ---------- home commands and review work on one machine ----------

  /** Review work starts on a machine that a home command is already on its way to. */
  predicate CutsIn(s: State, step: Step, c: Id, n: Node) {
    StartsWork(s, step, n) && c in s.homes && s.homes[c].OnItsWay? && s.homes[c].node == n
  }

  /** Neither in flight nor on its way to the machine where this work is. */
  predicate Apart(s: State, c: Id, w: Id) {
    w in s.claims.inFlight && s.claims.inFlight[w].class_ == Work ==>
      && !(c in s.claims.inFlight && s.claims.inFlight[c] == Claim(s.claims.inFlight[w].node, Control))
      && !(c in s.homes && s.homes[c].OnItsWay? && s.homes[c].node == s.claims.inFlight[w].node)
  }

  ghost predicate AllApart(s: State, w: Id) {
    forall c :: Apart(s, c, w)
  }

  predicate IsWorkOn(s: State, w: Id, n: Node) {
    w in s.claims.inFlight && s.claims.inFlight[w] == Claim(n, Work)
  }

  /** Step `j` is this very work's pick, and it cut in on a home command's way to machine `n`. */
  predicate IsCutBy(steps: seq<Step>, j: nat, w: Id, n: Node, d: Id) {
    && j < |steps| && Run(steps, j).Some? && steps[j].PickWork? && steps[j].id == w
    && CutsIn(Run(steps, j).value, steps[j], d, n)
  }

  ghost predicate HasCutIn(steps: seq<Step>, k: nat, w: Id, n: Node) {
    exists j: nat, d :: j < k && IsCutBy(steps, j, w, n, d)
  }

  lemma ApartAt(s: State, c: Id, w: Id)
    requires AllApart(s, w)
    ensures Apart(s, c, w)
  {
  }

  lemma BusyByClaim(claims: Claims, id: Id, n: Node)
    ensures id in claims.inFlight && claims.inFlight[id].node == n ==> claims.Busy(n)
  {
  }

  lemma NoWorkBesideHome(s: State, n: Node, w: Id)
    requires AllApart(s, w) && s.claims.BusyWith(n, Control)
    ensures !IsWorkOn(s, w, n)
  {
    var c :| c in s.claims.inFlight && s.claims.inFlight[c] == Claim(n, Control);
    assert Apart(s, c, w);
  }

  /**
   * A home command is never sent to a machine that still has review work, unless work already sits beside one there.
   */
  lemma HomePickLandsClear(s: State, step: Step, w: Id)
    requires step.PickHome? && AllApart(s, w) && PickControl(s.claims, step.roles, step.cands, step.requested).Some?
    ensures var pick := PickControl(s.claims, step.roles, step.cands, step.requested).value;
            w !in AfterPick(s.claims, pick, s.clock).WorkOn(pick.target.node)
  {
    PickLeavesNoWork(s.claims, step.roles, step.cands, step.requested, s.clock);
    hide PickControl;
    var pick := PickControl(s.claims, step.roles, step.cands, step.requested).value;
    var after, n := AfterPick(s.claims, pick, s.clock), pick.target.node;
    if s.claims.BusyWith(n, Control) {
      NoWorkBesideHome(s, n, w);
      assert w in after.inFlight ==> w in s.claims.inFlight && after.inFlight[w] == s.claims.inFlight[w];
    }
  }

  lemma PickHomeKeepsApart(s: State, step: Step, c: Id, w: Id)
    requires step.PickHome? && ApplyPickHome(s, step).Some? && AllApart(s, w)
    ensures Apart(ApplyPickHome(s, step).value, c, w)
  {
    hide PickControl, AllApart;
    ApartAt(s, c, w);
    var picked := PickControl(s.claims, step.roles, step.cands, step.requested);
    if picked.Some? {
      HomePickLandsClear(s, step, w);
      var after := AfterPick(s.claims, picked.value, s.clock).inFlight;
      assert forall id :: id in after ==> id in s.claims.inFlight && after[id] == s.claims.inFlight[id];
    }
  }

  lemma OtherPicksKeepApart(s: State, step: Step, c: Id, w: Id)
    requires step.PickWork? && step.id != w && ApplyPickWork(s, step).Some? && Apart(s, c, w)
    ensures Apart(ApplyPickWork(s, step).value, c, w)
  {
    hide WorkRouter.PickWork;
  }

  lemma OtherStepsKeepApart(s: State, step: Step, c: Id, w: Id)
    requires !step.PickHome? && !step.PickWork? && Apply(s, step).Some? && Apart(s, c, w)
    ensures Apart(Apply(s, step).value, c, w)
  {
    hide ApplyPickHome, ApplyPickWork;
    if step.SeeMessage? || step.Take? || step.Deliver? || step.Disconnect? {
      MessagesClaimNothing(s, step);
    }
  }

  /** Work that no home command is beside stays so, but for its own pick. */
  lemma StepKeepsApart(s: State, step: Step, w: Id)
    requires Apply(s, step).Some? && AllApart(s, w) && !(step.PickWork? && step.id == w)
    ensures AllApart(Apply(s, step).value, w)
  {
    hide ApplyPickHome, ApplyPickWork, ApplyHome, ApplyOwn, ApplyTake, ApplyDeliver, ApplyDisconnect, ApplySeeMessage,
      Apart;
    forall c
      ensures Apart(Apply(s, step).value, c, w)
    {
      assert Apart(s, c, w);
      if step.PickHome? {
        PickHomeKeepsApart(s, step, c, w);
      } else if step.PickWork? {
        OtherPicksKeepApart(s, step, c, w);
      } else {
        OtherStepsKeepApart(s, step, c, w);
      }
    }
  }

  /** Work's own pick lands where no home command is in flight; where none is on its way either, it lands alone. */
  lemma OwnPickLandsApart(s: State, step: Step, c: Id, n: Node)
    requires step.PickWork? && ApplyPickWork(s, step).Some? && Inv(s)
    requires IsWorkOn(ApplyPickWork(s, step).value, step.id, n)
    ensures Apart(ApplyPickWork(s, step).value, c, step.id) || CutsIn(s, step, c, n)
  {
    hide WorkRouter.PickWork;
    assert InvAt(s, step.id);
    WorkPickIsBest(s.claims, step.roles, step.cands, step.node, step.model, s.clock);
    BusyByClaim(s.claims, c, n);
  }

  /** A claim in flight is an old one, or this step's own. */
  lemma ClaimIsOldOrPicked(s: State, step: Step, w: Id, n: Node)
    requires Apply(s, step).Some? && Inv(s) && IsWorkOn(Apply(s, step).value, w, n)
    ensures IsWorkOn(s, w, n) || (step.PickWork? && step.id == w && StartsWork(s, step, n))
  {
    hide WorkRouter.PickWork, PickControl;
    assert InvAt(s, w);
    if step.SeeMessage? || step.Take? || step.Deliver? || step.Disconnect? {
      MessagesClaimNothing(s, step);
    }
    hide ApplyTake, ApplyDeliver, ApplyDisconnect, ApplySeeMessage;
  }

  /** Review work stands apart from every home command, or its own pick had cut in. */
  lemma {:induction false} ApartUnlessCut(steps: seq<Step>, k: nat, w: Id, n: Node)
    requires k <= |steps| && Run(steps, k).Some? && IsWorkOn(Run(steps, k).value, w, n)
    ensures AllApart(Run(steps, k).value, w) || HasCutIn(steps, k, w, n)
  {
    hide Apply, CutsIn, Apart, AllApart, Inv, IsCutBy, IsWorkOn;
    if k > 0 {
      var s, step := Run(steps, k - 1).value, steps[k - 1];
      RunKeepsInv(steps, k - 1);
      ClaimIsOldOrPicked(s, step, w, n);
      if step.PickWork? && step.id == w {
        PickLandsApartOrCuts(steps, k - 1, w, n);
      } else {
        ApartUnlessCut(steps, k - 1, w, n);
        if AllApart(s, w) {
          StepKeepsApart(s, step, w);
        }
      }
    } else {
      NothingClaimedAtFirst(w, n);
    }
  }

  lemma NothingClaimedAtFirst(w: Id, n: Node)
    ensures !IsWorkOn(INITIAL, w, n)
  {
  }

  lemma PickLandsApartOrCuts(steps: seq<Step>, j: nat, w: Id, n: Node)
    requires j < |steps| && Run(steps, j).Some? && Inv(Run(steps, j).value)
    requires Apply(Run(steps, j).value, steps[j]).Some?
    requires steps[j].PickWork? && steps[j].id == w && IsWorkOn(Apply(Run(steps, j).value, steps[j]).value, w, n)
    ensures AllApart(Apply(Run(steps, j).value, steps[j]).value, w) || exists d :: IsCutBy(steps, j, w, n, d)
  {
    hide ApplyPickWork, Apart, CutsIn, Inv, IsWorkOn;
    var s, step := Run(steps, j).value, steps[j];
    forall c | !CutsIn(s, step, c, n)
      ensures Apart(Apply(s, step).value, c, w)
    {
      OwnPickLandsApart(s, step, c, n);
    }
    if c :| CutsIn(s, step, c, n) {
      assert IsCutBy(steps, j, w, n, c);
    }
  }

  /** Two requests of different classes in flight on one machine. */
  predicate Share(s: State, c: Id, w: Id) {
    && c in s.claims.inFlight && w in s.claims.inFlight
    && s.claims.inFlight[c].class_ == Control && s.claims.inFlight[w].class_ == Work
    && s.claims.inFlight[c].node == s.claims.inFlight[w].node
  }

  lemma ApartIsNoSharing(s: State, c: Id, w: Id)
    requires AllApart(s, w)
    ensures !Share(s, c, w)
  {
    assert Apart(s, c, w);
  }

  /** Where a home command and review work share a machine, that work's own pick of that machine had cut in. */
  lemma SharingNeedsACut(steps: seq<Step>, k: nat, c: Id, w: Id)
    requires k <= |steps| && Run(steps, k).Some? && Share(Run(steps, k).value, c, w)
    ensures HasCutIn(steps, k, w, Run(steps, k).value.claims.inFlight[w].node)
  {
    hide Apply, HasCutIn;
    var s := Run(steps, k).value;
    ApartUnlessCut(steps, k, w, s.claims.inFlight[w].node);
    if AllApart(s, w) {
      ApartIsNoSharing(s, c, w);
    }
  }

  // ---------- the exact condition when a home command begins ----------

  lemma StepKeepsWork(s: State, step: Step, w: Id)
    requires Apply(s, step).Some? && w in s.works
    ensures w in Apply(s, step).value.works
  {
    hide WorkRouter.PickWork, PickControl, AfterPick, Pushed;
  }

  /** Once picked, work is in flight on the machine it picked or not at all. */
  lemma {:induction false} WorkStaysWhereItStarted(steps: seq<Step>, j: nat, k: nat, n: Node)
    requires j < k <= |steps| && Run(steps, j).Some? && Run(steps, k).Some?
    requires steps[j].PickWork? && StartsWork(Run(steps, j).value, steps[j], n)
    ensures var w, s := steps[j].id, Run(steps, k).value;
            w in s.works && (w in s.claims.inFlight ==> s.claims.inFlight[w] == Claim(n, Work))
    decreases k
  {
    hide Apply, StartsWork, Inv;
    var s, w := Run(steps, k - 1).value, steps[j].id;
    RunKeepsInv(steps, k - 1);
    if j < k - 1 {
      WorkStaysWhereItStarted(steps, j, k - 1, n);
      StepKeepsWork(s, steps[k - 1], w);
      StepKeepsClaim(s, steps[k - 1], w);
    } else {
      StartedWorkIsThere(s, steps[j], n);
    }
  }

  lemma StartedWorkIsThere(s: State, step: Step, n: Node)
    requires StartsWork(s, step, n) && Apply(s, step).Some?
    ensures step.id in Apply(s, step).value.works
    ensures step.id in Apply(s, step).value.claims.inFlight
         && Apply(s, step).value.claims.inFlight[step.id] == Claim(n, Work)
  {
    hide WorkRouter.PickWork;
  }

  lemma StepKeepsClaim(s: State, step: Step, w: Id)
    requires Apply(s, step).Some? && Inv(s) && w in s.works
    ensures w in Apply(s, step).value.claims.inFlight ==>
              w in s.claims.inFlight && Apply(s, step).value.claims.inFlight[w] == s.claims.inFlight[w]
  {
    hide Apply;
    assert InvAt(s, w);
    ClaimsAfter(s, step);
    AdmittedIsNoWork(s, step, w);
  }

  lemma AdmittedIsNoWork(s: State, step: Step, w: Id)
    requires Apply(s, step).Some? && InvAt(s, w) && w in s.works
    ensures forall claim :: !IsAdmitted(s, step, w, claim)
  {
  }

  /** A home command that is still on its way is on the way it was picked for. */
  lemma {:induction false} HomeStaysOnItsWay(steps: seq<Step>, j: nat, k: nat, d: Id)
    requires j <= k <= |steps| && Run(steps, j).Some? && Run(steps, k).Some? && d in Run(steps, j).value.homes
    ensures d in Run(steps, k).value.homes
    ensures Run(steps, k).value.homes[d].OnItsWay? ==> Run(steps, k).value.homes[d] == Run(steps, j).value.homes[d]
    decreases k
  {
    hide Apply;
    if j < k {
      HomeStaysOnItsWay(steps, j, k - 1, d);
      StepKeepsHome(Run(steps, k - 1).value, steps[k - 1], d);
    }
  }

  lemma StepKeepsHome(s: State, step: Step, d: Id)
    requires Apply(s, step).Some? && d in s.homes
    ensures d in Apply(s, step).value.homes
    ensures Apply(s, step).value.homes[d].OnItsWay? ==> Apply(s, step).value.homes[d] == s.homes[d]
  {
    hide WorkRouter.PickWork, PickControl, AfterPick, Pushed;
  }

  lemma BeginningShares(s: State, c: Id, w: Id)
    requires Apply(s, BeginHome(c)).Some? && Inv(s)
    ensures c in s.homes && s.homes[c].OnItsWay?
    ensures Share(Apply(s, BeginHome(c)).value, c, w) <==> IsWorkOn(s, w, s.homes[c].node)
    ensures IsWorkOn(s, w, s.homes[c].node) ==> IsWorkOn(Apply(s, BeginHome(c)).value, w, s.homes[c].node)
  {
    assert InvAt(s, w) && InvAt(s, c);
  }

  /**
   * Exactly when a home command begins beside review work: the work is still in flight, and its own pick had cut in
   * on some home command's way to that machine.
   */
  lemma SharesIffWorkCutIn(steps: seq<Step>, l: nat, c: Id, w: Id)
    requires l < |steps| && Run(steps, l).Some? && Run(steps, l + 1).Some? && steps[l] == BeginHome(c)
    ensures c in Run(steps, l).value.homes && Run(steps, l).value.homes[c].OnItsWay?
    ensures Share(Run(steps, l + 1).value, c, w) <==>
            w in Run(steps, l).value.claims.inFlight && HasCutIn(steps, l, w, Run(steps, l).value.homes[c].node)
  {
    hide Apply, Inv, IsCutBy, IsWorkOn, Share;
    var s := Run(steps, l).value;
    RunKeepsInv(steps, l);
    BeginningShares(s, c, w);
    var n := s.homes[c].node;
    if IsWorkOn(s, w, n) {
      ApartUnlessCut(steps, l, w, n);
      if AllApart(s, w) {
        OnItsWayIsBeside(s, c, w);
      }
      WorkIsInFlight(s, w, n);
    }
    if j: nat, d :| j < l && IsCutBy(steps, j, w, n, d) {
      CutStartsWork(steps, j, w, n, d);
      WorkStaysWhereItStarted(steps, j, l, n);
      if w in s.claims.inFlight {
        ClaimIsWork(s, w, n);
      }
    }
  }

  lemma OnItsWayIsBeside(s: State, c: Id, w: Id)
    requires AllApart(s, w) && c in s.homes && s.homes[c].OnItsWay?
    ensures !IsWorkOn(s, w, s.homes[c].node)
  {
    assert Apart(s, c, w);
  }

  lemma WorkIsInFlight(s: State, w: Id, n: Node)
    requires IsWorkOn(s, w, n)
    ensures w in s.claims.inFlight
  {
  }

  lemma ClaimIsWork(s: State, w: Id, n: Node)
    requires w in s.claims.inFlight && s.claims.inFlight[w] == Claim(n, Work)
    ensures IsWorkOn(s, w, n)
  {
  }

  lemma CutStartsWork(steps: seq<Step>, j: nat, w: Id, n: Node, d: Id)
    requires IsCutBy(steps, j, w, n, d)
    ensures j < |steps| && Run(steps, j).Some? && steps[j].PickWork? && steps[j].id == w
    ensures StartsWork(Run(steps, j).value, steps[j], n)
  {
    hide Apply;
  }

  /** Work that cut in on a home command is beside it when it begins, unless the work has left its machine by then. */
  lemma CutLeadsToSharing(steps: seq<Step>, j: nat, l: nat, w: Id, n: Node, d: Id)
    requires IsCutBy(steps, j, w, n, d) && j < l < |steps| && steps[l] == BeginHome(d)
    requires Run(steps, l).Some? && Run(steps, l + 1).Some?
    ensures Share(Run(steps, l + 1).value, d, w) <==> w in Run(steps, l).value.claims.inFlight
  {
    var home := Run(steps, j).value.homes[d];
    hide Apply, Share;
    HomeStaysOnItsWay(steps, j, l, d);
    SharesIffWorkCutIn(steps, l, d, w);
    assert Run(steps, l).value.homes[d].node == n;
  }

  const MAC1: Candidate := Candidate("mac1", "coder", 1)
  const ANY_MODEL: ModelRoles := ModelRoles([], [])

  lemma OneMachineIsPicked()
    ensures var claims := Claims(map[], map[]);
            && PickControl(claims, ANY_MODEL, [MAC1], None) == Some(ControlPick(MAC1, {}))
            && WorkRouter.PickWork(claims, ANY_MODEL, [MAC1], None, None, 0) == Some(MAC1)
  {
    var claims, cands := Claims(map[], map[]), [MAC1];
    ControlPickIsBest(claims, ANY_MODEL, cands, None);
    WorkPickIsBest(claims, ANY_MODEL, cands, None, None, 0);
    var pick := PickControl(claims, ANY_MODEL, cands, None);
    if pick.Some? {
      PickPausesWork(claims, ANY_MODEL, cands, None);
    }
    hide PickControl, WorkRouter.PickWork;
    assert cands[0] in cands;
    assert IsUsable(ANY_MODEL, cands, None, MAC1) && TakesWork(claims, ANY_MODEL, None, None, 0, MAC1);
    assert pick.value.preempt == {};
  }

  function CuttingIn(): (steps: seq<Step>) {
    [PickHome("intent", ANY_MODEL, [MAC1], None), PickWork("work", ANY_MODEL, [MAC1], None, None), BeginHome("intent")]
  }

  /**
   * And such runs exist: the pick and the home command's claim are two critical sections, and work fits between them.
   */
  lemma WorkCanCutIn()
    ensures var steps := CuttingIn();
            Run(steps, |steps|).Some? && Share(Run(steps, |steps|).value, "intent", "work")
  {
    hide PickControl, WorkRouter.PickWork;
    var steps := CuttingIn();
    OneMachineIsPicked();
    var s1 := INITIAL.(homes := map["intent" := OnItsWay("mac1", false, 0)]);
    var s2 := s1.(works := map["work" := Claimed("mac1")], claims := Claims(map["work" := Claim("mac1", Work)], map[]));
    assert Run(steps, 0) == Some(INITIAL);
    assert AfterPick(INITIAL.claims, ControlPick(MAC1, {}), 0) == INITIAL.claims;
    assert INITIAL.paused + {} == INITIAL.paused;
    assert ApplyPickHome(INITIAL, steps[0]) == Some(s1);
    assert Run(steps, 1) == Some(s1);
    assert Run(steps, 2) == Some(s2);
    assert Run(steps, 3) == Apply(s2, BeginHome("intent"));
    assert "intent" != "work";
  }
}
