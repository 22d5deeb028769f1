/**
 * Requests that wait for a reply through a shared pending map: `dispatch_local_inference_with_tools` in
 * inference.rs, the reader's side in server.rs, and `send_audio_play` in audio.rs, as one state machine whose
 * steps interleave freely.
 */
module Pending {
  import opened Wrappers

  type Id = string
  type Node = string

  /** What can come through a request's channel. */
  datatype Message = ResultOf(id: Id, output: string) | NodeError(text: string) | Unexpected

  datatype Outcome =
    | Replied(msg: Message)
    | Failed(text: string)
    | WrongMessage
    | ChannelClosed
    | SendFailed
    | TimedOut

  /** A request: entered in the map with its time limit in seconds, sent, given up by its caller, or ended. */
  datatype Phase =
    | Registered(node: Node, limit: nat)
    | Waiting(node: Node, limit: nat, since: nat)
    | Abandoned
    | Done(outcome: Outcome)

  /** The one-shot channel of a request: nothing yet, a message, or closed without one. */
  datatype Slot = Empty | Filled(msg: Message) | Closed

  datatype State = State(
    clock: nat,
    phases: map<Id, Phase>,
    /** The shared map: whose reply goes where. */
    pending: map<Id, Node>,
    /** Senders the reader has taken out of the map, each with the message it is about to send. */
    held: map<Id, Message>,
    slots: map<Id, Slot>,
    /** The requests a node was told to stop working on. */
    cancelled: set<Id>)

  datatype Step =
    | Tick(seconds: nat)
    | Begin(id: Id, node: Node, limit: nat)
    | SendOk(id: Id)
    | SendFail(id: Id)
    | Take(msg: Message)
    | Deliver(id: Id)
    | Disconnect(node: Node)
    | Receive(id: Id)
    | SeeClosed(id: Id)
    | TimeOut(id: Id)
    | Abandon(id: Id)

  const INITIAL := State(0, map[], map[], map[], map[], {})

  function OutcomeOf(msg: Message): (outcome: Outcome) {
    match msg
    case ResultOf(_, _) => Replied(msg)
    case NodeError(text) => Failed(text)
    case Unexpected => WrongMessage
  }

  predicate Live(s: State, id: Id) {
    id in s.phases && (s.phases[id].Registered? || s.phases[id].Waiting?)
  }

  predicate IsWaiting(s: State, id: Id) {
    id in s.phases && s.phases[id].Waiting?
  }

  predicate IsRegistered(s: State, id: Id) {
    id in s.phases && s.phases[id].Registered?
  }

  /** A send reaches a channel only while its receiver is there; the sender is spent either way. */
  function Send(s: State, id: Id, msg: Message): (slots: map<Id, Slot>) {
    s.slots[id := if Live(s, id) then Filled(msg) else Closed]
  }

  /** The entry goes, if there is one, and its sender with it: a channel nothing was sent through closes. */
  function Dropped(s: State, id: Id): (after: State) {
    if id in s.pending then s.(pending := s.pending - {id}, slots := s.slots[id := Closed]) else s
  }

  function Ended(s: State, id: Id, outcome: Outcome): (after: State) {
    s.(phases := s.phases[id := Done(outcome)])
  }

  /** One step, if it can happen. Ids are fresh, as generated ids are; a reply in the channel beats the clock. */
  function Apply(s: State, step: Step): (after: Option<State>) {
    match step
    case Tick(seconds) => Some(s.(clock := s.clock + seconds))
    case Begin(id, node, limit) =>
      if id in s.phases then None
      else Some(s.(phases := s.phases[id := Registered(node, limit)], pending := s.pending[id := node],
                   slots := s.slots[id := Empty]))
    case SendOk(id) =>
      if IsRegistered(s, id)
      then Some(s.(phases := s.phases[id := Waiting(s.phases[id].node, s.phases[id].limit, s.clock)])) else None
    case SendFail(id) =>
      if IsRegistered(s, id) then Some(Ended(Dropped(s, id), id, SendFailed)) else None
    case Take(msg) =>
      if msg.ResultOf? && msg.id in s.pending && msg.id !in s.held
      then Some(s.(pending := s.pending - {msg.id}, held := s.held[msg.id := msg]))
      else Some(s)
    case Deliver(id) =>
      if id in s.held then Some(s.(held := s.held - {id}, slots := Send(s, id, s.held[id]))) else None
    case Disconnect(node) =>
      Some(s.(pending := map id | id in s.pending && s.pending[id] != node :: s.pending[id],
              slots := map id | id in s.slots ::
                if id in s.pending && s.pending[id] == node
                then (if Live(s, id) then Filled(NodeError(node)) else Closed)
                else s.slots[id]))
    case Receive(id) =>
      if IsWaiting(s, id) && id in s.slots && s.slots[id].Filled?
      then Some(Ended(s, id, OutcomeOf(s.slots[id].msg))) else None
    case SeeClosed(id) =>
      if IsWaiting(s, id) && id in s.slots && s.slots[id].Closed?
      then Some(Ended(Dropped(s, id), id, ChannelClosed)) else None
    case TimeOut(id) =>
      if IsWaiting(s, id) && id in s.slots && s.slots[id].Empty? && s.clock >= s.phases[id].since + s.phases[id].limit
      then Some(Ended(Dropped(s, id), id, TimedOut).(cancelled := s.cancelled + {id})) else None
    case Abandon(id) =>
      if Live(s, id) then Some(s.(phases := s.phases[id := Abandoned])) else None
  }

  /** The state after the first `k` steps of a run, if all of them could happen. */
  function Run(steps: seq<Step>, k: nat): (s: Option<State>)
    requires k <= |steps|
  {
    if k == 0 then Some(INITIAL)
    else match Run(steps, k - 1) case None => None case Some(s) => Apply(s, steps[k - 1])
  }

  // ---------- the invariant ----------

  /** The one place a live request's sender is: in the map, in the reader's hand, or spent on its channel. */
  predicate InOnePlace(s: State, id: Id)
    requires id in s.slots
  {
    match s.slots[id]
    case Empty => (id in s.pending) != (id in s.held)
    case Filled(_) => id !in s.pending && id !in s.held
    case Closed => false
  }

  /** A message fits the request whose channel it is for. */
  predicate Addressed(id: Id, msg: Message) {
    msg.ResultOf? ==> msg.id == id
  }

  /** What every step keeps, said of one id. */
  predicate InvAt(s: State, id: Id) {
    && (id in s.slots <==> id in s.phases)
    && (id in s.pending ==> id in s.phases && !s.phases[id].Done? && s.slots[id] == Empty && id !in s.held)
    && (id in s.held ==> id in s.phases && s.held[id].ResultOf? && s.held[id].id == id)
    && (Live(s, id) ==> InOnePlace(s, id))
    && (id in s.slots && s.slots[id].Filled? ==> Addressed(id, s.slots[id].msg))
    && (id in s.phases && s.phases[id].Done? ==> OutcomeFits(id, s.phases[id].outcome))
    && (id in s.cancelled <==> id in s.phases && s.phases[id] == Done(TimedOut))
  }

  /** A reply is the request's own, and no channel closes under a request. */
  predicate OutcomeFits(id: Id, outcome: Outcome) {
    && outcome != ChannelClosed
    && (outcome.Replied? ==> outcome.msg.ResultOf? && outcome.msg.id == id)
  }

  ghost predicate Inv(s: State) {
    forall id: Id :: InvAt(s, id)
  }

  lemma StepKeepsInvAt(s: State, step: Step, id: Id)
    requires Apply(s, step).Some? && InvAt(s, id)
    ensures InvAt(Apply(s, step).value, id)
  {
  }

  lemma {:induction false} RunKeepsInv(steps: seq<Step>, k: nat)
    requires k <= |steps| && Run(steps, k).Some?
    ensures Inv(Run(steps, k).value)
  {
    hide Apply, InvAt;
    if k > 0 {
      RunKeepsInv(steps, k - 1);
      forall id: Id
        ensures InvAt(Run(steps, k).value, id)
      {
        StepKeepsInvAt(Run(steps, k - 1).value, steps[k - 1], id);
      }
    } else {
      InitiallyInv();
    }
  }

  lemma InitiallyInv()
    ensures Inv(INITIAL)
  {
  }

  // ---------- main results ----------

  /** No request that ended is left in the map, whatever order replies, failures and timeouts came in. */
  lemma EndedRequestsLeaveTheMap(steps: seq<Step>, k: nat, id: Id)
    requires k <= |steps| && Run(steps, k).Some?
    requires id in Run(steps, k).value.pending
    ensures id in Run(steps, k).value.phases && !Run(steps, k).value.phases[id].Done?
  {
    RunKeepsInv(steps, k);
    assert InvAt(Run(steps, k).value, id);
  }

  /** Without callers that give up, the map holds exactly live requests; only an `Abandon` can leave another there. */
  lemma {:induction false} OnlyAbandonedLinger(steps: seq<Step>, k: nat, id: Id)
    requires k <= |steps| && Run(steps, k).Some?
    requires forall i :: 0 <= i < k ==> steps[i] != Abandon(id)
    ensures id in Run(steps, k).value.phases ==> !Run(steps, k).value.phases[id].Abandoned?
    ensures id in Run(steps, k).value.pending ==> Live(Run(steps, k).value, id)
  {
    if k > 0 {
      OnlyAbandonedLinger(steps, k - 1, id);
      RunKeepsInv(steps, k);
      assert InvAt(Run(steps, k).value, id);
    }
  }

  /** What takes an abandoned request's entry out of the map: its reply, or the loss of its node. */
  predicate Collects(step: Step, id: Id, node: Node) {
    (step.Take? && step.msg.ResultOf? && step.msg.id == id) || step == Disconnect(node)
  }

  predicate IsAbandoned(s: State, id: Id) {
    id in s.phases && s.phases[id].Abandoned?
  }

  lemma StepOnAbandoned(s: State, step: Step, id: Id)
    requires Apply(s, step).Some? && InvAt(s, id) && IsAbandoned(s, id)
    ensures IsAbandoned(Apply(s, step).value, id)
    ensures id !in s.pending ==> id !in Apply(s, step).value.pending
    ensures id in s.pending ==>
              (id in Apply(s, step).value.pending <==> !Collects(step, id, s.pending[id]))
              && (id in Apply(s, step).value.pending ==> Apply(s, step).value.pending[id] == s.pending[id])
  {
  }

  /** An abandoned request's entry stays exactly until its reply is read or its node is lost. */
  lemma {:induction false} AbandonedEntryStaysUntilCollected(steps: seq<Step>, j: nat, k: nat, id: Id)
    requires j <= k <= |steps| && Run(steps, j).Some? && Run(steps, k).Some?
    requires IsAbandoned(Run(steps, j).value, id) && id in Run(steps, j).value.pending
    ensures IsAbandoned(Run(steps, k).value, id)
    ensures var node := Run(steps, j).value.pending[id];
            && (id in Run(steps, k).value.pending <==> forall i :: j <= i < k ==> !Collects(steps[i], id, node))
            && (id in Run(steps, k).value.pending ==> Run(steps, k).value.pending[id] == node)
    decreases k
  {
    hide Apply, InvAt, Collects, IsAbandoned;
    if j < k {
      AbandonedEntryStaysUntilCollected(steps, j, k - 1, id);
      RunKeepsInv(steps, k - 1);
      assert InvAt(Run(steps, k - 1).value, id);
      StepOnAbandoned(Run(steps, k - 1).value, steps[k - 1], id);
    }
  }

  /** Given up at step `j` while its entry was in the map, and not collected before step `k`. */
  predicate LeftAt(steps: seq<Step>, j: nat, k: nat, id: Id) {
    && j < k <= |steps| && steps[j] == Abandon(id)
    && Run(steps, j).Some? && id in Run(steps, j).value.pending
    && forall i :: j < i < k ==> !Collects(steps[i], id, Run(steps, j).value.pending[id])
  }

  lemma AbandonStep(s: State, step: Step, id: Id)
    requires Apply(s, step).Some? && !IsAbandoned(s, id) && IsAbandoned(Apply(s, step).value, id)
    ensures step == Abandon(id) && Apply(s, step).value.pending == s.pending
  {
  }

  lemma {:induction false} AbandonedWasLeft(steps: seq<Step>, k: nat, id: Id)
    requires k <= |steps| && Run(steps, k).Some?
    requires IsAbandoned(Run(steps, k).value, id) && id in Run(steps, k).value.pending
    ensures exists j :: LeftAt(steps, j, k, id)
  {
    hide Apply, InvAt, Collects;
    if k > 0 {
      var s, step := Run(steps, k - 1).value, steps[k - 1];
      RunKeepsInv(steps, k - 1);
      assert InvAt(s, id);
      if IsAbandoned(s, id) {
        StepOnAbandoned(s, step, id);
        AbandonedWasLeft(steps, k - 1, id);
        var j :| LeftAt(steps, j, k - 1, id);
        AbandonedEntryKeepsNode(steps, j, k - 1, id);
        assert LeftAt(steps, j, k, id);
      } else {
        AbandonStep(s, step, id);
        assert LeftAt(steps, k - 1, k, id);
      }
    }
  }

  lemma AbandonedEntryKeepsNode(steps: seq<Step>, j: nat, k: nat, id: Id)
    requires LeftAt(steps, j, k, id) && Run(steps, k).Some?
    ensures IsAbandoned(Run(steps, k).value, id)
    ensures id in Run(steps, k).value.pending && Run(steps, k).value.pending[id] == Run(steps, j).value.pending[id]
  {
    hide Collects, InvAt;
    var next := j + 1;
    RunIsClosed(steps, next, k);
    AbandonedEntryStaysUntilCollected(steps, next, k, id);
  }

  lemma {:induction false} RunIsClosed(steps: seq<Step>, j: nat, k: nat)
    requires j <= k <= |steps| && Run(steps, k).Some?
    ensures Run(steps, j).Some?
    decreases k
  {
    hide Apply;
    if j < k {
      RunIsClosed(steps, j, k - 1);
    }
  }

  /**
   * The map holds the id of a request that is not waiting exactly when its caller gave up while the entry was there,
   * and neither its reply nor the loss of its node has come since.
   */
  lemma LingersExactly(steps: seq<Step>, k: nat, id: Id)
    requires k <= |steps| && Run(steps, k).Some?
    ensures (id in Run(steps, k).value.pending && !Live(Run(steps, k).value, id)) <==>
             exists j :: LeftAt(steps, j, k, id)
  {
    var s := Run(steps, k).value;
    RunKeepsInv(steps, k);
    assert InvAt(s, id);
    hide Apply, InvAt, LeftAt;
    if id in s.pending && !Live(s, id) {
      AbandonedWasLeft(steps, k, id);
    }
    if j :| LeftAt(steps, j, k, id) {
      AbandonedEntryKeepsNode(steps, j, k, id);
    }
  }

  /** A request in the map that nobody waits for, after three steps. */
  lemma AbandonedEntryExists()
    ensures var steps := [Begin("r", "n", 150), SendOk("r"), Abandon("r")];
            && Run(steps, 3).Some? && "r" in Run(steps, 3).value.pending && !Live(Run(steps, 3).value, "r")
  {
    var steps := [Begin("r", "n", 150), SendOk("r"), Abandon("r")];
    assert Run(steps, 0) == Some(INITIAL);
    assert Run(steps, 1) == Apply(INITIAL, steps[0]);
    assert Run(steps, 2) == Apply(Run(steps, 1).value, steps[1]);
    assert Run(steps, 3) == Apply(Run(steps, 2).value, steps[2]);
  }

  lemma StepKeepsOutcomes(s: State, step: Step, id: Id)
    requires Apply(s, step).Some? && id in s.phases && s.phases[id].Done?
    ensures id in Apply(s, step).value.phases && Apply(s, step).value.phases[id] == s.phases[id]
  {
  }

  /** A request ends once: an outcome never changes again. */
  lemma {:induction false} OutcomesAreFinal(steps: seq<Step>, j: nat, k: nat, id: Id)
    requires j <= k <= |steps| && Run(steps, j).Some? && Run(steps, k).Some?
    requires id in Run(steps, j).value.phases && Run(steps, j).value.phases[id].Done?
    ensures id in Run(steps, k).value.phases && Run(steps, k).value.phases[id] == Run(steps, j).value.phases[id]
    decreases k
  {
    hide Apply;
    if j < k {
      OutcomesAreFinal(steps, j, k - 1, id);
      StepKeepsOutcomes(Run(steps, k - 1).value, steps[k - 1], id);
    }
  }

  lemma {:induction false} RunOfPrefix(steps: seq<Step>, more: seq<Step>, k: nat)
    requires k <= |steps|
    ensures Run(steps + more, k) == Run(steps, k)
  {
    if k > 0 {
      RunOfPrefix(steps, more, k - 1);
    }
  }

  lemma RunOneMore(steps: seq<Step>, step: Step)
    requires Run(steps, |steps|).Some?
    ensures Run(steps + [step], |steps| + 1) == Apply(Run(steps, |steps|).value, step)
  {
    RunOfPrefix(steps, [step], |steps|);
  }

  /** The request is sent, receives or times out, or time passes. */
  predicate IsOwn(step: Step, id: Id) {
    step == SendOk(id) || step == Receive(id) || step == TimeOut(id) || step.Tick?
  }

  lemma WaitingEnds(s: State, id: Id)
    requires InvAt(s, id) && IsWaiting(s, id)
    ensures id in s.slots
    ensures s.slots[id].Filled? ==> Apply(s, Receive(id)).Some? && IsOut(Apply(s, Receive(id)).value, id)
    ensures !s.slots[id].Filled? ==>
              var later := Apply(s, Tick(s.phases[id].since + s.phases[id].limit));
              later.Some? && Apply(later.value, TimeOut(id)).Some? && IsOut(Apply(later.value, TimeOut(id)).value, id)
  {
  }

  predicate IsOut(s: State, id: Id) {
    id in s.phases && s.phases[id].Done? && id !in s.pending
  }

  lemma SendingWaits(s: State, id: Id)
    requires IsRegistered(s, id)
    ensures Apply(s, SendOk(id)).Some? && IsWaiting(Apply(s, SendOk(id)).value, id)
  {
  }

  /** However a run went, a waiting request receives what is there, or its limit passes: it ends and leaves the map. */
  lemma WaitingRequestsCanEnd(steps: seq<Step>, id: Id) returns (more: seq<Step>)
    requires Run(steps, |steps|).Some? && IsWaiting(Run(steps, |steps|).value, id)
    ensures |more| <= 2 && forall i :: 0 <= i < |more| ==> IsOwn(more[i], id)
    ensures Run(steps + more, |steps + more|).Some? && IsOut(Run(steps + more, |steps + more|).value, id)
  {
    hide Apply, InvAt, IsOut, IsWaiting;
    var s := Run(steps, |steps|).value;
    RunKeepsInv(steps, |steps|);
    assert InvAt(s, id);
    WaitingEnds(s, id);
    WaitingHasPhase(s, id);
    if s.slots[id].Filled? {
      RunOneMore(steps, Receive(id));
      more := [Receive(id)];
    } else {
      var wait := Tick(s.phases[id].since + s.phases[id].limit);
      RunOneMore(steps, wait);
      RunOneMore(steps + [wait], TimeOut(id));
      more := [wait, TimeOut(id)];
      assert steps + more == steps + [wait] + [TimeOut(id)];
    }
  }

  lemma WaitingHasPhase(s: State, id: Id)
    requires IsWaiting(s, id)
    ensures id in s.phases && s.phases[id].Waiting?
  {
  }

  /** However a run went, a live request needs nobody else to end: three steps of its own and time are enough. */
  lemma LiveRequestsCanEnd(steps: seq<Step>, id: Id) returns (more: seq<Step>)
    requires Run(steps, |steps|).Some? && Live(Run(steps, |steps|).value, id)
    ensures |more| <= 3 && forall i :: 0 <= i < |more| ==> IsOwn(more[i], id)
    ensures Run(steps + more, |steps + more|).Some? && IsOut(Run(steps + more, |steps + more|).value, id)
  {
    hide Apply, IsOut;
    var s := Run(steps, |steps|).value;
    if IsRegistered(s, id) {
      SendingWaits(s, id);
      RunOneMore(steps, SendOk(id));
      var rest := WaitingRequestsCanEnd(steps + [SendOk(id)], id);
      more := [SendOk(id)] + rest;
      assert steps + more == steps + [SendOk(id)] + rest;
    } else {
      more := WaitingRequestsCanEnd(steps, id);
    }
  }

  lemma StepKeepsWaiting(s: State, step: Step, id: Id)
    requires Apply(s, step).Some? && IsWaiting(Apply(s, step).value, id)
    ensures if step == SendOk(id)
            then IsRegistered(s, id) && Apply(s, step).value.phases[id].since == s.clock
                 && Apply(s, step).value.phases[id].limit == s.phases[id].limit
            else IsWaiting(s, id) && Apply(s, step).value.phases[id] == s.phases[id]
  {
  }

  /** A waiting request waits since it was sent. */
  lemma {:induction false} WaitsSinceSent(steps: seq<Step>, j: nat, k: nat, id: Id)
    requires j < k <= |steps| && Run(steps, j).Some? && Run(steps, k).Some?
    requires steps[j] == SendOk(id) && IsWaiting(Run(steps, k).value, id)
    ensures IsRegistered(Run(steps, j).value, id)
    ensures var sent, phase := Run(steps, j).value, Run(steps, k).value.phases[id];
            phase.since == sent.clock && phase.limit == sent.phases[id].limit
    decreases k
  {
    hide Apply;
    StepKeepsWaiting(Run(steps, k - 1).value, steps[k - 1], id);
    if j < k - 1 {
      if steps[k - 1] == SendOk(id) {
        SentIsNoMoreRegistered(steps, j, k - 1, id);
      } else {
        WaitsSinceSent(steps, j, k - 1, id);
      }
    }
  }

  /** What was sent is never registered again. */
  lemma {:induction false} SentIsNoMoreRegistered(steps: seq<Step>, j: nat, k: nat, id: Id)
    requires j < k <= |steps| && Run(steps, j).Some? && Run(steps, k).Some? && steps[j] == SendOk(id)
    ensures id in Run(steps, k).value.phases && !IsRegistered(Run(steps, k).value, id)
    decreases k
  {
    hide Apply;
    if j < k - 1 {
      SentIsNoMoreRegistered(steps, j, k - 1, id);
    }
    StepKeepsSent(Run(steps, k - 1).value, steps[k - 1], id);
  }

  lemma StepKeepsSent(s: State, step: Step, id: Id)
    requires Apply(s, step).Some?
    ensures step == SendOk(id) || (id in s.phases && !IsRegistered(s, id)) ==>
              id in Apply(s, step).value.phases && !IsRegistered(Apply(s, step).value, id)
  {
  }

  /** A request times out exactly when it waits, its channel is empty, and its limit has passed: a reply there wins. */
  lemma TimeOutIsDue(s: State, id: Id)
    ensures Apply(s, TimeOut(id)).Some? <==>
            && IsWaiting(s, id) && s.clock >= s.phases[id].since + s.phases[id].limit
            && id in s.slots && s.slots[id] == Empty
  {
  }

  /** A request times out no sooner than its limit after it was sent. */
  lemma TimesOutAfterItsLimit(steps: seq<Step>, j: nat, k: nat, id: Id)
    requires j < k < |steps| && Run(steps, j).Some? && Run(steps, k).Some? && steps[j] == SendOk(id)
    requires steps[k] == TimeOut(id) && Apply(Run(steps, k).value, steps[k]).Some?
    ensures IsRegistered(Run(steps, j).value, id)
    ensures Run(steps, k).value.clock >= Run(steps, j).value.clock + Run(steps, j).value.phases[id].limit
  {
    hide Apply;
    TimeOutIsDue(Run(steps, k).value, id);
    WaitsSinceSent(steps, j, k, id);
  }

  /** The seconds that passed in the first `k` steps. */
  function Elapsed(steps: seq<Step>, k: nat): (seconds: nat)
    requires k <= |steps|
  {
    if k == 0 then 0 else Elapsed(steps, k - 1) + if steps[k - 1].Tick? then steps[k - 1].seconds else 0
  }

  lemma {:induction false} ClockCountsSeconds(steps: seq<Step>, k: nat)
    requires k <= |steps| && Run(steps, k).Some?
    ensures Run(steps, k).value.clock == Elapsed(steps, k)
  {
    hide Apply;
    if k > 0 {
      ClockCountsSeconds(steps, k - 1);
      OnlyTicksTakeTime(Run(steps, k - 1).value, steps[k - 1]);
    }
  }

  lemma OnlyTicksTakeTime(s: State, step: Step)
    requires Apply(s, step).Some?
    ensures Apply(s, step).value.clock == s.clock + if step.Tick? then step.seconds else 0
  {
  }

  /** Why a request ends, whichever step ends it. */
  lemma EndsForItsReason(s: State, step: Step, id: Id)
    requires Apply(s, step).Some? && !(id in s.phases && s.phases[id].Done?)
    requires id in Apply(s, step).value.phases && Apply(s, step).value.phases[id].Done?
    ensures match Apply(s, step).value.phases[id].outcome
            case SendFailed => step == SendFail(id)
            case TimedOut => step == TimeOut(id) && id in Apply(s, step).value.cancelled
            case ChannelClosed => step == SeeClosed(id) && id in s.slots && s.slots[id] == Closed
            case Replied(msg) => step == Receive(id) && id in s.slots && s.slots[id] == Filled(msg) && msg.ResultOf?
            case Failed(text) => step == Receive(id) && id in s.slots && s.slots[id] == Filled(NodeError(text))
            case WrongMessage => step == Receive(id) && id in s.slots && s.slots[id] == Filled(Unexpected)
  {
  }

  /** Once every request has ended, the map is empty: nothing leaks. */
  lemma NothingLeaks(steps: seq<Step>, k: nat)
    requires k <= |steps| && Run(steps, k).Some?
    requires forall id :: id in Run(steps, k).value.phases ==> Run(steps, k).value.phases[id].Done?
    ensures Run(steps, k).value.pending == map[]
  {
    RunKeepsInv(steps, k);
    hide Apply;
    forall id: Id
      ensures id !in Run(steps, k).value.pending
    {
      assert InvAt(Run(steps, k).value, id);
    }
  }

  /** The reader took this message off the wire before. */
  predicate Arrived(steps: seq<Step>, k: nat, msg: Message)
    requires k <= |steps|
  {
    exists i :: 0 <= i < k && steps[i] == Take(msg)
  }

  /** Wherever a reply is, it arrived before. */
  predicate FromTheWire(steps: seq<Step>, k: nat, s: State, id: Id)
    requires k <= |steps|
  {
    && (id in s.held ==> Arrived(steps, k, s.held[id]))
    && (id in s.slots && s.slots[id].Filled? && s.slots[id].msg.ResultOf? ==> Arrived(steps, k, s.slots[id].msg))
    && (id in s.phases && s.phases[id].Done? && s.phases[id].outcome.Replied? ==>
          Arrived(steps, k, s.phases[id].outcome.msg))
  }

  lemma ArrivedStays(steps: seq<Step>, k: nat, msg: Message)
    requires k < |steps|
    ensures Arrived(steps, k, msg) || steps[k] == Take(msg) ==> Arrived(steps, k + 1, msg)
  {
  }

  /** A step moves a message on, or takes it off the wire; it makes none up. */
  lemma StepMovesMessages(s: State, step: Step, id: Id)
    requires Apply(s, step).Some? && InvAt(s, id)
    ensures var after := Apply(s, step).value;
            && (id in after.held ==> (id in s.held && after.held[id] == s.held[id]) || step == Take(after.held[id]))
            && (id in after.slots && after.slots[id].Filled? && after.slots[id].msg.ResultOf? ==>
                  || (id in s.slots && s.slots[id] == after.slots[id])
                  || (id in s.held && s.held[id] == after.slots[id].msg))
            && (id in after.phases && after.phases[id].Done? && after.phases[id].outcome.Replied? ==>
                  || (id in s.phases && s.phases[id] == after.phases[id])
                  || (id in s.slots && s.slots[id] == Filled(after.phases[id].outcome.msg)))
  {
  }

  lemma {:induction false} RepliesComeFromTheWire(steps: seq<Step>, k: nat, id: Id)
    requires k <= |steps| && Run(steps, k).Some?
    ensures FromTheWire(steps, k, Run(steps, k).value, id)
  {
    hide Apply, InvAt, Arrived;
    if k > 0 {
      RepliesComeFromTheWire(steps, k - 1, id);
      RunKeepsInv(steps, k - 1);
      var s, after := Run(steps, k - 1).value, Run(steps, k).value;
      assert InvAt(s, id);
      StepMovesMessages(s, steps[k - 1], id);
      if id in after.held {
        ArrivedStays(steps, k - 1, after.held[id]);
      }
      if id in after.slots && after.slots[id].Filled? {
        ArrivedStays(steps, k - 1, after.slots[id].msg);
      }
      if id in after.phases && after.phases[id].Done? && after.phases[id].outcome.Replied? {
        RepliesAreReplies(steps, k, id);
        ArrivedStays(steps, k - 1, after.phases[id].outcome.msg);
      }
    }
  }

  lemma RepliesAreReplies(steps: seq<Step>, k: nat, id: Id)
    requires k <= |steps| && Run(steps, k).Some?
    requires id in Run(steps, k).value.phases && Run(steps, k).value.phases[id].Done?
    ensures Run(steps, k).value.phases[id].outcome.Replied? ==> Run(steps, k).value.phases[id].outcome.msg.ResultOf?
  {
    hide Apply;
    RunKeepsInv(steps, k);
    assert InvAt(Run(steps, k).value, id);
  }

  /** A reply outcome is a message the node sent, and it names the request that got it; no channel closes silently. */
  lemma RepliesReachTheirRequest(steps: seq<Step>, k: nat, id: Id)
    requires k <= |steps| && Run(steps, k).Some?
    requires id in Run(steps, k).value.phases && Run(steps, k).value.phases[id].Done?
    ensures var outcome := Run(steps, k).value.phases[id].outcome;
            && outcome != ChannelClosed
            && (outcome.Replied? ==> outcome.msg.ResultOf? && outcome.msg.id == id && Arrived(steps, k, outcome.msg))
            && (outcome == TimedOut <==> id in Run(steps, k).value.cancelled)
  {
    RunKeepsInv(steps, k);
    RepliesComeFromTheWire(steps, k, id);
    assert InvAt(Run(steps, k).value, id);
  }
}
