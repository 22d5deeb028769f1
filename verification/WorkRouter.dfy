/** Home commands first, review work in the gaps: the routing decisions in work_router.rs. */
module WorkRouter {
  import opened Wrappers
  import Text

  type Id = string
  type Node = string

  /** For so many seconds after a pause a machine takes no review work. */
  const REST_AFTER_PREEMPT: nat := 30

  datatype Class = Control | Work

  datatype Claim = Claim(node: Node, class_: Class)

  /** A model that is ready on a connected machine. */
  datatype Candidate = Candidate(node: Node, model: string, size: nat)

  datatype ModelRoles = ModelRoles(control: seq<string>, work: seq<string>) {
    predicate IsControl(model: string) {
      if control == [] then model !in work else model in control
    }

    predicate IsWork(model: string) {
      work == [] || model in work
    }
  }

  /** The requests in flight, by id, and until when each machine rests from work. */
  datatype Claims = Claims(inFlight: map<Id, Claim>, restUntil: map<Node, nat>) {
    predicate Busy(n: Node) {
      exists id :: id in inFlight && inFlight[id].node == n
    }

    predicate BusyWith(n: Node, c: Class) {
      exists id :: id in inFlight && inFlight[id] == Claim(n, c)
    }

    predicate Resting(n: Node, now: nat) {
      n in restUntil && restUntil[n] > now
    }

    /** The review work in flight on a machine. */
    function WorkOn(n: Node): (ids: set<Id>) {
      set id | id in inFlight && inFlight[id] == Claim(n, Work)
    }

    /** The claims once these requests are paused: each is forgotten, and its machine rests. */
    function Paused(ids: set<Id>, n: Node, now: nat): (after: Claims) {
      if ids * inFlight.Keys == {} then this
      else Claims(inFlight - ids, restUntil[n := now + REST_AFTER_PREEMPT])
    }
  }

  // ---------- the largest of several ----------

  /** `a` wins against the later `b`: more memory, or as much on a machine whose name comes first. */
  predicate BeatsByName(a: Candidate, b: Candidate) {
    a.size > b.size || (a.size == b.size && Text.Less(a.node, b.node))
  }

  predicate BeatsBySize(a: Candidate, b: Candidate) {
    a.size > b.size
  }

  /** `max_by`: of equals the last one wins. */
  function Largest(v: seq<Candidate>, beats: (Candidate, Candidate) -> bool): (best: Option<Candidate>)
    ensures best.None? <==> v == []
    ensures best.Some? ==> best.value in v
  {
    if v == [] then None
    else
      var n := |v| - 1;
      var best := Largest(v[..n], beats);
      if best.Some? && beats(best.value, v[n]) then best else Some(v[n])
  }

  ghost predicate IsWeakOrder(beats: (Candidate, Candidate) -> bool) {
    && (forall a, b :: beats(a, b) ==> !beats(b, a))
    && (forall a, b, c :: !beats(a, b) && !beats(b, c) ==> !beats(a, c))
  }

  lemma Chained(beats: (Candidate, Candidate) -> bool, a: Candidate, b: Candidate, c: Candidate)
    requires IsWeakOrder(beats)
    ensures beats(a, b) ==> !beats(b, a)
    ensures !beats(a, b) && !beats(b, c) ==> !beats(a, c)
  {
  }

  /** Nothing in the list beats the winner. */
  lemma {:induction false} NoneIsLarger(v: seq<Candidate>, beats: (Candidate, Candidate) -> bool)
    requires IsWeakOrder(beats) && v != []
    ensures forall a :: a in v ==> !beats(a, Largest(v, beats).value)
  {
    hide IsWeakOrder;
    var n, best := |v| - 1, Largest(v, beats).value;
    forall a | a in v
      ensures !beats(a, best)
    {
      assert v == v[..n] + [v[n]];
      if n > 0 {
        NoneIsLarger(v[..n], beats);
        var before := Largest(v[..n], beats).value;
        Chained(beats, before, v[n], v[n]);
        Chained(beats, a, before, v[n]);
      }
      Chained(beats, a, a, a);
    }
  }

  lemma NameOrderIsWeak()
    ensures IsWeakOrder(BeatsByName)
  {
    forall a: Candidate, b: Candidate
      ensures BeatsByName(a, b) ==> !BeatsByName(b, a)
    {
      Text.LessIsTotal(a.node, b.node);
    }
    forall a: Candidate, b: Candidate, c: Candidate | !BeatsByName(a, b) && !BeatsByName(b, c)
      ensures !BeatsByName(a, c)
    {
      Text.LessIsTotal(a.node, b.node);
      Text.LessIsTotal(b.node, c.node);
      Text.LessIsTotal(a.node, c.node);
      if a.size == c.size && Text.Less(c.node, b.node) && Text.Less(b.node, a.node) {
        Text.LessIsTransitive(c.node, b.node, a.node);
      }
    }
  }

  // ---------- choosing a machine ----------

  function Usable(roles: ModelRoles, cands: seq<Candidate>, requested: Option<string>): (usable: seq<Candidate>) {
    Filter(cands, (c: Candidate) => if requested.Some? then c.model == requested.value else roles.IsControl(c.model))
  }

  function Filter(v: seq<Candidate>, keep: Candidate -> bool): (kept: seq<Candidate>)
    ensures forall c :: c in kept <==> c in v && keep(c)
  {
    if v == [] then []
    else
      var n := |v| - 1;
      assert v == v[..n] + [v[n]];
      if keep(v[n]) then Filter(v[..n], keep) + [v[n]] else Filter(v[..n], keep)
  }

  datatype ControlPick = ControlPick(target: Candidate, preempt: set<Id>)

  /** Where a home command goes: an idle machine, or one that only does review work, or any. */
  function PickControl(claims: Claims, roles: ModelRoles, cands: seq<Candidate>, requested: Option<string>)
    : (pick: Option<ControlPick>)
  {
    var usable := Usable(roles, cands, requested);
    var idle := Largest(Filter(usable, (c: Candidate) => !claims.Busy(c.node)), BeatsByName);
    var workOnly := Largest(Filter(usable, (c: Candidate) => !claims.BusyWith(c.node, Control)), BeatsByName);
    var any := Largest(usable, BeatsByName);
    if idle.Some? then Some(ControlPick(idle.value, {}))
    else if workOnly.Some? then Some(ControlPick(workOnly.value, claims.WorkOn(workOnly.value.node)))
    else if any.Some? then Some(ControlPick(any.value, {}))
    else None
  }

  /** What a review request may run on: idle, not resting, with a work model, the one asked for if any. */
  predicate TakesWork(
    claims: Claims, roles: ModelRoles, node: Option<Node>, model: Option<string>, now: nat, c: Candidate)
  {
    && (node.None? || c.node == node.value) && (model.None? || c.model == model.value) && roles.IsWork(c.model)
    && !claims.Busy(c.node) && !claims.Resting(c.node, now)
  }

  function PickWork(
    claims: Claims, roles: ModelRoles, cands: seq<Candidate>, node: Option<Node>, model: Option<string>, now: nat)
    : (target: Option<Candidate>)
  {
    Largest(Filter(cands, (c: Candidate) => TakesWork(claims, roles, node, model, now, c)), BeatsBySize)
  }

  /** The claims once a control pick's work is paused. */
  function AfterPick(claims: Claims, pick: ControlPick, now: nat): (after: Claims) {
    claims.Paused(pick.preempt, pick.target.node, now)
  }

  /** The claims once a review pick is made: the machine picked, if any, is the request's. */
  function AfterWorkPick(claims: Claims, id: Id, target: Option<Candidate>): (after: Claims) {
    match target
    case None => claims
    case Some(c) => claims.(inFlight := claims.inFlight[id := Claim(c.node, Work)])
  }

  // ---------- what the choices mean ----------

  /** Fewer demands on a machine, fewer requests on it: 0 idle, 1 review work only, 2 answering a home command. */
  function Rank(claims: Claims, n: Node): (rank: nat) {
    if !claims.Busy(n) then 0 else if !claims.BusyWith(n, Control) then 1 else 2
  }

  predicate IsUsable(roles: ModelRoles, cands: seq<Candidate>, requested: Option<string>, c: Candidate) {
    c in cands && if requested.Some? then c.model == requested.value else roles.IsControl(c.model)
  }

  /**
   * A home command goes to a usable machine of the lowest rank there is, the largest of those; none only if there is
   * none.
   */
  lemma ControlPickIsBest(claims: Claims, roles: ModelRoles, cands: seq<Candidate>, requested: Option<string>)
    ensures var pick := PickControl(claims, roles, cands, requested);
            && (pick.None? <==> forall c :: c in cands ==> !IsUsable(roles, cands, requested, c))
            && (pick.Some? ==>
                  && IsUsable(roles, cands, requested, pick.value.target)
                  && forall c :: IsUsable(roles, cands, requested, c) ==>
                       Rank(claims, pick.value.target.node) <= Rank(claims, c.node)
                       && (Rank(claims, pick.value.target.node) == Rank(claims, c.node) ==>
                             !BeatsByName(c, pick.value.target)))
  {
    NameOrderIsWeak();
    var usable := Usable(roles, cands, requested);
    assert forall c :: c in usable <==> IsUsable(roles, cands, requested, c);
    var idle := Filter(usable, (c: Candidate) => !claims.Busy(c.node));
    var workOnly := Filter(usable, (c: Candidate) => !claims.BusyWith(c.node, Control));
    assert forall c :: c in idle <==> c in usable && !claims.Busy(c.node);
    assert forall c :: c in workOnly <==> c in usable && !claims.BusyWith(c.node, Control);
    if idle != [] {
      NoneIsLarger(idle, BeatsByName);
    } else if workOnly != [] {
      assert workOnly[0] in workOnly;
      NoneIsLarger(workOnly, BeatsByName);
      forall c | c in usable
        ensures c !in idle
      {
      }
    } else if usable != [] {
      NoneIsLarger(usable, BeatsByName);
    }
  }

  /**
   * Once a pick's review work is paused its machine is idle, unless every usable machine is answering a home command.
   */
  lemma PickFreesItsMachine(
    claims: Claims, roles: ModelRoles, cands: seq<Candidate>, requested: Option<string>, now: nat)
    requires PickControl(claims, roles, cands, requested).Some?
    ensures var pick := PickControl(claims, roles, cands, requested).value;
            AfterPick(claims, pick, now).Busy(pick.target.node) <==>
            forall c :: IsUsable(roles, cands, requested, c) ==> claims.BusyWith(c.node, Control)
  {
    var pick := PickControl(claims, roles, cands, requested).value;
    ControlPickIsBest(claims, roles, cands, requested);
    var n, after := pick.target.node, AfterPick(claims, pick, now);
    if Rank(claims, n) == 2 {
      assert pick.preempt == {};
    } else if Rank(claims, n) == 1 {
      assert pick.preempt == claims.WorkOn(n);
      forall id | id in claims.inFlight && claims.inFlight[id].node == n
        ensures id in pick.preempt
      {
        var claim := claims.inFlight[id];
        assert claim == Claim(n, claim.class_);
        assert claim.class_ == Control ==> claims.BusyWith(n, Control);
      }
      var one :| one in claims.inFlight && claims.inFlight[one].node == n;
      assert one in pick.preempt * claims.inFlight.Keys;
      assert forall id :: id in after.inFlight ==> id in claims.inFlight && after.inFlight[id] == claims.inFlight[id];
      assert !after.Busy(n);
    }
  }

  /** Review work goes to a free machine with the largest model, and to none only if none is free. */
  lemma WorkPickIsBest(
    claims: Claims, roles: ModelRoles, cands: seq<Candidate>, node: Option<Node>, model: Option<string>, now: nat)
    ensures var target := PickWork(claims, roles, cands, node, model, now);
            && (target.None? <==> forall c :: c in cands ==> !TakesWork(claims, roles, node, model, now, c))
            && (target.Some? ==>
                  && target.value in cands && TakesWork(claims, roles, node, model, now, target.value)
                  && forall c :: c in cands && TakesWork(claims, roles, node, model, now, c) ==>
                                   c.size <= target.value.size)
  {
    var free := Filter(cands, (c: Candidate) => TakesWork(claims, roles, node, model, now, c));
    if free == [] {
      forall c | c in cands
        ensures !TakesWork(claims, roles, node, model, now, c)
      {
        assert c !in free;
      }
    } else {
      NoneIsLarger(free, BeatsBySize);
    }
  }

  // ---------- the choices, field by field ----------

  predicate IsIdle(claims: Claims, n: Node) {
    forall id :: id in claims.inFlight ==> claims.inFlight[id].node != n
  }

  /** The machine answers no home command. */
  predicate HasNoHome(claims: Claims, n: Node) {
    forall id :: id in claims.inFlight && claims.inFlight[id].class_ == Control ==> claims.inFlight[id].node != n
  }

  lemma RankInFields(claims: Claims, n: Node)
    ensures claims.Busy(n) <==> !IsIdle(claims, n)
    ensures claims.BusyWith(n, Control) <==> !HasNoHome(claims, n)
    ensures IsIdle(claims, n) ==> HasNoHome(claims, n)
    ensures Rank(claims, n) == if IsIdle(claims, n) then 0 else if HasNoHome(claims, n) then 1 else 2
  {
    if id :| id in claims.inFlight && claims.inFlight[id].class_ == Control && claims.inFlight[id].node == n {
      assert claims.inFlight[id] == Claim(n, Control);
    }
  }

  /** A listed machine with the model asked for, or, if none is, with one that answers home commands. */
  predicate MayAnswer(roles: ModelRoles, cands: seq<Candidate>, requested: Option<string>, c: Candidate) {
    && c in cands
    && match requested
       case Some(model) => c.model == model
       case None => if |roles.control| > 0 then c.model in roles.control else c.model !in roles.work
  }

  /**
   * A home command goes to an idle machine if any that may answer is, else to one without another home command if any
   * is, and of those to one with the largest model, the first by name of several. It pauses the review work there.
   */
  lemma HomePickInFields(claims: Claims, roles: ModelRoles, cands: seq<Candidate>, requested: Option<string>)
    ensures var pick := PickControl(claims, roles, cands, requested);
            && (pick.None? <==> forall c :: !MayAnswer(roles, cands, requested, c))
            && (pick.Some? ==>
                  var w := pick.value.target;
                  && MayAnswer(roles, cands, requested, w)
                  && (forall c :: MayAnswer(roles, cands, requested, c) ==>
                        && (IsIdle(claims, c.node) ==> IsIdle(claims, w.node))
                        && (HasNoHome(claims, c.node) ==> HasNoHome(claims, w.node))
                        && (IsIdle(claims, c.node) == IsIdle(claims, w.node)
                            && HasNoHome(claims, c.node) == HasNoHome(claims, w.node) ==>
                              c.size < w.size || (c.size == w.size && !Text.Less(c.node, w.node))))
                  && (forall id :: id in pick.value.preempt <==>
                        && HasNoHome(claims, w.node) && id in claims.inFlight
                        && claims.inFlight[id] == Claim(w.node, Work)))
  {
    hide PickControl, Rank, IsIdle, HasNoHome;
    ControlPickIsBest(claims, roles, cands, requested);
    forall c
      ensures IsUsable(roles, cands, requested, c) <==> MayAnswer(roles, cands, requested, c)
    {
    }
    var pick := PickControl(claims, roles, cands, requested);
    if pick.Some? {
      var w := pick.value.target;
      RankInFields(claims, w.node);
      forall c: Candidate
        ensures Rank(claims, c.node) == if IsIdle(claims, c.node) then 0 else if HasNoHome(claims, c.node) then 1 else 2
        ensures IsIdle(claims, c.node) ==> HasNoHome(claims, c.node)
      {
        RankInFields(claims, c.node);
      }
      PreemptInFields(claims, roles, cands, requested);
    }
  }

  lemma PreemptInFields(claims: Claims, roles: ModelRoles, cands: seq<Candidate>, requested: Option<string>)
    requires PickControl(claims, roles, cands, requested).Some?
    ensures var pick := PickControl(claims, roles, cands, requested).value;
            forall id :: id in pick.preempt <==>
                         && HasNoHome(claims, pick.target.node) && id in claims.inFlight
                         && claims.inFlight[id] == Claim(pick.target.node, Work)
  {
    RankInFields(claims, PickControl(claims, roles, cands, requested).value.target.node);
    hide IsIdle, HasNoHome;
    var n := PickControl(claims, roles, cands, requested).value.target.node;
    if IsIdle(claims, n) {
      IdleHasNone(claims, n);
    }
  }

  lemma IdleHasNone(claims: Claims, n: Node)
    requires IsIdle(claims, n)
    ensures forall id :: id in claims.inFlight ==> claims.inFlight[id].node != n
  {
  }

  /** A listed machine that was not ruled out, with a model for review work, idle and past its rest. */
  predicate MayWork(
    claims: Claims, roles: ModelRoles, cands: seq<Candidate>, node: Option<Node>, model: Option<string>, now: nat,
    c: Candidate)
  {
    && c in cands && (node.Some? ==> c.node == node.value) && (model.Some? ==> c.model == model.value)
    && (roles.work != [] ==> c.model in roles.work)
    && IsIdle(claims, c.node) && (c.node in claims.restUntil ==> claims.restUntil[c.node] <= now)
  }

  /** Review work goes to the largest model of the machines that may do it, if there is one. */
  lemma WorkPickInFields(
    claims: Claims, roles: ModelRoles, cands: seq<Candidate>, node: Option<Node>, model: Option<string>, now: nat)
    ensures var target := PickWork(claims, roles, cands, node, model, now);
            && (target.None? <==> forall c :: !MayWork(claims, roles, cands, node, model, now, c))
            && (target.Some? ==>
                  && MayWork(claims, roles, cands, node, model, now, target.value)
                  && forall c :: MayWork(claims, roles, cands, node, model, now, c) ==> c.size <= target.value.size)
  {
    hide PickWork, IsIdle;
    WorkPickIsBest(claims, roles, cands, node, model, now);
    forall c: Candidate
      ensures c in cands && TakesWork(claims, roles, node, model, now, c)
         <==> MayWork(claims, roles, cands, node, model, now, c)
    {
      RankInFields(claims, c.node);
    }
  }

  // ---------- the router's state ----------

  /** The one live router: every request in flight, the work that can be paused, and the machines at rest. */
  class WorkState {
    var inFlight: map<Id, Claim>
    var restUntil: map<Node, nat>

    function View(): (claims: Claims)
      reads this
    {
      Claims(inFlight, restUntil)
    }

    constructor ()
      ensures View() == Claims(map[], map[])
    {
      inFlight, restUntil := map[], map[];
    }

    method Begin(id: Id, n: Node, c: Class)
      modifies this
      ensures View() == old(View()).(inFlight := old(inFlight)[id := Claim(n, c)])
    {
      inFlight := inFlight[id := Claim(n, c)];
    }

    /** A review request's section: picks a machine and claims it before anyone else can look. */
    method PickAndClaim(
      id: Id, roles: ModelRoles, cands: seq<Candidate>, node: Option<Node>, model: Option<string>, now: nat)
      returns (target: Option<Candidate>)
      modifies this
      ensures target == PickWork(old(View()), roles, cands, node, model, now)
      ensures View() == AfterWorkPick(old(View()), id, target)
      ensures target.Some? ==> !old(View()).Busy(target.value.node) && View().WorkOn(target.value.node) == {id}
    {
      ghost var before := View();
      target := PickWork(View(), roles, cands, node, model, now);
      WorkPickIsBest(View(), roles, cands, node, model, now);
      if target.Some? {
        Begin(id, target.value.node, Work);
        assert forall other :: other in View().WorkOn(target.value.node) ==> other == id || other in before.inFlight;
      }
    }

    /** A home command's section: picks a machine and pauses the review work in its way; the claim comes later. */
    method PickAndPause(roles: ModelRoles, cands: seq<Candidate>, requested: Option<string>, now: nat)
      returns (pick: Option<ControlPick>, paused: seq<Id>)
      modifies this
      ensures pick == PickControl(old(View()), roles, cands, requested)
      ensures pick.None? ==> View() == old(View()) && paused == []
      ensures pick.Some? ==> View() == AfterPick(old(View()), pick.value, now)
      ensures pick.Some? ==> (forall id :: id in paused <==> id in pick.value.preempt)
      ensures forall i, j :: 0 <= i < j < |paused| ==> paused[i] != paused[j]
      ensures pick.Some? ==>
                || View().WorkOn(pick.value.target.node) == {}
                || old(View()).BusyWith(pick.value.target.node, Control)
    {
      hide PickControl;
      ghost var before := View();
      pick := PickControl(View(), roles, cands, requested);
      paused := [];
      if pick.Some? {
        PickPausesWork(before, roles, cands, requested);
        PickLeavesNoWork(before, roles, cands, requested, now);
        var ids := ListOf(pick.value.preempt);
        paused := Preempt(ids, pick.value.target.node, now);
      }
    }

    /**
     * Pauses the listed requests on one machine, in whatever order they are listed, and says which were still in
     * flight.
     */
    method Preempt(ids: seq<Id>, n: Node, now: nat) returns (done: seq<Id>)
      modifies this
      ensures View() == old(View()).Paused(Listed(ids, |ids|), n, now)
      ensures forall id :: id in done <==> id in ids && id in old(inFlight)
      ensures forall i, j :: 0 <= i < j < |done| ==> done[i] != done[j]
    {
      done := [];
      ghost var before := View();
      NothingPaused(before, n, now);
      hide Claims.Paused;
      for k := 0 to |ids|
        invariant View() == before.Paused(Listed(ids, k), n, now)
        invariant forall id :: id in done <==> id in Listed(ids, k) && id in before.inFlight
        invariant forall i, j :: 0 <= i < j < |done| ==> done[i] != done[j]
      {
        PausedByOne(before, Listed(ids, k), ids[k], n, now);
        if ids[k] in inFlight {
          inFlight := inFlight - {ids[k]};
          restUntil := restUntil[n := now + REST_AFTER_PREEMPT];
          done := done + [ids[k]];
        }
      }
    }
  }

  /** What a home pick pauses is review work in flight on its machine: all of it, or nothing. */
  lemma PickPausesWork(claims: Claims, roles: ModelRoles, cands: seq<Candidate>, requested: Option<string>)
    requires PickControl(claims, roles, cands, requested).Some?
    ensures var pick := PickControl(claims, roles, cands, requested).value;
            && (forall id :: id in pick.preempt ==>
                  id in claims.inFlight && claims.inFlight[id] == Claim(pick.target.node, Work))
            && (pick.preempt != {} ==> pick.preempt == claims.WorkOn(pick.target.node))
  {
  }

  /** A home pick leaves review work on its machine only beside another home command. */
  lemma PickLeavesNoWork(
    claims: Claims, roles: ModelRoles, cands: seq<Candidate>, requested: Option<string>, now: nat)
    requires PickControl(claims, roles, cands, requested).Some?
    ensures var pick := PickControl(claims, roles, cands, requested).value;
            AfterPick(claims, pick, now).WorkOn(pick.target.node) == {} || claims.BusyWith(pick.target.node, Control)
  {
    PickFreesItsMachine(claims, roles, cands, requested, now);
    ControlPickIsBest(claims, roles, cands, requested);
    hide PickControl;
    var pick := PickControl(claims, roles, cands, requested).value;
    var after, n := AfterPick(claims, pick, now), pick.target.node;
    if id :| id in after.WorkOn(n) {
      assert after.inFlight[id].node == n && after.Busy(n);
    }
  }

  /** The members of a set, in some order. */
  method ListOf(ids: set<Id>) returns (listed: seq<Id>)
    ensures Listed(listed, |listed|) == ids
  {
    listed := [];
    var rest := ids;
    while rest != {}
      invariant rest <= ids && Listed(listed, |listed|) == ids - rest
      decreases |rest|
    {
      var id :| id in rest;
      rest := rest - {id};
      ListedGrows(listed, id);
      listed := listed + [id];
    }
  }

  lemma ListedGrows(ids: seq<Id>, id: Id)
    ensures Listed(ids + [id], |ids| + 1) == Listed(ids, |ids|) + {id}
  {
    assert (ids + [id])[..|ids|] == ids[..|ids|];
    assert forall x :: x in Listed(ids + [id], |ids|) <==> x in Listed(ids, |ids|);
  }

  function Listed(ids: seq<Id>, k: nat): (s: set<Id>)
    requires k <= |ids|
    ensures forall id :: id in s <==> id in ids[..k]
  {
    if k == 0 then {} else Listed(ids, k - 1) + {ids[k - 1]}
  }

  lemma NothingPaused(claims: Claims, n: Node, now: nat)
    ensures claims.Paused({}, n, now) == claims
  {
  }

  /** Pausing requests that are not in flight changes nothing. */
  lemma PausedOnlyInFlight(claims: Claims, ids: set<Id>, n: Node, now: nat)
    ensures claims.Paused(ids, n, now).inFlight == claims.inFlight - ids
    ensures claims.Paused(ids, n, now).restUntil
         == if exists id :: id in ids && id in claims.inFlight then claims.restUntil[n := now + REST_AFTER_PREEMPT]
            else claims.restUntil
  {
    var both := ids * claims.inFlight.Keys;
    if both == {} {
      forall id | id in ids
        ensures id !in claims.inFlight
      {
        assert id !in both;
      }
      assert claims.inFlight - ids == claims.inFlight;
    } else {
      var id :| id in both;
      assert id in ids && id in claims.inFlight;
    }
  }

  lemma PausedByOne(claims: Claims, ids: set<Id>, id: Id, n: Node, now: nat)
    ensures var before := claims.Paused(ids, n, now);
            claims.Paused(ids + {id}, n, now) ==
            if id in before.inFlight
            then Claims(before.inFlight - {id}, before.restUntil[n := now + REST_AFTER_PREEMPT]) else before
    ensures id in claims.Paused(ids, n, now).inFlight <==> id in claims.inFlight && id !in ids
  {
    var before, after := claims.Paused(ids, n, now), claims.Paused(ids + {id}, n, now);
    PausedOnlyInFlight(claims, ids, n, now);
    PausedOnlyInFlight(claims, ids + {id}, n, now);
    hide Claims.Paused;
    assert after.inFlight == before.inFlight - {id};
    assert id !in before.inFlight ==> before.inFlight - {id} == before.inFlight;
    assert id in ids + {id};
  }
}
