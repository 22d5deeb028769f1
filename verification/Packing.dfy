/** Packing groups of targets into budgeted chunks: the loop of `plan_chunks` in chunk.rs. */
module Packing {

  /** What each file costs in a prompt, by its index. */
  type Pricing = seq<nat>

  function PriceOf(price: Pricing, t: nat): (tokens: nat) {
    if t < |price| then price[t] else 0
  }

  /** What the first `k` items cost. */
  function CostTo(price: Pricing, items: seq<nat>, k: nat): (sum: nat)
    requires k <= |items|
  {
    if k == 0 then 0 else CostTo(price, items, k - 1) + PriceOf(price, items[k - 1])
  }

  function Cost(price: Pricing, items: seq<nat>): (sum: nat) {
    CostTo(price, items, |items|)
  }

  /** The first `k` lists, one after the other. */
  function FlattenTo(lists: seq<seq<nat>>, k: nat): (flat: seq<nat>)
    requires k <= |lists|
  {
    if k == 0 then [] else FlattenTo(lists, k - 1) + lists[k - 1]
  }

  function Flatten(lists: seq<seq<nat>>): (flat: seq<nat>) {
    FlattenTo(lists, |lists|)
  }

  /** The lists already flushed, and the one being filled. */
  datatype Bins = Bins(done: seq<seq<nat>>, current: seq<nat>) {
    function Lists(): (lists: seq<seq<nat>>) {
      if current == [] then done else done + [current]
    }

    function Flush(): (bins: Bins) {
      Bins(Lists(), [])
    }
  }

  function PushTarget(price: Pricing, limit: nat, bins: Bins, t: nat): (after: Bins) {
    if bins.current != [] && Cost(price, bins.current) + PriceOf(price, t) > limit
    then Bins(bins.Lists(), [t])
    else Bins(bins.done, bins.current + [t])
  }

  /** The bins once the first `k` targets of the group are in. */
  function PushTargets(price: Pricing, limit: nat, bins: Bins, group: seq<nat>, k: nat): (after: Bins)
    requires k <= |group|
  {
    if k == 0 then bins else PushTarget(price, limit, PushTargets(price, limit, bins, group, k - 1), group[k - 1])
  }

  /** A group that fits whole but not beside the open list starts a fresh list. */
  function OpenFor(price: Pricing, limit: nat, bins: Bins, group: seq<nat>): (open: Bins) {
    if && bins.current != []
       && Cost(price, bins.current) + Cost(price, group) > limit
       && Cost(price, group) <= limit
    then bins.Flush() else bins
  }

  function PushGroup(price: Pricing, limit: nat, bins: Bins, group: seq<nat>): (after: Bins) {
    PushTargets(price, limit, OpenFor(price, limit, bins, group), group, |group|)
  }

  /** The bins once the first `k` groups are in. */
  function PushGroups(price: Pricing, limit: nat, groups: seq<seq<nat>>, k: nat): (after: Bins)
    requires k <= |groups|
  {
    if k == 0 then Bins([], []) else PushGroup(price, limit, PushGroups(price, limit, groups, k - 1), groups[k - 1])
  }

  /** The target lists of the planned chunks. */
  function Pack(price: Pricing, limit: nat, groups: seq<seq<nat>>): (lists: seq<seq<nat>>) {
    PushGroups(price, limit, groups, |groups|).Lists()
  }

  // ---------- arithmetic of costs ----------

  lemma {:induction false} CostOfPrefix(price: Pricing, a: seq<nat>, b: seq<nat>, k: nat)
    requires k <= |a| && k <= |b| && forall i :: 0 <= i < k ==> a[i] == b[i]
    ensures CostTo(price, a, k) == CostTo(price, b, k)
  {
    if k > 0 {
      CostOfPrefix(price, a, b, k - 1);
    }
  }

  lemma {:induction false} CostPast(price: Pricing, a: seq<nat>, b: seq<nat>, k: nat)
    requires k <= |b|
    ensures CostTo(price, a + b, |a| + k) == Cost(price, a) + CostTo(price, b, k)
  {
    if k == 0 {
      CostOfPrefix(price, a, a + b, |a|);
    } else {
      CostPast(price, a, b, k - 1);
    }
  }

  lemma CostOfConcat(price: Pricing, a: seq<nat>, b: seq<nat>)
    ensures Cost(price, a + b) == Cost(price, a) + Cost(price, b)
  {
    CostPast(price, a, b, |b|);
  }

  lemma CostOfSnoc(price: Pricing, items: seq<nat>, t: nat)
    ensures Cost(price, items + [t]) == Cost(price, items) + PriceOf(price, t)
  {
    CostOfPrefix(price, items, items + [t], |items|);
  }

  lemma CostWithout(price: Pricing, items: seq<nat>, k: nat)
    requires k < |items|
    ensures Cost(price, items) == Cost(price, items[..k] + items[k + 1..]) + PriceOf(price, items[k])
  {
    assert items == items[..k] + [items[k]] + items[k + 1..];
    CostOfConcat(price, items[..k] + [items[k]], items[k + 1..]);
    CostOfSnoc(price, items[..k], items[k]);
    CostOfConcat(price, items[..k], items[k + 1..]);
  }

  /** A part never costs more than the whole, in whatever order either is listed. */
  lemma {:induction false} CostOfPart(price: Pricing, part: seq<nat>, whole: seq<nat>)
    requires multiset(part) <= multiset(whole)
    ensures Cost(price, part) <= Cost(price, whole)
    decreases |part|
  {
    if part != [] {
      var n := |part| - 1;
      var k := IndexOfPart(part, whole);
      CostWithout(price, whole, k);
      CostOfPart(price, part[..n], whole[..k] + whole[k + 1..]);
      CostOfPrefix(price, part, part[..n], n);
    }
  }

  lemma MultisetWithout(items: seq<nat>, k: nat)
    requires k < |items|
    ensures multiset(items) == multiset(items[..k] + items[k + 1..]) + multiset{items[k]}
  {
    assert items == items[..k] + [items[k]] + items[k + 1..];
  }

  lemma IndexOfPart(part: seq<nat>, whole: seq<nat>) returns (k: nat)
    requires part != [] && multiset(part) <= multiset(whole)
    ensures k < |whole| && whole[k] == part[|part| - 1]
    ensures multiset(part[..|part| - 1]) <= multiset(whole[..k] + whole[k + 1..])
  {
    var n := |part| - 1;
    assert part[n] in multiset(whole);
    k :| 0 <= k < |whole| && whole[k] == part[n];
    MultisetWithout(whole, k);
    MultisetWithout(part, n);
    assert part[..n] + part[n + 1..] == part[..n];
    CancelOne(multiset(part[..n]), multiset(whole[..k] + whole[k + 1..]), part[n]);
  }

  lemma CancelOne(a: multiset<nat>, b: multiset<nat>, x: nat)
    requires a + multiset{x} <= b + multiset{x}
    ensures a <= b
  {
    forall t
      ensures a[t] <= b[t]
    {
      assert (a + multiset{x})[t] <= (b + multiset{x})[t];
    }
  }

  // ---------- every target exactly once ----------

  lemma {:induction false} FlattenOfPrefix(a: seq<seq<nat>>, b: seq<seq<nat>>, k: nat)
    requires k <= |a| && k <= |b| && forall i :: 0 <= i < k ==> a[i] == b[i]
    ensures FlattenTo(a, k) == FlattenTo(b, k)
  {
    if k > 0 {
      FlattenOfPrefix(a, b, k - 1);
    }
  }

  /** Everything put in so far, in the order it went in. */
  function Packed(bins: Bins): (flat: seq<nat>) {
    Flatten(bins.done) + bins.current
  }

  lemma FlushKeepsPacked(bins: Bins)
    ensures Flatten(bins.Lists()) == Packed(bins) == Packed(bins.Flush())
  {
    if bins.current != [] {
      FlattenOfPrefix(bins.done, bins.done + [bins.current], |bins.done|);
    }
  }

  lemma TargetPackedLast(price: Pricing, limit: nat, bins: Bins, t: nat)
    ensures Packed(PushTarget(price, limit, bins, t)) == Packed(bins) + [t]
  {
    if bins.current != [] && Cost(price, bins.current) + PriceOf(price, t) > limit {
      FlushKeepsPacked(bins);
    } else {
      assert Flatten(bins.done) + (bins.current + [t]) == Flatten(bins.done) + bins.current + [t];
    }
  }

  lemma {:induction false} TargetsPackedInOrder(price: Pricing, limit: nat, bins: Bins, group: seq<nat>, k: nat)
    requires k <= |group|
    ensures Packed(PushTargets(price, limit, bins, group, k)) == Packed(bins) + group[..k]
  {
    if k == 0 {
      assert Packed(bins) + group[..0] == Packed(bins);
    } else {
      TargetsPackedInOrder(price, limit, bins, group, k - 1);
      TargetPackedLast(price, limit, PushTargets(price, limit, bins, group, k - 1), group[k - 1]);
      assert Packed(bins) + group[..k - 1] + [group[k - 1]] == Packed(bins) + group[..k];
    }
  }

  lemma {:induction false} GroupsPackedInOrder(price: Pricing, limit: nat, groups: seq<seq<nat>>, k: nat)
    requires k <= |groups|
    ensures Packed(PushGroups(price, limit, groups, k)) == FlattenTo(groups, k)
  {
    if k > 0 {
      var before, last := PushGroups(price, limit, groups, k - 1), groups[k - 1];
      GroupsPackedInOrder(price, limit, groups, k - 1);
      FlushKeepsPacked(before);
      TargetsPackedInOrder(price, limit, OpenFor(price, limit, before, last), last, |last|);
      assert last[..|last|] == last;
    }
  }

  /** The lists together hold every grouped target, each once, in group order. */
  lemma PackKeepsEveryTarget(price: Pricing, limit: nat, groups: seq<seq<nat>>)
    ensures Flatten(Pack(price, limit, groups)) == Flatten(groups)
  {
    GroupsPackedInOrder(price, limit, groups, |groups|);
    FlushKeepsPacked(PushGroups(price, limit, groups, |groups|));
  }

  // ---------- no list is empty, and two or more targets keep to the limit ----------

  ghost predicate Fits(price: Pricing, limit: nat, list: seq<nat>) {
    |list| >= 2 ==> Cost(price, list) <= limit
  }

  ghost predicate WithinLimit(price: Pricing, limit: nat, bins: Bins) {
    && (forall list :: list in bins.done ==> list != [] && Fits(price, limit, list))
    && Fits(price, limit, bins.current)
  }

  lemma TargetKeepsLimit(price: Pricing, limit: nat, bins: Bins, t: nat)
    requires WithinLimit(price, limit, bins)
    ensures WithinLimit(price, limit, PushTarget(price, limit, bins, t))
  {
    CostOfSnoc(price, bins.current, t);
  }

  lemma {:induction false} TargetsKeepLimit(price: Pricing, limit: nat, bins: Bins, group: seq<nat>, k: nat)
    requires k <= |group| && WithinLimit(price, limit, bins)
    ensures WithinLimit(price, limit, PushTargets(price, limit, bins, group, k))
  {
    if k > 0 {
      TargetsKeepLimit(price, limit, bins, group, k - 1);
      TargetKeepsLimit(price, limit, PushTargets(price, limit, bins, group, k - 1), group[k - 1]);
    }
  }

  lemma {:induction false} GroupsKeepLimit(price: Pricing, limit: nat, groups: seq<seq<nat>>, k: nat)
    requires k <= |groups|
    ensures WithinLimit(price, limit, PushGroups(price, limit, groups, k))
  {
    if k > 0 {
      var before, last := PushGroups(price, limit, groups, k - 1), groups[k - 1];
      GroupsKeepLimit(price, limit, groups, k - 1);
      TargetsKeepLimit(price, limit, OpenFor(price, limit, before, last), last, |last|);
    }
  }

  /** No packed list is empty, and one of two or more targets keeps to the limit. */
  lemma PackKeepsLimit(price: Pricing, limit: nat, groups: seq<seq<nat>>)
    ensures forall list :: list in Pack(price, limit, groups) ==> list != [] && Fits(price, limit, list)
  {
    GroupsKeepLimit(price, limit, groups, |groups|);
  }

  // ---------- a group that fits is never split ----------

  ghost predicate Holds(list: seq<nat>, group: seq<nat>) {
    forall t :: t in group ==> t in list
  }

  ghost predicate Together(lists: seq<seq<nat>>, group: seq<nat>) {
    exists list :: list in lists && Holds(list, group)
  }

  ghost predicate InOneBin(bins: Bins, group: seq<nat>) {
    Together(bins.done, group) || Holds(bins.current, group)
  }

  /** Targets pushed beside an open list with room for all of them join it, all of them. */
  lemma {:induction false} GroupJoinsOpenList(price: Pricing, limit: nat, bins: Bins, group: seq<nat>, k: nat)
    requires k <= |group|
    requires Cost(price, bins.current) + CostTo(price, group, k) <= limit || (bins.current == [] && k <= 1)
    ensures PushTargets(price, limit, bins, group, k) == Bins(bins.done, bins.current + group[..k])
  {
    if k == 0 {
      assert bins.current + group[..0] == bins.current;
    } else {
      GroupJoinsOpenList(price, limit, bins, group, k - 1);
      CostOfConcat(price, bins.current, group[..k - 1]);
      CostOfPrefix(price, group, group[..k - 1], k - 1);
      assert bins.current + group[..k - 1] + [group[k - 1]] == bins.current + group[..k];
    }
  }

  lemma FlushKeepsTogether(bins: Bins, group: seq<nat>)
    requires group != [] && InOneBin(bins, group)
    ensures Together(bins.Lists(), group)
  {
    if Holds(bins.current, group) {
      assert group[0] in bins.current;
      assert bins.current in bins.Lists();
    } else {
      var list :| list in bins.done && Holds(list, group);
      assert list in bins.Lists();
    }
  }

  /** Later pushes only lengthen the open list or flush it, so what is together stays together. */
  lemma {:induction false} PushKeepsTogether(
    price: Pricing, limit: nat, bins: Bins, more: seq<nat>, k: nat, group: seq<nat>)
    requires k <= |more| && group != [] && InOneBin(bins, group)
    ensures InOneBin(PushTargets(price, limit, bins, more, k), group)
  {
    if k > 0 {
      PushKeepsTogether(price, limit, bins, more, k - 1, group);
      FlushKeepsTogether(PushTargets(price, limit, bins, more, k - 1), group);
    }
  }

  lemma FittingGroupEntersWhole(price: Pricing, limit: nat, bins: Bins, group: seq<nat>)
    requires Cost(price, group) <= limit || |group| == 1
    ensures Holds(PushGroup(price, limit, bins, group).current, group)
  {
    if Cost(price, group) <= limit {
      GroupJoinsOpenList(price, limit, OpenFor(price, limit, bins, group), group, |group|);
      assert group[..|group|] == group;
    } else {
      assert PushTargets(price, limit, bins, group, 0) == bins;
      assert PushGroup(price, limit, bins, group) == PushTarget(price, limit, bins, group[0]);
    }
  }

  lemma {:induction false} FittingGroupStaysTogether(
    price: Pricing, limit: nat, groups: seq<seq<nat>>, g: nat, k: nat)
    requires g < k <= |groups| && groups[g] != []
    requires Cost(price, groups[g]) <= limit || |groups[g]| == 1
    ensures InOneBin(PushGroups(price, limit, groups, k), groups[g])
    decreases k
  {
    var before, last := PushGroups(price, limit, groups, k - 1), groups[k - 1];
    if g == k - 1 {
      FittingGroupEntersWhole(price, limit, before, last);
    } else {
      FittingGroupStaysTogether(price, limit, groups, g, k - 1);
      FlushKeepsTogether(before, groups[g]);
      PushKeepsTogether(price, limit, OpenFor(price, limit, before, last), last, |last|, groups[g]);
    }
  }

  ghost predicate Distinct(items: seq<nat>) {
    forall i, j :: 0 <= i < j < |items| ==> items[i] != items[j]
  }

  /** A group lands in one list, whatever came before it, exactly when it fits the limit or is one target. */
  lemma GroupTogetherIffItFits(price: Pricing, limit: nat, groups: seq<seq<nat>>, g: nat)
    requires g < |groups| && groups[g] != [] && Distinct(groups[g])
    ensures Together(Pack(price, limit, groups), groups[g])
       <==> Cost(price, groups[g]) <= limit || |groups[g]| == 1
  {
    var group := groups[g];
    if Cost(price, group) <= limit || |group| == 1 {
      FittingGroupStaysTogether(price, limit, groups, g, |groups|);
      FlushKeepsTogether(PushGroups(price, limit, groups, |groups|), group);
    } else if Together(Pack(price, limit, groups), group) {
      PackKeepsLimit(price, limit, groups);
      var list :| list in Pack(price, limit, groups) && Holds(list, group);
      TwoDistinctInside(group, list);
      DistinctPartOf(group, list);
      CostOfPart(price, group, list);
    }
  }

  lemma TwoDistinctInside(part: seq<nat>, whole: seq<nat>)
    requires |part| >= 2 && Distinct(part) && Holds(whole, part)
    ensures |whole| >= 2
  {
    assert part[0] in whole && part[1] in whole;
  }

  lemma DistinctPartOf(part: seq<nat>, whole: seq<nat>)
    requires Distinct(part) && Holds(whole, part)
    ensures multiset(part) <= multiset(whole)
  {
    forall t
      ensures multiset(part)[t] <= multiset(whole)[t]
    {
      DistinctCountsOnce(part, t);
      if t in part {
        assert t in whole;
      }
    }
  }

  lemma {:induction false} DistinctCountsOnce(items: seq<nat>, t: nat)
    requires Distinct(items)
    ensures multiset(items)[t] == if t in items then 1 else 0
  {
    if items != [] {
      var init, last := items[..|items| - 1], items[|items| - 1];
      assert items == init + [last];
      assert last !in init;
      DistinctCountsOnce(init, t);
    }
  }

  /** One after the other, lists that share nothing hold what they hold, each once. */
  lemma {:induction false} FlattenOfDisjoint(lists: seq<seq<nat>>, k: nat)
    requires k <= |lists|
    requires forall i :: 0 <= i < |lists| ==> Distinct(lists[i])
    requires forall i, j, v :: 0 <= i < j < |lists| && v in lists[i] ==> v !in lists[j]
    ensures Distinct(FlattenTo(lists, k))
    ensures forall v :: v in FlattenTo(lists, k) <==> exists i :: 0 <= i < k && v in lists[i]
  {
    if k > 0 {
      FlattenOfDisjoint(lists, k - 1);
      var before, last := FlattenTo(lists, k - 1), lists[k - 1];
      forall i, j | 0 <= i < |before| && 0 <= j < |last|
        ensures before[i] != last[j]
      {
        assert before[i] in before && last[j] in last;
      }
    }
  }

  // ---------- how full a list gets ----------

  /** A target joins the open list if it fits beside it; otherwise that list is done. */
  lemma TargetJoinsIfItFits(price: Pricing, limit: nat, bins: Bins, t: nat)
    ensures var after := PushTarget(price, limit, bins, t);
            if bins.current == [] || Cost(price, bins.current) + PriceOf(price, t) <= limit
            then after == Bins(bins.done, bins.current + [t])
            else after == Bins(bins.done + [bins.current], [t])
  {
  }

  lemma {:induction false} TargetsJoin(price: Pricing, limit: nat, bins: Bins, group: seq<nat>, k: nat)
    requires k <= |group| && Cost(price, bins.current) + Cost(price, group) <= limit
    ensures PushTargets(price, limit, bins, group, k) == Bins(bins.done, bins.current + group[..k])
  {
    hide Cost, PushTarget, PriceOf;
    if k == 0 {
      assert bins.current + group[..0] == bins.current;
    } else {
      TargetsJoin(price, limit, bins, group, k - 1);
      var open := bins.current + group[..k - 1];
      TargetJoinsIfItFits(price, limit, Bins(bins.done, open), group[k - 1]);
      CostOfConcat(price, bins.current, group[..k - 1]);
      CostOfSnoc(price, group[..k - 1], group[k - 1]);
      assert group == group[..k] + group[k..] && group[..k] == group[..k - 1] + [group[k - 1]];
      CostOfConcat(price, group[..k], group[k..]);
      assert bins.current + group[..k] == open + [group[k - 1]];
    }
  }

  /** A group joins the open list if it fits beside it, and starts a list of its own if it fits only by itself. */
  lemma GroupJoinsIfItFits(price: Pricing, limit: nat, bins: Bins, group: seq<nat>)
    requires Cost(price, group) <= limit
    ensures var after := PushGroup(price, limit, bins, group);
            if bins.current == [] || Cost(price, bins.current) + Cost(price, group) <= limit
            then after == Bins(bins.done, bins.current + group)
            else after == Bins(bins.done + [bins.current], group)
  {
    hide PushTargets, CostTo;
    var open := OpenFor(price, limit, bins, group);
    CostOfNothing(price);
    TargetsJoin(price, limit, open, group, |group|);
    assert group[..|group|] == group && [] + group == group;
  }

  lemma CostOfNothing(price: Pricing)
    ensures Cost(price, []) == 0
  {
  }
}
