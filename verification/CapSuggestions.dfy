/** Keeping only so many suggestions of each kind: `cap_suggestions` in dedupe.rs. */
module CapSuggestions {
  import opened Wrappers
  import opened Sorting
  import opened Findings

  /** Checked suggestions before unchecked ones. */
  function Rank(f: Finding): (rank: nat) {
    match f.verdict
    case Some(Confirmed) => 0
    case Some(Unsure) => 1
    case None => 2
    case Some(Rejected) => 3
  }

  /** The findings a kind's cap counts. */
  predicate Counts(f: Finding, kind: Kind) {
    f.kind == kind && f.verdict != Some(Rejected)
  }

  /** The first `k` findings the cap counts, by index. */
  function Counted(findings: seq<Finding>, kind: Kind, k: nat): (idx: seq<nat>)
    requires k <= |findings|
    ensures forall p :: 0 <= p < |idx| ==> idx[p] < k
  {
    if k == 0 then []
    else Counted(findings, kind, k - 1) + if Counts(findings[k - 1], kind) then [k - 1] else []
  }

  function RankAt(findings: seq<Finding>, i: nat): (rank: nat) {
    if i < |findings| then Rank(findings[i]) else 0
  }

  function ByRank(findings: seq<Finding>): (le: (nat, nat) -> bool) {
    (i: nat, j: nat) => RankAt(findings, i) <= RankAt(findings, j)
  }

  /** Best first: the counted indexes, sorted by rank, equal ranks in the order given. */
  function Ordered(findings: seq<Finding>, kind: Kind): (idx: seq<nat>) {
    Sort(Counted(findings, kind, |findings|), ByRank(findings))
  }

  /** `i` comes before `j`: better checked, or as well checked and earlier. */
  predicate Before(findings: seq<Finding>, i: nat, j: nat) {
    RankAt(findings, i) < RankAt(findings, j) || (RankAt(findings, i) == RankAt(findings, j) && i < j)
  }

  /** The findings left out: of a capped kind, counted, and not among the first of the order. */
  ghost predicate LeftOut(findings: seq<Finding>, i: nat)
    requires i < |findings|
  {
    var kind := findings[i].kind;
    Cap(kind).Some? && exists p :: Cap(kind).value <= p < |Ordered(findings, kind)| && Ordered(findings, kind)[p] == i
  }

  /** The findings kept, in the order given. */
  function Kept(findings: seq<Finding>, keep: seq<bool>, k: nat): (kept: seq<Finding>)
    requires k <= |findings| == |keep|
  {
    if k == 0 then [] else Kept(findings, keep, k - 1) + if keep[k - 1] then [findings[k - 1]] else []
  }

  function CountFalse(keep: seq<bool>, k: nat): (n: nat)
    requires k <= |keep|
  {
    if k == 0 then 0 else CountFalse(keep, k - 1) + if keep[k - 1] then 0 else 1
  }

  ghost predicate IsKeep(findings: seq<Finding>, keep: seq<bool>) {
    |keep| == |findings| && forall i :: 0 <= i < |findings| ==> (keep[i] <==> !LeftOut(findings, i))
  }

  // ---------- the order is what the ranks and the positions say ----------

  ghost predicate IsAscending(idx: seq<nat>) {
    forall p, q :: 0 <= p < q < |idx| ==> idx[p] < idx[q]
  }

  lemma {:induction false} CountedExactly(findings: seq<Finding>, kind: Kind, k: nat)
    requires k <= |findings|
    ensures forall i: nat :: i in Counted(findings, kind, k) <==> i < k && Counts(findings[i], kind)
    ensures IsAscending(Counted(findings, kind, k))
  {
    hide Counts;
    if k > 0 {
      CountedExactly(findings, kind, k - 1);
    }
  }

  ghost predicate InOrder(findings: seq<Finding>, idx: seq<nat>) {
    forall p, q :: 0 <= p < q < |idx| ==> Before(findings, idx[p], idx[q])
  }

  lemma {:induction false} InsertKeepsOrder(findings: seq<Finding>, i: nat, idx: seq<nat>)
    requires InOrder(findings, idx) && forall j :: j in idx ==> i < j
    ensures InOrder(findings, Insert(i, idx, ByRank(findings)))
  {
    if idx != [] && !ByRank(findings)(i, idx[0]) {
      assert forall j :: j in idx[1..] ==> j in idx;
      InsertKeepsOrder(findings, i, idx[1..]);
      var rest := Insert(i, idx[1..], ByRank(findings));
      InsertHasSameElements(i, idx[1..], ByRank(findings));
      forall q | 0 <= q < |rest|
        ensures Before(findings, idx[0], rest[q])
      {
        assert rest[q] in rest;
      }
    } else if idx != [] {
      forall q | 0 <= q < |idx|
        ensures Before(findings, i, idx[q])
      {
        assert idx[q] in idx;
        assert q > 0 ==> Before(findings, idx[0], idx[q]);
      }
    }
  }

  /** A stable sort of ascending indexes by rank orders them by rank, then position. */
  lemma {:induction false} SortOrders(findings: seq<Finding>, idx: seq<nat>)
    requires IsAscending(idx)
    ensures InOrder(findings, Sort(idx, ByRank(findings)))
  {
    if idx != [] {
      SortOrders(findings, idx[1..]);
      SortHasSameElements(idx[1..], ByRank(findings));
      InsertKeepsOrder(findings, idx[0], Sort(idx[1..], ByRank(findings)));
    }
  }

  lemma OrderedExactly(findings: seq<Finding>, kind: Kind)
    ensures InOrder(findings, Ordered(findings, kind))
    ensures forall i :: i in Ordered(findings, kind) <==> 0 <= i < |findings| && Counts(findings[i], kind)
    ensures |Ordered(findings, kind)| == |Counted(findings, kind, |findings|)|
  {
    CountedExactly(findings, kind, |findings|);
    SortOrders(findings, Counted(findings, kind, |findings|));
    SortHasSameElements(Counted(findings, kind, |findings|), ByRank(findings));
  }

  // ---------- the method ----------

  const ALL: seq<Kind> := [Bug, Test, Refactor, Improvement, Feature]

  /** What the loop over the kinds has decided after the first `n` of them. */
  ghost predicate KeepSoFar(findings: seq<Finding>, keep: seq<bool>, n: nat)
    requires n <= |ALL|
  {
    && |keep| == |findings|
    && forall i :: 0 <= i < |findings| ==> (keep[i] <==> !(findings[i].kind in ALL[..n] && LeftOut(findings, i)))
  }

  method CapSuggestions(findings: seq<Finding>) returns (kept: seq<Finding>, leftOut: nat)
    ensures exists keep :: IsKeep(findings, keep) && kept == Kept(findings, keep, |findings|)
                           && leftOut == CountFalse(keep, |findings|)
  {
    var keep := new bool[|findings|](i => true);
    assert forall i :: 0 <= i < keep.Length ==> keep[i];
    for n := 0 to |ALL|
      invariant KeepSoFar(findings, keep[..], n)
    {
      ghost var before := keep[..];
      if Cap(ALL[n]).Some? {
        Drop(keep, Ordered(findings, ALL[n]), Cap(ALL[n]).value, findings, ALL[n]);
      }
      KindDecided(findings, before, keep[..], n);
    }
    AllKindsDecided(findings, keep[..]);
    kept, leftOut := Sift(findings, keep[..]);
  }

  /** Splits off what is kept and counts the rest. */
  method Sift(findings: seq<Finding>, keep: seq<bool>) returns (kept: seq<Finding>, leftOut: nat)
    requires |keep| == |findings|
    ensures kept == Kept(findings, keep, |findings|) && leftOut == CountFalse(keep, |findings|)
  {
    kept, leftOut := [], 0;
    for k := 0 to |findings|
      invariant kept == Kept(findings, keep, k)
      invariant leftOut == CountFalse(keep, k)
    {
      if keep[k] {
        kept := kept + [findings[k]];
      } else {
        leftOut := leftOut + 1;
      }
    }
  }

  /** Unmarks what stands behind the first `cap` of the ordered findings; all other marks stay as they are. */
  method Drop(keep: array<bool>, idx: seq<nat>, cap: nat, ghost findings: seq<Finding>, ghost kind: Kind)
    requires keep.Length == |findings| && idx == Ordered(findings, kind)
    modifies keep
    ensures forall i :: 0 <= i < keep.Length ==>
                          (keep[i] <==> old(keep[i]) && !exists p :: cap <= p < |idx| && idx[p] == i)
  {
    OrderedExactly(findings, kind);
    for q := 0 to |idx|
      invariant forall i :: 0 <= i < keep.Length ==>
                              (keep[i] <==> old(keep[i]) && !exists p :: cap <= p < q && idx[p] == i)
    {
      assert idx[q] in idx;
      if q >= cap {
        keep[idx[q]] := false;
      }
    }
  }

  lemma KindDecided(findings: seq<Finding>, before: seq<bool>, after: seq<bool>, n: nat)
    requires n < |ALL| && KeepSoFar(findings, before, n) && |after| == |findings|
    requires forall i :: 0 <= i < |after| ==>
               (after[i] <==>
                && before[i]
                && !(&& Cap(ALL[n]).Some?
                     && exists p :: && Cap(ALL[n]).value <= p < |Ordered(findings, ALL[n])|
                                    && Ordered(findings, ALL[n])[p] == i))
    ensures KeepSoFar(findings, after, n + 1)
  {
    hide Ordered;
    OrderedExactly(findings, ALL[n]);
    assert ALL[..n + 1] == ALL[..n] + [ALL[n]];
    forall i | 0 <= i < |findings| && findings[i].kind != ALL[n]
      ensures i !in Ordered(findings, ALL[n])
    {
    }
  }

  lemma AllKindsDecided(findings: seq<Finding>, keep: seq<bool>)
    requires KeepSoFar(findings, keep, |ALL|)
    ensures IsKeep(findings, keep)
  {
    assert ALL[..|ALL|] == ALL;
    forall i | 0 <= i < |findings|
      ensures findings[i].kind in ALL
    {
      var k := findings[i].kind;
      assert k == ALL[0] || k == ALL[1] || k == ALL[2] || k == ALL[3] || k == ALL[4];
    }
  }

  // ---------- main results ----------

  lemma OrderedIsDistinct(findings: seq<Finding>, kind: Kind)
    ensures NoRepeats(Ordered(findings, kind))
  {
    OrderedExactly(findings, kind);
  }

  /** Bugs and rejected findings are never left out. */
  lemma BugsAndRejectedStay(findings: seq<Finding>, i: nat)
    requires i < |findings| && (findings[i].kind == Bug || findings[i].verdict == Some(Rejected))
    ensures !LeftOut(findings, i)
  {
    hide Ordered;
    OrderedExactly(findings, findings[i].kind);
    assert i !in Ordered(findings, findings[i].kind) || findings[i].kind == Bug;
  }

  /** What is left out comes after everything of its kind the cap counts and keeps. */
  lemma WorstAreLeftOut(findings: seq<Finding>, i: nat, j: nat)
    requires i < |findings| && j < |findings| && LeftOut(findings, i) && !LeftOut(findings, j)
    requires findings[j].kind == findings[i].kind && findings[j].verdict != Some(Rejected)
    ensures Before(findings, j, i)
  {
    hide Ordered;
    var kind := findings[i].kind;
    var idx := Ordered(findings, kind);
    OrderedExactly(findings, kind);
    assert j in idx;
    var p :| Cap(kind).value <= p < |idx| && idx[p] == i;
    var q :| 0 <= q < |idx| && idx[q] == j;
    assert q < Cap(kind).value;
  }

  /** The counted findings that stay, among the first `k`, as a set of indexes. */
  ghost function Staying(findings: seq<Finding>, keep: seq<bool>, kind: Kind, k: nat): (s: set<nat>)
    requires k <= |findings| == |keep|
  {
    set i: nat | i < k && Counts(findings[i], kind) && keep[i]
  }

  lemma {:induction false} CountedOfPrefix(a: seq<Finding>, b: seq<Finding>, kind: Kind, k: nat)
    requires k <= |a| && k <= |b| && forall i :: 0 <= i < k ==> a[i] == b[i]
    ensures Counted(a, kind, k) == Counted(b, kind, k)
  {
    if k > 0 {
      CountedOfPrefix(a, b, kind, k - 1);
    }
  }

  lemma CountedOfSnoc(findings: seq<Finding>, f: Finding, kind: Kind)
    ensures Counted(findings + [f], kind, |findings| + 1)
         == Counted(findings, kind, |findings|) + if Counts(f, kind) then [|findings|] else []
  {
    CountedOfPrefix(findings + [f], findings, kind, |findings|);
  }

  lemma NothingCounted(kind: Kind)
    ensures Counted([], kind, 0) == []
  {
  }

  lemma {:induction false} KeptCounts(findings: seq<Finding>, keep: seq<bool>, kind: Kind, k: nat)
    requires k <= |findings| == |keep|
    ensures |Counted(Kept(findings, keep, k), kind, |Kept(findings, keep, k)|)| == |Staying(findings, keep, kind, k)|
  {
    hide Counts, Counted;
    if k > 0 {
      KeptCounts(findings, keep, kind, k - 1);
      CountedOfSnoc(Kept(findings, keep, k - 1), findings[k - 1], kind);
      assert Kept(findings, keep, k - 1) + [] == Kept(findings, keep, k - 1);
      var s := Staying(findings, keep, kind, k - 1);
      if Counts(findings[k - 1], kind) && keep[k - 1] {
        assert Staying(findings, keep, kind, k) == s + {k - 1};
        assert k - 1 !in s;
      } else {
        assert Staying(findings, keep, kind, k) == s;
      }
    } else {
      assert Staying(findings, keep, kind, 0) == {};
      NothingCounted(kind);
    }
  }

  lemma {:induction false} SizeOfDistinct(idx: seq<nat>, k: nat)
    requires k <= |idx| && NoRepeats(idx)
    ensures |set p | 0 <= p < k :: idx[p]| == k
  {
    var all := set p | 0 <= p < k :: idx[p];
    if k > 0 {
      SizeOfDistinct(idx, k - 1);
      var s := set p | 0 <= p < k - 1 :: idx[p];
      assert all == s + {idx[k - 1]};
      assert idx[k - 1] !in s;
    } else {
      assert all == {};
    }
  }

  function Limited(kind: Kind, n: nat): (m: nat) {
    match Cap(kind)
    case None => n
    case Some(cap) => if n <= cap then n else cap
  }

  /** Of every capped kind exactly as many unrejected findings stay as the cap allows, of the others all. */
  lemma ExactlyTheCapStays(findings: seq<Finding>, keep: seq<bool>, kind: Kind)
    requires IsKeep(findings, keep)
    ensures var kept := Kept(findings, keep, |findings|);
            |Counted(kept, kind, |kept|)| == Limited(kind, |Counted(findings, kind, |findings|)|)
  {
    hide Ordered, Counted, Kept;
    var idx := Ordered(findings, kind);
    OrderedExactly(findings, kind);
    OrderedIsDistinct(findings, kind);
    KeptCounts(findings, keep, kind, |findings|);
    var m := Limited(kind, |idx|);
    SizeOfDistinct(idx, m);
    var firsts := set p | 0 <= p < m :: idx[p];
    forall i: nat
      ensures i in firsts <==> i in Staying(findings, keep, kind, |findings|)
    {
      FirstsStay(findings, keep, kind, i);
    }
    assert firsts == Staying(findings, keep, kind, |findings|);
  }

  lemma FirstsStay(findings: seq<Finding>, keep: seq<bool>, kind: Kind, i: nat)
    requires IsKeep(findings, keep)
    ensures (exists p :: 0 <= p < Limited(kind, |Ordered(findings, kind)|) && Ordered(findings, kind)[p] == i)
       <==> i in Staying(findings, keep, kind, |findings|)
  {
    hide Ordered;
    var idx := Ordered(findings, kind);
    var m := Limited(kind, |idx|);
    OrderedExactly(findings, kind);
    OrderedIsDistinct(findings, kind);
    if p :| 0 <= p < m && idx[p] == i {
      assert i in idx;
    }
    if i in Staying(findings, keep, kind, |findings|) {
      assert i in idx;
      var p :| 0 <= p < |idx| && idx[p] == i;
    }
  }

  /** The count of what was left out is exact. */
  lemma {:induction false} LeftOutIsCounted(findings: seq<Finding>, keep: seq<bool>, k: nat)
    requires k <= |findings| == |keep|
    ensures |Kept(findings, keep, k)| + CountFalse(keep, k) == k
  {
    if k > 0 {
      LeftOutIsCounted(findings, keep, k - 1);
    }
  }

  lemma {:induction false} KeepingAll(findings: seq<Finding>, keep: seq<bool>, k: nat)
    requires k <= |findings| == |keep| && forall i :: 0 <= i < k ==> keep[i]
    ensures Kept(findings, keep, k) == findings[..k] && CountFalse(keep, k) == 0
  {
    if k > 0 {
      KeepingAll(findings, keep, k - 1);
      assert findings[..k] == findings[..k - 1] + [findings[k - 1]];
    } else {
      assert findings[..0] == [];
    }
  }

  /** Capping what was capped leaves nothing out and changes nothing. */
  lemma CappingIsIdempotent(findings: seq<Finding>, keep: seq<bool>, again: seq<bool>)
    requires IsKeep(findings, keep) && IsKeep(Kept(findings, keep, |findings|), again)
    ensures var kept := Kept(findings, keep, |findings|);
            Kept(kept, again, |kept|) == kept && CountFalse(again, |kept|) == 0
  {
    hide Ordered, Counted, Kept;
    var kept := Kept(findings, keep, |findings|);
    forall i | 0 <= i < |kept|
      ensures !LeftOut(kept, i)
    {
      ExactlyTheCapStays(findings, keep, kept[i].kind);
      OrderedExactly(kept, kept[i].kind);
    }
    KeepingAll(kept, again, |kept|);
    assert kept[..|kept|] == kept;
  }

  // ---------- by verdict, kind and number ----------

  /** What is left out was checked no better than what stays: confirmed stand before unsure, those before unchecked. */
  lemma WorstVerdictsAreLeftOut(findings: seq<Finding>, i: nat, j: nat)
    requires i < |findings| && j < |findings| && LeftOut(findings, i) && !LeftOut(findings, j)
    requires findings[j].kind == findings[i].kind && findings[j].verdict != Some(Rejected)
    ensures findings[i].verdict == Some(Confirmed) ==> findings[j].verdict == Some(Confirmed)
    ensures findings[i].verdict == Some(Unsure) ==> findings[j].verdict != None
    ensures findings[i].verdict != Some(Rejected)
    ensures findings[i].verdict == findings[j].verdict ==> j < i
  {
    WorstAreLeftOut(findings, i, j);
    hide LeftOut;
    if findings[i].verdict == Some(Rejected) {
      BugsAndRejectedStay(findings, i);
    }
  }

  /** The positions of a kind's unrejected findings. */
  ghost function Unrejected(findings: seq<Finding>, kind: Kind, k: nat): (positions: set<nat>)
    requires k <= |findings|
  {
    set i: nat | i < k && findings[i].kind == kind && findings[i].verdict != Some(Rejected)
  }

  lemma UnrejectedGrows(findings: seq<Finding>, kind: Kind, k: nat)
    requires k < |findings|
    ensures |Unrejected(findings, kind, k + 1)|
         == |Unrejected(findings, kind, k)| + if Counts(findings[k], kind) then 1 else 0
  {
    var before, next := Unrejected(findings, kind, k), k + 1;
    if Counts(findings[k], kind) {
      assert Unrejected(findings, kind, next) == before + {k};
    } else {
      assert Unrejected(findings, kind, next) == before;
    }
  }

  lemma CountedGrows(findings: seq<Finding>, kind: Kind, k: nat)
    requires k < |findings|
    ensures |Counted(findings, kind, k + 1)|
         == |Counted(findings, kind, k)| + if Counts(findings[k], kind) then 1 else 0
  {
  }

  lemma {:induction false} CountedAreUnrejected(findings: seq<Finding>, kind: Kind, k: nat)
    requires k <= |findings|
    ensures |Counted(findings, kind, k)| == |Unrejected(findings, kind, k)|
  {
    hide Counted, Unrejected, Counts;
    if k > 0 {
      CountedAreUnrejected(findings, kind, k - 1);
      UnrejectedGrows(findings, kind, k - 1);
      CountedGrows(findings, kind, k - 1);
    } else {
      NothingIsUnrejected(findings, kind);
    }
  }

  lemma NothingIsUnrejected(findings: seq<Finding>, kind: Kind)
    ensures Unrejected(findings, kind, 0) == {} && Counted(findings, kind, 0) == []
  {
  }

  /** Three tests, refactors and improvements stay at most, two ideas, and every bug. */
  lemma ThreeStayOrTwo(findings: seq<Finding>, keep: seq<bool>, kind: Kind)
    requires IsKeep(findings, keep)
    ensures var kept := Kept(findings, keep, |findings|);
            var n, m := |Unrejected(findings, kind, |findings|)|, |Unrejected(kept, kind, |kept|)|;
            match kind
            case Bug => m == n
            case Feature => m == if n <= 2 then n else 2
            case _ => m == if n <= 3 then n else 3
  {
    hide Kept, Counted, Ordered, Unrejected;
    var kept := Kept(findings, keep, |findings|);
    ExactlyTheCapStays(findings, keep, kind);
    CountedAreUnrejected(findings, kind, |findings|);
    CountedAreUnrejected(kept, kind, |kept|);
  }

  ghost predicate ArePlaces(findings: seq<Finding>, keep: seq<bool>, k: nat, positions: seq<nat>)
    requires k <= |findings| == |keep|
  {
    && |positions| == |Kept(findings, keep, k)| && IsAscending(positions)
    && (forall p :: 0 <= p < |positions| ==> positions[p] < k && Kept(findings, keep, k)[p] == findings[positions[p]])
    && (forall i :: i in positions <==> 0 <= i < k && keep[i])
  }

  lemma PlacesGrow(findings: seq<Finding>, keep: seq<bool>, k: nat, positions: seq<nat>)
    requires k < |findings| == |keep| && ArePlaces(findings, keep, k, positions)
    ensures ArePlaces(findings, keep, k + 1, if keep[k] then positions + [k] else positions)
  {
    if keep[k] {
      var after, next := positions + [k], k + 1;
      assert forall i :: i in after <==> i in positions || i == k;
    }
  }

  /** What stays keeps its order: the kept findings are those at ascending positions, the ones marked to be kept. */
  lemma {:induction false} KeptInOrder(findings: seq<Finding>, keep: seq<bool>, k: nat) returns (positions: seq<nat>)
    requires k <= |findings| == |keep|
    ensures ArePlaces(findings, keep, k, positions)
  {
    if k == 0 {
      positions := [];
    } else {
      positions := KeptInOrder(findings, keep, k - 1);
      PlacesGrow(findings, keep, k - 1, positions);
      hide ArePlaces;
      positions := if keep[k - 1] then positions + [k - 1] else positions;
    }
  }
}
