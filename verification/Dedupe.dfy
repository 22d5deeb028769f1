/** Merging findings that are the same bug reported twice: `dedupe` in dedupe.rs. */
module Dedupe {
  import opened Wrappers
  import opened Text
  import opened Sorting
  import opened Findings

  /** Two reports of one problem: they agree on kind and file, and on the line or, up to white space, on the quote. */
  predicate SameBug(a: Finding, b: Finding) {
    && a.kind == b.kind && a.repo == b.repo && a.path == b.path
    && (a.line == b.line || Squash(a.quote) == Squash(b.quote))
  }

  /** The reviewers so far and the first `k` new ones, nobody twice. */
  function AddReviewers(names: seq<string>, more: seq<string>, k: nat): (all: seq<string>)
    requires k <= |more|
  {
    if k == 0 then names
    else
      var all := AddReviewers(names, more, k - 1);
      if more[k - 1] in all then all else all + [more[k - 1]]
  }

  /** One repeat merged in: the worse severity, every reviewer, the longer scenario, the first patch. */
  function Merge(existing: Finding, f: Finding): (merged: Finding) {
    existing.(
      severity := if SeverityRank(f.severity) < SeverityRank(existing.severity) then f.severity else existing.severity,
      foundBy := AddReviewers(existing.foundBy, f.foundBy, |f.foundBy|),
      scenario := if ByteLen(existing.scenario) < ByteLen(f.scenario) then f.scenario else existing.scenario,
      patch := if existing.patch == "" then f.patch else existing.patch)
  }

  /** The first finding from `i` on that is the same bug, or the length. */
  function FirstSame(out: seq<Finding>, f: Finding, i: nat): (r: nat)
    requires i <= |out|
    ensures i <= r <= |out|
    ensures r < |out| ==> SameBug(out[r], f)
    ensures forall k :: i <= k < r ==> !SameBug(out[k], f)
    decreases |out| - i
  {
    if i == |out| || SameBug(out[i], f) then i else FirstSame(out, f, i + 1)
  }

  function Entered(out: seq<Finding>, f: Finding): (after: seq<Finding>) {
    var r := FirstSame(out, f, 0);
    if r < |out| then out[r := Merge(out[r], f)] else out + [f]
  }

  function MergeAll(findings: seq<Finding>, k: nat): (out: seq<Finding>)
    requires k <= |findings|
  {
    if k == 0 then [] else Entered(MergeAll(findings, k - 1), findings[k - 1])
  }

  /** The report's order: kind, severity, repo, path, line. */
  predicate KeyLess(a: Finding, b: Finding) {
    || KindRank(a.kind) < KindRank(b.kind)
    || (a.kind == b.kind
        && (|| SeverityRank(a.severity) < SeverityRank(b.severity)
            || (a.severity == b.severity
                && (|| Less(a.repo, b.repo)
                    || (a.repo == b.repo && (Less(a.path, b.path) || (a.path == b.path && a.line < b.line)))))))
  }

  predicate KeyLe(a: Finding, b: Finding) {
    !KeyLess(b, a)
  }

  function Deduped(findings: seq<Finding>): (out: seq<Finding>) {
    Sort(MergeAll(findings, |findings|), KeyLe)
  }

  // ---------- the methods ----------

  method Dedupe(findings: seq<Finding>) returns (out: seq<Finding>)
    ensures out == Deduped(findings)
  {
    out := [];
    for k := 0 to |findings|
      invariant out == MergeAll(findings, k)
    {
      var r := FirstSame(out, findings[k], 0);
      if r < |out| {
        var existing := MergeInto(out[r], findings[k]);
        out := out[r := existing];
      } else {
        out := out + [findings[k]];
      }
    }
    out := Sort(out, KeyLe);
  }

  method MergeInto(before: Finding, f: Finding) returns (existing: Finding)
    ensures existing == Merge(before, f)
  {
    existing := before;
    if SeverityRank(f.severity) < SeverityRank(existing.severity) {
      existing := existing.(severity := f.severity);
    }
    for k := 0 to |f.foundBy|
      invariant existing.foundBy == AddReviewers(before.foundBy, f.foundBy, k)
      invariant existing
             == Merge(before, f).(foundBy := existing.foundBy, scenario := before.scenario, patch := before.patch)
    {
      if f.foundBy[k] !in existing.foundBy {
        existing := existing.(foundBy := existing.foundBy + [f.foundBy[k]]);
      }
    }
    if ByteLen(existing.scenario) < ByteLen(f.scenario) {
      existing := existing.(scenario := f.scenario);
    }
    if existing.patch == "" {
      existing := existing.(patch := f.patch);
    }
  }

  // ---------- the order ----------

  lemma KeyLessIsTransitive(a: Finding, b: Finding, c: Finding)
    requires KeyLess(a, b) && KeyLess(b, c)
    ensures KeyLess(a, c)
  {
    if Less(a.repo, b.repo) && Less(b.repo, c.repo) {
      LessIsTransitive(a.repo, b.repo, c.repo);
    }
    if Less(a.path, b.path) && Less(b.path, c.path) {
      LessIsTransitive(a.path, b.path, c.path);
    }
  }

  lemma KeyLessIsTotal(a: Finding, b: Finding)
    ensures !(KeyLess(a, b) && KeyLess(b, a))
    ensures KeyLess(a, b) || KeyLess(b, a)
         || (a.kind == b.kind && a.severity == b.severity && a.repo == b.repo && a.path == b.path && a.line == b.line)
  {
    LessIsTotal(a.repo, b.repo);
    LessIsTotal(a.path, b.path);
  }

  lemma KeyLeIsTotalPreorder()
    ensures IsTotalPreorder(KeyLe)
  {
    forall x, y
      ensures KeyLe(x, y) || KeyLe(y, x)
    {
      KeyLessIsTotal(x, y);
    }
    forall x, y, z | KeyLe(x, y) && KeyLe(y, z)
      ensures KeyLe(x, z)
    {
      NotAboveIsTransitive(x, y, z);
    }
  }

  lemma NotAboveIsTransitive(x: Finding, y: Finding, z: Finding)
    requires !KeyLess(y, x) && !KeyLess(z, y)
    ensures !KeyLess(z, x)
  {
    KeyLessIsTotal(x, y);
    KeyLessIsTotal(y, z);
    if KeyLess(x, y) && KeyLess(y, z) {
      KeyLessIsTransitive(x, y, z);
      KeyLessIsTotal(x, z);
    }
  }

  // ---------- who stands for whom ----------

  /** The findings that open an entry, by index: same as no earlier one that did. */
  function Founders(findings: seq<Finding>, k: nat): (founders: seq<nat>)
    requires k <= |findings|
    ensures forall r :: 0 <= r < |founders| ==> founders[r] < k
  {
    if k == 0 then []
    else
      var founders := Founders(findings, k - 1);
      if Joins(findings, founders, k - 1, 0) < |founders| then founders else founders + [k - 1]
  }

  /** The first founder, from entry `r` on, that finding `i` repeats. */
  function Joins(findings: seq<Finding>, founders: seq<nat>, i: nat, r: nat): (entry: nat)
    requires i < |findings| && r <= |founders|
    requires forall r' :: 0 <= r' < |founders| ==> founders[r'] < |findings|
    ensures r <= entry <= |founders|
    ensures entry < |founders| ==> SameBug(findings[founders[entry]], findings[i])
    ensures forall r' :: r <= r' < entry ==> !SameBug(findings[founders[r']], findings[i])
    decreases |founders| - r
  {
    if r == |founders| || SameBug(findings[founders[r]], findings[i]) then r else Joins(findings, founders, i, r + 1)
  }

  /** The entry finding `i` ends up in: the first whose founder it repeats, or its own. */
  function Entry(findings: seq<Finding>, i: nat): (entry: nat)
    requires i < |findings|
  {
    Joins(findings, Founders(findings, i), i, 0)
  }

  /** What a merge never changes. */
  predicate SameIdentity(a: Finding, b: Finding) {
    a == b.(severity := a.severity, foundBy := a.foundBy, scenario := a.scenario, patch := a.patch)
  }

  /** The findings, among the first `k`, that ended up in entry `r`. */
  ghost function Members(findings: seq<Finding>, k: nat, r: nat): (members: set<nat>)
    requires k <= |findings|
    ensures forall i :: i in members ==> i < k
  {
    if k == 0 then {} else Members(findings, k - 1, r) + if Entry(findings, k - 1) == r then {k - 1} else {}
  }

  /** An entry is its founder with what its members brought: exactly that, and nothing lost. */
  ghost predicate Gathers(findings: seq<Finding>, members: set<nat>, founder: nat, entry: Finding)
    requires founder < |findings| && forall i :: i in members ==> i < |findings|
  {
    && SameIdentity(entry, findings[founder])
    && (forall i :: i in members ==> Covers(entry, findings[i]))
    && (exists i :: i in members && findings[i].severity == entry.severity)
    && (exists i :: i in members && findings[i].scenario == entry.scenario)
    && (exists i :: i in members && findings[i].patch == entry.patch)
    && (forall who :: who in entry.foundBy ==> exists i :: i in members && who in findings[i].foundBy)
    && TakesEarliest(findings, members, founder, entry)
  }

  /** What several members could give comes from the earliest: the place, the longest scenario, the first patch. */
  ghost predicate TakesEarliest(findings: seq<Finding>, members: set<nat>, founder: nat, entry: Finding)
    requires founder < |findings| && forall i :: i in members ==> i < |findings|
  {
    && (forall i :: i in members ==> founder <= i)
    && findings[founder].foundBy <= entry.foundBy
    && (exists n :: n in members && findings[n].scenario == entry.scenario
                 && forall i :: i in members && i < n ==> ByteLen(findings[i].scenario) < ByteLen(entry.scenario))
    && (exists p :: p in members && findings[p].patch == entry.patch
                 && forall i :: i in members && i < p ==> findings[i].patch == "")
  }

  /** At least as severe, with every reviewer, a scenario no shorter, and a patch if there was one. */
  predicate Covers(entry: Finding, f: Finding) {
    && SameBug(entry, f)
    && SeverityRank(entry.severity) <= SeverityRank(f.severity)
    && (forall who :: who in f.foundBy ==> who in entry.foundBy)
    && ByteLen(f.scenario) <= ByteLen(entry.scenario)
    && (entry.patch == "" ==> f.patch == "")
  }

  lemma {:induction false} AddReviewersExactly(names: seq<string>, more: seq<string>, k: nat)
    requires k <= |more|
    ensures forall who :: who in AddReviewers(names, more, k) <==> who in names || who in more[..k]
    ensures names <= AddReviewers(names, more, k)
  {
    if k > 0 {
      AddReviewersExactly(names, more, k - 1);
      assert more[..k] == more[..k - 1] + [more[k - 1]];
    }
  }

  lemma MergeCovers(existing: Finding, f: Finding)
    requires SameBug(existing, f)
    ensures var merged := Merge(existing, f);
            && SameIdentity(merged, existing) && Covers(merged, f)
            && (forall g :: Covers(existing, g) ==> Covers(merged, g))
            && (forall who :: who in merged.foundBy ==> who in existing.foundBy || who in f.foundBy)
  {
    hide Squash, ByteLen;
    AddReviewersExactly(existing.foundBy, f.foundBy, |f.foundBy|);
    assert f.foundBy[..|f.foundBy|] == f.foundBy;
  }

  /** Entries keep the place and the identity of their founders. */
  ghost predicate Tracks(findings: seq<Finding>, k: nat, out: seq<Finding>)
    requires k <= |findings|
  {
    && |out| == |Founders(findings, k)|
    && forall r :: 0 <= r < |out| ==> Gathers(findings, Members(findings, k, r), Founders(findings, k)[r], out[r])
  }

  lemma {:induction false} SameEntryAsFounder(
    findings: seq<Finding>, k: nat, founders: seq<nat>, out: seq<Finding>, r: nat)
    requires k < |findings| && r <= |out| == |founders|
    requires forall i :: 0 <= i < |out| ==> founders[i] < |findings| && SameIdentity(out[i], findings[founders[i]])
    ensures FirstSame(out, findings[k], r) == Joins(findings, founders, k, r)
    decreases |out| - r
  {
    hide Squash;
    if r < |out| {
      SameEntryAsFounder(findings, k, founders, out, r + 1);
    }
  }

  lemma SameBugIsReflexive(a: Finding)
    ensures SameBug(a, a)
  {
  }

  predicate BringsNoMore(f: Finding, entry: Finding) {
    ByteLen(f.scenario) <= ByteLen(entry.scenario) && (entry.patch == "" ==> f.patch == "")
  }

  lemma MergedTakesEarliest(findings: seq<Finding>, members: set<nat>, founder: nat, entry: Finding, k: nat)
    requires k < |findings| && founder < k && forall i :: i in members ==> i < k
    requires TakesEarliest(findings, members, founder, entry)
    requires forall i :: i in members ==> BringsNoMore(findings[i], entry)
    ensures TakesEarliest(findings, members + {k}, founder, Merge(entry, findings[k]))
  {
    hide ByteLen;
    var f, after := findings[k], members + {k};
    AddReviewersExactly(entry.foundBy, f.foundBy, |f.foundBy|);
    var n :| n in members && findings[n].scenario == entry.scenario
          && forall i :: i in members && i < n ==> ByteLen(findings[i].scenario) < ByteLen(entry.scenario);
    var p :| p in members && findings[p].patch == entry.patch
          && forall i :: i in members && i < p ==> findings[i].patch == "";
    assert n in after && p in after && k in after;
  }

  lemma GatheredIsCovered(findings: seq<Finding>, members: set<nat>, founder: nat, entry: Finding)
    requires founder < |findings| && forall i :: i in members ==> i < |findings|
    requires Gathers(findings, members, founder, entry)
    ensures forall i :: i in members ==> BringsNoMore(findings[i], entry)
  {
    hide Squash, ByteLen;
    forall i | i in members
      ensures BringsNoMore(findings[i], entry)
    {
      assert Covers(entry, findings[i]);
    }
  }

  lemma MergedGathers(findings: seq<Finding>, members: set<nat>, founder: nat, entry: Finding, k: nat)
    requires k < |findings| && founder < k && forall i :: i in members ==> i < k
    requires Gathers(findings, members, founder, entry) && SameBug(entry, findings[k])
    ensures Gathers(findings, members + {k}, founder, Merge(entry, findings[k]))
  {
    hide Squash, ByteLen, Covers, AddReviewers, SameBug, TakesEarliest;
    GatheredIsCovered(findings, members, founder, entry);
    MergedTakesEarliest(findings, members, founder, entry, k);
    var merged := Merge(entry, findings[k]);
    MergeCovers(entry, findings[k]);
    forall who | who in merged.foundBy
      ensures exists i :: i in members + {k} && who in findings[i].foundBy
    {
      if who in entry.foundBy {
        var i :| i in members && who in findings[i].foundBy;
        assert i in members + {k};
      } else {
        assert k in members + {k};
      }
    }
    assert k in members + {k};
    var s :| s in members && findings[s].severity == entry.severity;
    var n :| n in members && findings[n].scenario == entry.scenario;
    var p :| p in members && findings[p].patch == entry.patch;
    assert s in members + {k} && n in members + {k} && p in members + {k};
  }

  lemma FoundedGathers(findings: seq<Finding>, k: nat)
    requires k < |findings|
    ensures Gathers(findings, {k}, k, findings[k])
  {
    hide Squash, ByteLen;
    SameBugIsReflexive(findings[k]);
    assert k in {k};
  }

  lemma {:induction false} EntriesAreEarlier(findings: seq<Finding>, k: nat, r: nat)
    requires k <= |findings| && r >= |Founders(findings, k)|
    ensures Members(findings, k, r) == {}
  {
    hide SameBug;
    if k > 0 {
      EntriesAreEarlier(findings, k - 1, r);
    }
  }

  /** One finding more: it joins the entry of the founder it repeats, or founds one. */
  lemma EnteredTracks(findings: seq<Finding>, k: nat, out: seq<Finding>)
    requires k < |findings| && Tracks(findings, k, out)
    ensures Tracks(findings, k + 1, Entered(out, findings[k]))
  {
    hide SameBug, Merge, Gathers;
    var founders, f, r := Founders(findings, k), findings[k], FirstSame(out, findings[k], 0);
    forall s | 0 <= s < |out|
      ensures SameIdentity(out[s], findings[founders[s]])
    {
      GathersIdentity(findings, Members(findings, k, s), founders[s], out[s]);
    }
    SameEntryAsFounder(findings, k, founders, out, 0);
    if r < |out| {
      MergedGathers(findings, Members(findings, k, r), founders[r], out[r], k);
    } else {
      EntriesAreEarlier(findings, k, r);
      FoundedGathers(findings, k);
      assert {} + {k} == {k};
    }
    forall s | 0 <= s < |out| && s != r
      ensures Members(findings, k + 1, s) == Members(findings, k, s)
    {
      assert Members(findings, k, s) + {} == Members(findings, k, s);
    }
  }

  lemma GathersIdentity(findings: seq<Finding>, members: set<nat>, founder: nat, entry: Finding)
    requires founder < |findings| && forall i :: i in members ==> i < |findings|
    requires Gathers(findings, members, founder, entry)
    ensures SameIdentity(entry, findings[founder])
  {
  }

  lemma {:induction false} MergeAllTracks(findings: seq<Finding>, k: nat)
    requires k <= |findings|
    ensures Tracks(findings, k, MergeAll(findings, k))
  {
    hide Tracks, Entered;
    if k > 0 {
      MergeAllTracks(findings, k - 1);
      EnteredTracks(findings, k - 1, MergeAll(findings, k - 1));
    } else {
      NothingTracks(findings);
    }
  }

  lemma NothingTracks(findings: seq<Finding>)
    ensures Tracks(findings, 0, [])
  {
  }

  // ---------- main results ----------

  ghost predicate Apart(out: seq<Finding>) {
    forall i, j :: 0 <= i < j < |out| ==> !SameBug(out[i], out[j])
  }

  lemma {:induction false} FoundersAreApart(findings: seq<Finding>, k: nat)
    requires k <= |findings|
    ensures forall r, s :: 0 <= r < s < |Founders(findings, k)| ==>
                             !SameBug(findings[Founders(findings, k)[r]], findings[Founders(findings, k)[s]])
  {
    hide SameBug;
    if k > 0 {
      FoundersAreApart(findings, k - 1);
    }
  }

  lemma IdentityDecidesSameBug(a: Finding, a': Finding, b: Finding, b': Finding)
    requires SameIdentity(a, a') && SameIdentity(b, b')
    ensures SameBug(a, b) <==> SameBug(a', b')
  {
  }

  lemma MergedIsApart(findings: seq<Finding>)
    ensures Apart(MergeAll(findings, |findings|))
  {
    hide SameBug, MergeAll;
    var n, out := |findings|, MergeAll(findings, |findings|);
    MergeAllTracks(findings, n);
    FoundersAreApart(findings, n);
    forall i, j | 0 <= i < j < |out|
      ensures !SameBug(out[i], out[j])
    {
      IdentityDecidesSameBug(out[i], findings[Founders(findings, n)[i]], out[j], findings[Founders(findings, n)[j]]);
    }
  }

  lemma SameKeyIsSameBug(a: Finding, b: Finding)
    requires !SameBug(a, b)
    ensures KeyLess(a, b) || KeyLess(b, a)
    ensures !SameBug(b, a)
  {
    KeyLessIsTotal(a, b);
  }

  ghost predicate StrictlySorted(out: seq<Finding>) {
    forall i, j :: 0 <= i < j < |out| ==> KeyLess(out[i], out[j])
  }

  /** No two findings of the report are the same bug, and the report is strictly in order. */
  lemma ReportIsApartAndSorted(findings: seq<Finding>)
    ensures Apart(Deduped(findings)) && StrictlySorted(Deduped(findings))
  {
    hide SameBug, KeyLess;
    var merged, out := MergeAll(findings, |findings|), Deduped(findings);
    MergedIsApart(findings);
    KeyLeIsTotalPreorder();
    SortExactly(merged, KeyLe);
    var apart := (x: Finding, y: Finding) => !SameBug(x, y);
    forall x, y | apart(x, y)
      ensures apart(y, x)
    {
      SameKeyIsSameBug(x, y);
    }
    PairwiseAfterSort(merged, KeyLe, apart);
    forall i, j | 0 <= i < j < |out|
      ensures !SameBug(out[i], out[j]) && KeyLess(out[i], out[j])
    {
      assert apart(out[i], out[j]);
      SameKeyIsSameBug(out[i], out[j]);
      assert KeyLe(out[i], out[j]);
    }
  }

  lemma {:induction false} MemberOfItsEntry(findings: seq<Finding>, i: nat, k: nat)
    requires i < k <= |findings|
    ensures i in Members(findings, k, Entry(findings, i)) && Entry(findings, i) < |Founders(findings, k)|
    decreases k
  {
    hide SameBug;
    if i < k - 1 {
      MemberOfItsEntry(findings, i, k - 1);
    }
  }

  /** Every finding is covered: no severity, reviewer, scenario or patch is lost. */
  lemma NothingIsLost(findings: seq<Finding>, f: Finding)
    requires f in findings
    ensures exists rep :: rep in Deduped(findings) && Covers(rep, f)
  {
    hide Covers, KeyLe, SameBug, MergeAll;
    var n, out := |findings|, MergeAll(findings, |findings|);
    var i :| 0 <= i < n && findings[i] == f;
    MergeAllTracks(findings, n);
    MemberOfItsEntry(findings, i, n);
    var r := Entry(findings, i);
    assert Covers(out[r], f);
    SortHasSameElements(out, KeyLe);
    assert out[r] in Deduped(findings);
  }

  /** Everything in the report was reported, of the same bug. */
  ghost predicate WasReported(findings: seq<Finding>, rep: Finding) {
    && (exists f :: f in findings && SameIdentity(rep, f))
    && (exists f :: f in findings && Covers(rep, f) && f.severity == rep.severity)
    && (exists f :: f in findings && Covers(rep, f) && f.scenario == rep.scenario)
    && (exists f :: f in findings && Covers(rep, f) && f.patch == rep.patch)
    && (forall who :: who in rep.foundBy ==> exists f :: f in findings && Covers(rep, f) && who in f.foundBy)
  }

  lemma GatheredWasReported(findings: seq<Finding>, members: set<nat>, founder: nat, entry: Finding)
    requires founder < |findings| && forall i :: i in members ==> i < |findings|
    requires Gathers(findings, members, founder, entry)
    ensures WasReported(findings, entry)
  {
    hide Covers, SameIdentity;
    assert findings[founder] in findings;
    var s :| s in members && findings[s].severity == entry.severity;
    var n :| n in members && findings[n].scenario == entry.scenario;
    var p :| p in members && findings[p].patch == entry.patch;
    assert findings[s] in findings && findings[n] in findings && findings[p] in findings;
    forall who | who in entry.foundBy
      ensures exists f :: f in findings && Covers(entry, f) && who in f.foundBy
    {
      var i :| i in members && who in findings[i].foundBy;
      assert findings[i] in findings && Covers(entry, findings[i]);
    }
  }

  /** No entry, severity, scenario, patch or reviewer is invented. */
  lemma NothingIsInvented(findings: seq<Finding>, rep: Finding)
    requires rep in Deduped(findings)
    ensures WasReported(findings, rep)
  {
    hide Covers, KeyLe, SameBug, MergeAll, WasReported;
    var n, out := |findings|, MergeAll(findings, |findings|);
    MergeAllTracks(findings, n);
    SortHasSameElements(out, KeyLe);
    var r :| 0 <= r < |out| && out[r] == rep;
    GatheredWasReported(findings, Members(findings, n, r), Founders(findings, n)[r], rep);
  }

  lemma {:induction false} MergingApartChangesNothing(out: seq<Finding>, k: nat)
    requires k <= |out| && Apart(out)
    ensures MergeAll(out, k) == out[..k]
  {
    hide SameBug, Merge;
    if k > 0 {
      MergingApartChangesNothing(out, k - 1);
      assert FirstSame(out[..k - 1], out[k - 1], 0) == k - 1;
      assert out[..k] == out[..k - 1] + [out[k - 1]];
    }
  }

  /** Deduplicating a report again changes nothing. */
  lemma DedupeIsIdempotent(findings: seq<Finding>)
    ensures Deduped(Deduped(findings)) == Deduped(findings)
  {
    var out := Deduped(findings);
    ReportIsApartAndSorted(findings);
    MergingApartChangesNothing(out, |out|);
    assert out[..|out|] == out;
    forall i, j | 0 <= i < j < |out|
      ensures KeyLe(out[i], out[j])
    {
      KeyLessIsTotal(out[i], out[j]);
    }
    SortOfSorted(out, KeyLe);
  }

  // ---------- the report, field by field ----------

  /** Two reports of one problem, by their fields. */
  predicate Agree(a: Finding, b: Finding) {
    a.kind == b.kind && a.repo == b.repo && a.path == b.path && (a.line == b.line || Squash(a.quote) == Squash(b.quote))
  }

  /** The members of an entry: findings, by position. */
  predicate ArePositions(findings: seq<Finding>, members: set<nat>) {
    forall i :: i in members ==> i < |findings|
  }

  /** High if one of them is, low only if all are, and found by exactly their reviewers. */
  ghost predicate HasTheirs(findings: seq<Finding>, members: set<nat>, rep: Finding)
    requires ArePositions(findings, members)
  {
    && (forall i :: i in members ==> Agree(rep, findings[i]))
    && (rep.severity == High <==> exists i :: i in members && findings[i].severity == High)
    && (rep.severity == Low <==> forall i :: i in members ==> findings[i].severity == Low)
    && (forall who :: who in rep.foundBy <==> exists i :: i in members && who in findings[i].foundBy)
  }

  /** None has a longer scenario, and the first with one as long gives it. */
  ghost predicate HasLongest(findings: seq<Finding>, members: set<nat>, scenario: string)
    requires ArePositions(findings, members)
  {
    && (forall i :: i in members ==> ByteLen(findings[i].scenario) <= ByteLen(scenario))
    && (exists i :: i in members && findings[i].scenario == scenario
                 && forall j :: j in members && j < i ==> ByteLen(findings[j].scenario) < ByteLen(scenario))
  }

  /** The first patch any of them has, if one has. */
  ghost predicate HasFirstPatch(findings: seq<Finding>, members: set<nat>, patch: string)
    requires ArePositions(findings, members)
  {
    && (patch == "" <==> forall i :: i in members ==> findings[i].patch == "")
    && (exists i :: i in members && findings[i].patch == patch
                 && forall j :: j in members && j < i ==> findings[j].patch == "")
  }

  /** The earliest of them, whose reviewers come first and which gives all that is not merged. */
  ghost predicate IsFounder(findings: seq<Finding>, members: set<nat>, i: nat, rep: Finding) {
    && i < |findings| && findings[i].foundBy <= rep.foundBy && (forall j :: j in members ==> i <= j)
    && rep == findings[i].(
         severity := rep.severity, foundBy := rep.foundBy, scenario := rep.scenario, patch := rep.patch)
  }

  /** How an entry of the report stands for some findings: the first of them, with what the others brought. */
  ghost predicate StandsFor(findings: seq<Finding>, members: set<nat>, rep: Finding) {
    && members != {} && ArePositions(findings, members)
    && (exists i :: i in members && IsFounder(findings, members, i, rep))
    && HasTheirs(findings, members, rep)
    && HasLongest(findings, members, rep.scenario) && HasFirstPatch(findings, members, rep.patch)
  }

  lemma GatheredHasTheirs(findings: seq<Finding>, members: set<nat>, founder: nat, rep: Finding)
    requires founder < |findings| && ArePositions(findings, members) && Gathers(findings, members, founder, rep)
    ensures HasTheirs(findings, members, rep)
  {
    hide Squash, ByteLen, TakesEarliest;
    forall i | i in members
      ensures Agree(rep, findings[i]) && SeverityRank(rep.severity) <= SeverityRank(findings[i].severity)
      ensures forall who :: who in findings[i].foundBy ==> who in rep.foundBy
    {
      assert Covers(rep, findings[i]);
    }
  }

  lemma GatheredHasLongest(findings: seq<Finding>, members: set<nat>, founder: nat, rep: Finding)
    requires founder < |findings| && ArePositions(findings, members) && Gathers(findings, members, founder, rep)
    ensures HasLongest(findings, members, rep.scenario)
    ensures HasFirstPatch(findings, members, rep.patch)
  {
    GatheredIsCovered(findings, members, founder, rep);
    assert TakesEarliest(findings, members, founder, rep);
    hide ByteLen, Gathers;
  }

  lemma GatheredHasFounder(findings: seq<Finding>, members: set<nat>, founder: nat, rep: Finding)
    requires founder < |findings| && ArePositions(findings, members) && Gathers(findings, members, founder, rep)
    ensures IsFounder(findings, members, founder, rep)
  {
    hide ByteLen, Covers;
  }

  lemma GatheredStandsFor(findings: seq<Finding>, members: set<nat>, founder: nat, rep: Finding)
    requires founder in members && ArePositions(findings, members)
    requires Gathers(findings, members, founder, rep)
    ensures StandsFor(findings, members, rep)
  {
    hide Gathers, HasTheirs, HasLongest, HasFirstPatch, IsFounder;
    GatheredHasTheirs(findings, members, founder, rep);
    GatheredHasLongest(findings, members, founder, rep);
    GatheredHasFounder(findings, members, founder, rep);
  }

  lemma {:induction false} FounderIsMember(findings: seq<Finding>, k: nat, r: nat)
    requires k <= |findings| && r < |Founders(findings, k)|
    ensures Founders(findings, k)[r] in Members(findings, k, r)
  {
    hide SameBug;
    if k > 0 && r < |Founders(findings, k - 1)| {
      FounderIsMember(findings, k - 1, r);
    }
  }

  ghost predicate IsStoodFor(findings: seq<Finding>, i: nat) {
    exists rep, members :: rep in Deduped(findings) && i in members && StandsFor(findings, members, rep)
  }

  /** Every entry of the report stands for some of the findings, and every finding is stood for by an entry. */
  lemma ReportStandsForFindings(findings: seq<Finding>)
    ensures forall rep :: rep in Deduped(findings) ==> exists members :: StandsFor(findings, members, rep)
    ensures forall i: nat :: i < |findings| ==> IsStoodFor(findings, i)
  {
    hide KeyLe, SameBug, MergeAll, StandsFor, Gathers, Entry, Founders, Members;
    var n, out := |findings|, MergeAll(findings, |findings|);
    MergeAllTracks(findings, n);
    SortHasSameElements(out, KeyLe);
    forall r | 0 <= r < |out|
      ensures StandsFor(findings, Members(findings, n, r), out[r]) && out[r] in Deduped(findings)
    {
      FounderIsMember(findings, n, r);
      GatheredStandsFor(findings, Members(findings, n, r), Founders(findings, n)[r], out[r]);
      assert out[r] in out;
    }
    forall rep | rep in Deduped(findings)
      ensures exists members :: StandsFor(findings, members, rep)
    {
      var r :| 0 <= r < |out| && out[r] == rep;
    }
    forall i: nat | i < n
      ensures IsStoodFor(findings, i)
    {
      MemberOfItsEntry(findings, i, n);
      var r := Entry(findings, i);
      assert out[r] in Deduped(findings) && StandsFor(findings, Members(findings, n, r), out[r]);
    }
  }

  /**
   * The report reads bugs, tests, refactors, improvements, ideas; within a kind high, medium, low; within a severity by
   * repo, path and line. No two of its entries agree.
   */
  lemma ReportReadsInOrder(findings: seq<Finding>, i: nat, j: nat)
    requires i < j < |Deduped(findings)|
    ensures var a, b := Deduped(findings)[i], Deduped(findings)[j];
            && !Agree(a, b)
            && (b.kind == Bug ==> a.kind == Bug)
            && (b.kind == Test ==> a.kind == Bug || a.kind == Test)
            && (b.kind == Refactor ==> a.kind != Improvement && a.kind != Feature)
            && (b.kind == Improvement ==> a.kind != Feature)
            && (a.kind == b.kind && b.severity == High ==> a.severity == High)
            && (a.kind == b.kind && b.severity == Medium ==> a.severity != Low)
            && (a.kind == b.kind && a.severity == b.severity ==>
                  || Less(a.repo, b.repo)
                  || (a.repo == b.repo && Less(a.path, b.path))
                  || (a.repo == b.repo && a.path == b.path && a.line < b.line))
  {
    hide Deduped, Squash, Less;
    ReportIsApartAndSorted(findings);
    var a, b := Deduped(findings)[i], Deduped(findings)[j];
    assert KeyLess(a, b) && !SameBug(a, b);
  }

  // ---------- what being the same bug is not ----------

  /** A finding of which only the line and the quote matter here. */
  function Sample(line: nat, quote: string): (f: Finding) {
    Finding("", Bug, "r", "p", line, High, "", quote, "", "", "", None, [], None, None, None)
  }

  /**
   * The relation chains but does not close: `a` is the same bug as `b`, `b` as `c`, `a` not as `c`. So how many
   * findings are left depends on the order they come in: two with `b` in the middle, one with `b` in front.
   */
  lemma ResultDependsOnOrder()
    ensures var a, b, c := Sample(1, "x"), Sample(1, "y"), Sample(2, "y");
            && SameBug(a, b) && SameBug(b, c) && !SameBug(a, c)
            && |Deduped([a, b, c])| == 2 && |Deduped([b, a, c])| == 1
  {
    hide Squash, KeyLe;
    var a, b, c := Sample(1, "x"), Sample(1, "y"), Sample(2, "y");
    WordIsSquashed("x");
    WordIsSquashed("y");
    assert MergeAll([a, b, c], 1) == [a];
    assert MergeAll([a, b, c], 2) == [Merge(a, b)];
    assert |MergeAll([a, b, c], 3)| == 2;
    assert MergeAll([b, a, c], 1) == [b];
    assert MergeAll([b, a, c], 2) == [Merge(b, a)];
    assert |MergeAll([b, a, c], 3)| == 1;
    SortHasSameElements(MergeAll([a, b, c], 3), KeyLe);
    SortHasSameElements(MergeAll([b, a, c], 3), KeyLe);
  }
}
