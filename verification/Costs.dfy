/** What terminal sessions cost: `record_cost` in agentterm's lib.rs, in whole millionths of a dollar. */
module Costs {

  /** The files of one agent: what each session reported last, and what each day adds up to. */
  datatype Files = Files(sessions: map<string, int>, days: map<string, int>)

  /** A missing file reads as zero. */
  function ReadNum(files: map<string, int>, name: string): (n: int) {
    if name in files then files[name] else 0
  }

  function Recorded(files: Files, session: string, usd: int, today: string): (after: Files) {
    var before := ReadNum(files.sessions, session);
    if usd > before
    then Files(files.sessions[session := usd], files.days[today := ReadNum(files.days, today) + (usd - before)])
    else files
  }

  class CostBook {
    var sessions: map<string, int>
    var days: map<string, int>

    function Book(): (files: Files)
      reads this
    {
      Files(sessions, days)
    }

    constructor ()
      ensures Book() == Files(map[], map[])
    {
      sessions, days := map[], map[];
    }

    /** Adds the session's increase since its last report to the day; gives the session's cost and the day's. */
    method RecordCost(session: string, usd: int, today: string) returns (sessionCost: int, dayCost: int)
      modifies this
      ensures Book() == Recorded(old(Book()), session, usd, today)
      ensures sessionCost == (if usd > ReadNum(old(sessions), session) then usd else ReadNum(old(sessions), session))
      ensures dayCost == ReadNum(days, today)
    {
      var before := ReadNum(sessions, session);
      var day := ReadNum(days, today);
      var increase := if usd - before > 0 then usd - before else 0;
      if increase > 0 {
        day := day + increase;
        days := days[today := day];
        sessions := sessions[session := usd];
      }
      sessionCost, dayCost := if usd > before then usd else before, day;
    }
  }

  // ---------- totals ----------

  ghost function Total(files: map<string, int>): (sum: int)
    decreases |files|
  {
    if files == map[] then 0
    else
      var name :| name in files;
      files[name] + Total(files - {name})
  }

  lemma {:induction false} TotalTakesAny(files: map<string, int>, name: string)
    requires name in files
    ensures Total(files) == files[name] + Total(files - {name})
    decreases |files|
  {
    var first :| first in files && Total(files) == files[first] + Total(files - {first});
    if first != name {
      TotalTakesAny(files - {first}, name);
      TotalTakesAny(files - {name}, first);
      assert files - {first} - {name} == files - {name} - {first};
    }
  }

  lemma TotalOfUpdate(files: map<string, int>, name: string, n: int)
    ensures Total(files[name := n]) == Total(files) - ReadNum(files, name) + n
  {
    var after := files[name := n];
    TotalTakesAny(after, name);
    if name in files {
      TotalTakesAny(files, name);
      assert after - {name} == files - {name};
    } else {
      assert after - {name} == files;
    }
  }

  // ---------- runs ----------

  datatype Report = Report(session: string, usd: int, today: string)

  /** The files after the first `k` reports to an empty directory. */
  function After(reports: seq<Report>, k: nat): (files: Files)
    requires k <= |reports|
  {
    if k == 0 then Files(map[], map[])
    else Recorded(After(reports, k - 1), reports[k - 1].session, reports[k - 1].usd, reports[k - 1].today)
  }

  /** The highest cost a session reported so far, or zero. */
  function Highest(reports: seq<Report>, k: nat, session: string): (usd: int)
    requires k <= |reports|
    ensures usd >= 0
  {
    if k == 0 then 0
    else
      var usd := Highest(reports, k - 1, session);
      if reports[k - 1].session == session && reports[k - 1].usd > usd then reports[k - 1].usd else usd
  }

  /** Conservation: all days together equal all sessions together, and a session counts the highest it ever reported. */
  lemma {:induction false} NothingIsCountedTwice(reports: seq<Report>, k: nat)
    requires k <= |reports|
    ensures Total(After(reports, k).days) == Total(After(reports, k).sessions)
    ensures forall session :: ReadNum(After(reports, k).sessions, session) == Highest(reports, k, session)
  {
    if k > 0 {
      NothingIsCountedTwice(reports, k - 1);
      var before, r := After(reports, k - 1), reports[k - 1];
      TotalOfUpdate(before.sessions, r.session, r.usd);
      var increase := r.usd - ReadNum(before.sessions, r.session);
      TotalOfUpdate(before.days, r.today, ReadNum(before.days, r.today) + increase);
    }
  }

  /** A report that is no higher than one before it, a repeat or a restarted count, changes nothing. */
  lemma RepeatsAddNothing(reports: seq<Report>, k: nat)
    requires k < |reports| && reports[k].usd <= Highest(reports, k, reports[k].session)
    ensures After(reports, k + 1) == After(reports, k)
  {
    NothingIsCountedTwice(reports, k);
  }

  /** No day ever loses what it had. */
  lemma {:induction false} DaysOnlyGrow(reports: seq<Report>, j: nat, k: nat, day: string)
    requires j <= k <= |reports|
    ensures ReadNum(After(reports, j).days, day) <= ReadNum(After(reports, k).days, day)
  {
    if j < k {
      DaysOnlyGrow(reports, j, k - 1, day);
    }
  }

  /** What the reports of one day, among the first `k`, brought in: each as much as it exceeds what its session had. */
  function BroughtIn(reports: seq<Report>, k: nat, day: string): (usd: int)
    requires k <= |reports|
  {
    if k == 0 then 0
    else
      var r, had := reports[k - 1], Highest(reports, k - 1, reports[k - 1].session);
      BroughtIn(reports, k - 1, day) + if r.today == day && r.usd > had then r.usd - had else 0
  }

  /** A day's total is what its own reports brought in, and no other day's. */
  lemma {:induction false} DaysAddTheirOwn(reports: seq<Report>, k: nat, day: string)
    requires k <= |reports|
    ensures ReadNum(After(reports, k).days, day) == BroughtIn(reports, k, day)
  {
    hide Total;
    if k > 0 {
      DaysAddTheirOwn(reports, k - 1, day);
      NothingIsCountedTwice(reports, k - 1);
    }
  }
}
