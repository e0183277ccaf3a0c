/**
 * The reasoner: plugins that collect observations (src/include/knowledge/reasoner/AnomalyPlugin.hpp), and
 * the periodic cycle that drains, merges and assesses them
 * (src/knowledge/reasoner/modules/ReasonerStandardImplementation.cpp:133-404). Observations are added by any
 * thread at any time, also while a cycle is under way.
 */
module Reasoner {
  type Cid = int

  /** HealthState. */
  const STATES: nat := 6
  const ABNORMAL_GOOD: nat := 0
  const GOOD: nat := 1
  const OK: nat := 2
  const BAD: nat := 3
  const ABNORMAL_BAD: nat := 4
  const ABNORMAL_OTHER: nat := 5

  predicate IsAbnormal(state: nat)
  {
    state == ABNORMAL_BAD || state == ABNORMAL_GOOD || state == ABNORMAL_OTHER
  }

  datatype Observation = Observation(cid: Cid, state: nat, issue: string, delta: int)

  /** HealthIssue, without the name, which is its key. */
  datatype Issue = Issue(occurrences: nat, delta: int)

  /** AnomalyPluginHealthStatistic. */
  datatype Health = Health(occurrences: seq<nat>, positive: map<string, Issue>, negative: map<string, Issue>)

  type Report = map<Cid, Health>

  const EMPTY: Health := Health([0, 0, 0, 0, 0, 0], map[], map[])

  predicate WellFormed(r: Report)
  {
    forall c :: c in r ==> |r[c].occurrences| == STATES
  }

  function HealthOf(r: Report, c: Cid): Health
  {
    if c in r then r[c] else EMPTY
  }

  function IssueOf(issues: map<string, Issue>, name: string): Issue
  {
    if name in issues then issues[name] else Issue(0, 0)
  }

  function Plus(a: Issue, b: Issue): Issue
  {
    Issue(a.occurrences + b.occurrences, a.delta + b.delta)
  }

  // ---- Operations on reports ----

  /** addObservation with addIssueSafely. */
  function Observe(r: Report, o: Observation): Report
    requires WellFormed(r) && o.state < STATES
  {
    var h := HealthOf(r, o.cid);
    var counted := h.occurrences[o.state := h.occurrences[o.state] + 1];
    var one := Issue(1, o.delta);
    r[o.cid := Health(counted,
                      if o.issue != "" && o.state < OK then h.positive[o.issue := Plus(IssueOf(h.positive, o.issue), one)]
                      else h.positive,
                      if o.issue != "" && o.state > OK then h.negative[o.issue := Plus(IssueOf(h.negative, o.issue), one)]
                      else h.negative)]
  }

  function MergeIssues(target: map<string, Issue>, source: map<string, Issue>): map<string, Issue>
  {
    map name | name in target.Keys + source.Keys :: Plus(IssueOf(target, name), IssueOf(source, name))
  }

  function MergeHealth(g: Health, h: Health): (merged: Health)
    requires |g.occurrences| == |h.occurrences| == STATES
  {
    Health(seq(STATES, i requires 0 <= i < STATES => g.occurrences[i] + h.occurrences[i]),
           MergeIssues(g.positive, h.positive), MergeIssues(g.negative, h.negative))
  }

  /** The merge of the report of one component into the gathered statistics. */
  function Merge(gathered: Report, c: Cid, h: Health): Report
    requires WellFormed(gathered) && |h.occurrences| == STATES
  {
    gathered[c := MergeHealth(HealthOf(gathered, c), h)]
  }

  // ---- What a report counts ----

  datatype Quantity =
    | Occurrences(c: Cid, state: nat)
    | IssueCount(c: Cid, isPositive: bool, name: string)
    | IssueDelta(c: Cid, isPositive: bool, name: string)

  function IssuesOf(h: Health, isPositive: bool): map<string, Issue>
  {
    if isPositive then h.positive else h.negative
  }

  function AmountIn(h: Health, q: Quantity): int
  {
    match q
    case Occurrences(_, state) => if state < |h.occurrences| then h.occurrences[state] else 0
    case IssueCount(_, isPositive, name) => IssueOf(IssuesOf(h, isPositive), name).occurrences
    case IssueDelta(_, isPositive, name) => IssueOf(IssuesOf(h, isPositive), name).delta
  }

  function Amount(r: Report, q: Quantity): int
  {
    AmountIn(HealthOf(r, q.c), q)
  }

  /** What one observation adds to a quantity. */
  function Share(o: Observation, q: Quantity): int
  {
    if o.cid != q.c then 0
    else
      match q
      case Occurrences(c, state) => if o.state == state then 1 else 0
      case IssueCount(c, p, name) => if o.issue == name && Counts(o, p) then 1 else 0
      case IssueDelta(c, p, name) => if o.issue == name && Counts(o, p) then o.delta else 0
  }

  /** Issues are only counted when they have a name and the state is not OK. */
  predicate Counts(o: Observation, isPositive: bool)
  {
    o.issue != "" && if isPositive then o.state < OK else o.state > OK
  }

  function Shares(log: seq<Observation>, q: Quantity): int
  {
    if log == [] then 0 else Shares(log[..|log| - 1], q) + Share(log[|log| - 1], q)
  }

  function Amounts(pending: seq<Report>, q: Quantity): int
  {
    if pending == [] then 0 else Amount(pending[0], q) + Amounts(pending[1..], q)
  }

  lemma HasOne(cids: set<Cid>)
    ensures cids == {} || exists c :: c in cids
  {
    if forall c :: c !in cids {
      assert cids == {};
    }
  }

  ghost function Pick(r: Report): (c: Cid)
    requires r.Keys != {}
    ensures c in r
  {
    HasOne(r.Keys);
    var c :| c in r.Keys;
    c
  }

  /** The count of a state over all components. */
  ghost function Total(r: Report, state: nat): nat
    requires WellFormed(r) && state < STATES
    decreases |r|
  {
    if r.Keys == {} then 0 else r[Pick(r)].occurrences[state] + Total(r - {Pick(r)}, state)
  }

  // ---- The cycle ----

  datatype Pc =
    | Sleeping
    | Querying(p: nat)               // about to query plugin p, or done with all of them
    | Merging(p: nat, rest: Report)  // merging what plugin p reported
    | Triggering

  /** `log`, `merged` and the sets of cycles are history. */
  datatype State = State(
    pending: seq<Report>, gathered: Report, counts: seq<nat>, pc: Pc,
    anomalyDetected: bool, persistingAnomaly: bool,
    log: seq<Observation>, merged: seq<nat>, cycle: nat, abnormalIn: set<nat>, otherIn: set<nat>, firedIn: set<nat>)

  datatype Action =
    | AddObservation(p: nat, o: Observation)
    | Begin
    | Query
    | MergeOne(c: Cid)
    | Assess(otherReason: bool)     // a moving ratio, or a bad state of the node
    | Trigger

  const ZEROS: seq<nat> := [0, 0, 0, 0, 0, 0]

  ghost function Counted(r: Report): seq<nat>
    requires WellFormed(r)
  {
    seq(STATES, i requires 0 <= i < STATES => Total(r, i))
  }

  function TotalOf(counts: seq<nat>): nat
    requires |counts| == STATES
  {
    counts[0] + counts[1] + counts[2] + counts[3] + counts[4] + counts[5]
  }

  /** Anything happened at all, and the number of an abnormal state rose. */
  predicate AbnormalRise(before: seq<nat>, now: seq<nat>)
    requires |before| == |now| == STATES
  {
    TotalOf(now) != TotalOf(before) && exists i :: 0 <= i < STATES && IsAbnormal(i) && now[i] > before[i]
  }

  predicate AnyAbnormal(occurrences: seq<nat>)
  {
    exists i :: 0 <= i < |occurrences| && IsAbnormal(i) && occurrences[i] > 0
  }

  ghost predicate Shape(s: State)
  {
    && (forall i :: 0 <= i < |s.pending| ==> WellFormed(s.pending[i]))
    && WellFormed(s.gathered) && |s.counts| == |s.merged| == STATES
    && (s.pc.Merging? ==> WellFormed(s.pc.rest) && s.pc.p < |s.pending|)
  }

  ghost function Step(s: State, action: Action): State
    requires Shape(s)
  {
    match action
    case AddObservation(p, o) =>
      if p < |s.pending| && o.state < STATES then
        s.(pending := s.pending[p := Observe(s.pending[p], o)], log := s.log + [o])
      else s
    case Begin =>
      if s.pc.Sleeping? then
        s.(pc := Querying(0), persistingAnomaly := s.anomalyDetected, anomalyDetected := false, merged := ZEROS, cycle := s.cycle + 1)
      else s
    case Query =>
      if s.pc.Querying? && s.pc.p < |s.pending| then
        s.(pending := s.pending[s.pc.p := map[]], pc := Merging(s.pc.p, s.pending[s.pc.p]))
      else if s.pc.Merging? && s.pc.rest == map[] then s.(pc := Querying(s.pc.p + 1))
      else s
    case MergeOne(c) =>
      if s.pc.Merging? && c in s.pc.rest then
        var h := s.pc.rest[c];
        s.(gathered := Merge(s.gathered, c, h), pc := Merging(s.pc.p, s.pc.rest - {c}),
           merged := seq(STATES, i requires 0 <= i < STATES => s.merged[i] + h.occurrences[i]),
           abnormalIn := if AnyAbnormal(h.occurrences) then s.abnormalIn + {s.cycle} else s.abnormalIn)
      else s
    case Assess(otherReason) =>
      if s.pc.Querying? && s.pc.p >= |s.pending| then
        s.(counts := Counted(s.gathered), pc := Triggering, anomalyDetected := AbnormalRise(s.counts, Counted(s.gathered)) || otherReason,
           otherIn := if otherReason then s.otherIn + {s.cycle} else s.otherIn)
      else s
    case Trigger =>
      if s.pc.Triggering? then
        s.(pc := Sleeping, firedIn := if s.anomalyDetected || s.persistingAnomaly then s.firedIn + {s.cycle} else s.firedIn)
      else s
  }

  const NO_REPORT: Report := map[]

  function Init(plugins: nat): State
  {
    State(seq(plugins, i => NO_REPORT), map[], ZEROS, Sleeping, false, false, [], ZEROS, 0, {}, {}, {})
  }

  // ---- Conservation ----

  lemma ObserveAdds(r: Report, o: Observation, q: Quantity)
    requires WellFormed(r) && o.state < STATES
    ensures Amount(Observe(r, o), q) == Amount(r, q) + Share(o, q)
    ensures WellFormed(Observe(r, o))
  {}

  ghost predicate IssuesAddUp(g: map<string, Issue>, h: map<string, Issue>, m: map<string, Issue>)
  {
    forall name ::
      && IssueOf(m, name).occurrences == IssueOf(g, name).occurrences + IssueOf(h, name).occurrences
      && IssueOf(m, name).delta == IssueOf(g, name).delta + IssueOf(h, name).delta
  }

  /** The merge of two statistics has the counts and issues of both. */
  ghost predicate AddsUp(g: Health, h: Health, m: Health)
  {
    && |g.occurrences| == |h.occurrences| == |m.occurrences|
    && (forall i :: 0 <= i < |m.occurrences| ==> m.occurrences[i] == g.occurrences[i] + h.occurrences[i])
    && IssuesAddUp(g.positive, h.positive, m.positive) && IssuesAddUp(g.negative, h.negative, m.negative)
  }

  lemma MergeIssuesAddUp(g: map<string, Issue>, h: map<string, Issue>)
    ensures IssuesAddUp(g, h, MergeIssues(g, h))
  {}

  lemma MergeAddsUp(gathered: Report, c: Cid, h: Health)
    requires WellFormed(gathered) && |h.occurrences| == STATES
    ensures AddsUp(HealthOf(gathered, c), h, HealthOf(Merge(gathered, c, h), c))
  {
    var g := HealthOf(gathered, c);
    MergeIssuesAddUp(g.positive, h.positive);
    MergeIssuesAddUp(g.negative, h.negative);
  }

  lemma MergeHealthAdds(g: Health, h: Health, m: Health, q: Quantity)
    requires AddsUp(g, h, m)
    ensures AmountIn(m, q) == AmountIn(g, q) + AmountIn(h, q)
  {}

  lemma MergeAdds(gathered: Report, rest: Report, c: Cid, q: Quantity)
    requires WellFormed(gathered) && WellFormed(rest) && c in rest
    ensures WellFormed(Merge(gathered, c, rest[c])) && WellFormed(rest - {c})
    ensures Amount(Merge(gathered, c, rest[c]), q) + Amount(rest - {c}, q) == Amount(gathered, q) + Amount(rest, q)
  {
    var now := Merge(gathered, c, rest[c]);
    MergeAddsUp(gathered, c, rest[c]);
    if q.c == c {
      MergeHealthAdds(HealthOf(gathered, c), HealthOf(rest, c), HealthOf(now, c), q);
      NothingIn(q);
    }
  }

  lemma NothingIn(q: Quantity)
    ensures AmountIn(EMPTY, q) == 0
  {}

  lemma {:induction false} AmountsUpdate(pending: seq<Report>, p: nat, r: Report, q: Quantity)
    requires p < |pending|
    ensures Amounts(pending[p := r], q) == Amounts(pending, q) - Amount(pending[p], q) + Amount(r, q)
  {
    if p == 0 {
      assert pending[p := r][1..] == pending[1..];
    } else {
      assert pending[p := r][1..] == pending[1..][p - 1 := r];
      AmountsUpdate(pending[1..], p - 1, r, q);
    }
  }

  function Rest(s: State): Report
  {
    if s.pc.Merging? then s.pc.rest else map[]
  }

  /** Nothing observed is lost or counted twice. */
  ghost predicate Conserved(s: State, q: Quantity)
  {
    Amounts(s.pending, q) + Amount(Rest(s), q) + Amount(s.gathered, q) == Shares(s.log, q)
  }

  lemma StepKeepsShape(s: State, action: Action)
    requires Shape(s)
    ensures Shape(Step(s, action))
  {}

  lemma AddConserves(s: State, p: nat, o: Observation, q: Quantity)
    requires Shape(s) && Conserved(s, q) && p < |s.pending| && o.state < STATES
    ensures Conserved(Step(s, AddObservation(p, o)), q)
  {
    var r := Observe(s.pending[p], o);
    ObserveAdds(s.pending[p], o, q);
    AmountsUpdate(s.pending, p, r, q);
    assert (s.log + [o])[..|s.log|] == s.log;
  }

  lemma QueryConserves(s: State, q: Quantity)
    requires Shape(s) && Conserved(s, q)
    ensures Conserved(Step(s, Query), q)
  {
    if s.pc.Querying? && s.pc.p < |s.pending| {
      AmountsUpdate(s.pending, s.pc.p, map[], q);
    }
  }

  lemma StepConserves(s: State, action: Action, q: Quantity)
    requires Shape(s) && Conserved(s, q)
    ensures Conserved(Step(s, action), q)
  {
    match action
    case AddObservation(p, o) => if p < |s.pending| && o.state < STATES { AddConserves(s, p, o, q); }
    case Query => QueryConserves(s, q);
    case MergeOne(c) => if s.pc.Merging? && c in s.pc.rest { MergeAdds(s.gathered, s.pc.rest, c, q); }
    case _ =>
  }

  lemma {:induction false} NothingPending(n: nat, q: Quantity)
    ensures Amounts(seq(n, i => NO_REPORT), q) == 0
  {
    if n > 0 {
      assert seq(n, i => NO_REPORT)[1..] == seq(n - 1, i => NO_REPORT);
      NothingPending(n - 1, q);
    }
  }

  // ---- Counting ----

  lemma WithoutBoth(r: Report, c: Cid, d: Cid)
    requires c in r && d in r && c != d
    ensures r - {d} - {c} == r - {c} - {d} && c in r - {d} && d in r - {c} && |r - {d}| < |r| && |r - {c}| < |r|
  {}

  lemma {:induction false} TotalWithout(r: Report, c: Cid, state: nat)
    requires WellFormed(r) && state < STATES && c in r
    ensures Total(r, state) == r[c].occurrences[state] + Total(r - {c}, state)
    decreases |r|
  {
    var d := Pick(r);
    if d != c {
      WithoutBoth(r, c, d);
      TotalWithout(r - {d}, c, state);
      TotalWithout(r - {c}, d, state);
    }
  }

  /** Merging a report of a component raises each total by what the report counts. */
  lemma MergeRaises(gathered: Report, c: Cid, h: Health, state: nat)
    requires WellFormed(gathered) && |h.occurrences| == STATES && state < STATES
    ensures WellFormed(Merge(gathered, c, h))
    ensures Total(Merge(gathered, c, h), state) == Total(gathered, state) + h.occurrences[state]
  {
    var now := Merge(gathered, c, h);
    TotalWithout(now, c, state);
    assert now - {c} == gathered - {c};
    if c in gathered {
      TotalWithout(gathered, c, state);
    } else {
      assert gathered - {c} == gathered;
    }
  }

  predicate InCycle(pc: Pc)
  {
    pc.Querying? || pc.Merging?
  }

  /** The counts are those of the last assessment; what was merged since then is in `merged`. */
  ghost predicate CountInv(s: State)
    requires Shape(s)
  {
    forall i :: 0 <= i < STATES ==> Total(s.gathered, i) == s.counts[i] + if InCycle(s.pc) then s.merged[i] else 0
  }

  /** The cycle merged something abnormal, or there was another reason for an anomaly. */
  predicate HasNews(s: State, c: int)
  {
    c in s.abnormalIn || c in s.otherIn
  }

  /** The cycle is over. */
  predicate Finished(s: State, c: int)
  {
    1 <= c && (c < s.cycle || (c == s.cycle && s.pc.Sleeping?))
  }

  /** Of the cycles that are over those have fired that had news, and those after them. */
  predicate FiredRightly(s: State, c: int)
  {
    && (HasNews(s, c) || c in s.firedIn ==> 1 <= c <= s.cycle)
    && (Finished(s, c) ==> (c in s.firedIn <==> HasNews(s, c) || HasNews(s, c - 1)))
  }

  /** What the cycle that is under way knows. */
  predicate CycleInv(s: State)
  {
    && (InCycle(s.pc) ==> (s.cycle in s.abnormalIn <==> AnyAbnormal(s.merged)) && s.cycle !in s.otherIn)
    && (!InCycle(s.pc) ==> (s.anomalyDetected <==> HasNews(s, s.cycle)))
    && (!s.pc.Sleeping? ==> s.cycle >= 1 && s.cycle !in s.firedIn && (s.persistingAnomaly <==> HasNews(s, s.cycle - 1)))
  }

  ghost predicate FireInv(s: State)
  {
    CycleInv(s) && forall c: int :: FiredRightly(s, c)
  }

  ghost predicate Inv(s: State)
  {
    Shape(s) && CountInv(s) && FireInv(s) && forall q: Quantity :: Conserved(s, q)
  }

  lemma MergeOneKeepsCounts(s: State, c: Cid)
    requires Shape(s) && CountInv(s) && s.pc.Merging? && c in s.pc.rest
    ensures CountInv(Step(s, MergeOne(c)))
  {
    var s' := Step(s, MergeOne(c));
    forall i | 0 <= i < STATES ensures Total(s'.gathered, i) == s'.counts[i] + s'.merged[i] {
      MergeRaises(s.gathered, c, s.pc.rest[c], i);
    }
  }

  lemma AssessKeepsCounts(s: State, otherReason: bool)
    requires Shape(s) && CountInv(s)
    ensures CountInv(Step(s, Assess(otherReason)))
  {}

  lemma OthersKeepCounts(s: State, action: Action)
    requires Shape(s) && !action.Assess? && (action.MergeOne? ==> !s.pc.Merging? || action.c !in s.pc.rest)
    ensures var s' := Step(s, action);
            && s'.gathered == s.gathered && s'.counts == s.counts
            && (s'.merged == if action.Begin? && s.pc.Sleeping? then ZEROS else s.merged)
            && (InCycle(s'.pc) <==> InCycle(s.pc) || (action.Begin? && s.pc.Sleeping?))
  {}

  lemma StepKeepsCounts(s: State, action: Action)
    requires Shape(s) && CountInv(s)
    ensures CountInv(Step(s, action))
  {
    if action.MergeOne? && s.pc.Merging? && action.c in s.pc.rest {
      MergeOneKeepsCounts(s, action.c);
    } else if action.Assess? {
      AssessKeepsCounts(s, action.otherReason);
    } else {
      OthersKeepCounts(s, action);
    }
  }

  /** The assessment sees a rise exactly if something abnormal was merged. */
  lemma AbnormalIsNoticed(s: State)
    requires Shape(s) && CountInv(s) && InCycle(s.pc)
    ensures AbnormalRise(s.counts, Counted(s.gathered)) <==> AnyAbnormal(s.merged)
  {
    var now := Counted(s.gathered);
    assert forall j :: 0 <= j < STATES ==> now[j] == s.counts[j] + s.merged[j];
    if AnyAbnormal(s.merged) {
      var i :| 0 <= i < STATES && IsAbnormal(i) && s.merged[i] > 0;
      assert now[i] > s.counts[i];
    }
  }

  lemma RaisedIsAbnormal(occurrences: seq<nat>, more: seq<nat>)
    requires |occurrences| == |more| && forall i :: 0 <= i < |more| ==> more[i] >= occurrences[i]
    requires AnyAbnormal(occurrences)
    ensures AnyAbnormal(more)
  {
    var i :| 0 <= i < |occurrences| && IsAbnormal(i) && occurrences[i] > 0;
    assert more[i] > 0;
  }

  lemma NoneAbnormal(before: seq<nat>, more: seq<nat>, now: seq<nat>)
    requires |before| == |more| == |now| && forall i :: 0 <= i < |now| ==> now[i] == before[i] + more[i]
    ensures AnyAbnormal(now) <==> AnyAbnormal(before) || AnyAbnormal(more)
  {
    if AnyAbnormal(before) { RaisedIsAbnormal(before, now); }
    if AnyAbnormal(more) { RaisedIsAbnormal(more, now); }
  }

  /** News are only about the cycle that is under way. */
  lemma StepKeepsNews(s: State, action: Action, c: int)
    requires Shape(s) && (c != s.cycle || !InCycle(s.pc))
    ensures HasNews(Step(s, action), c) <==> HasNews(s, c)
  {}

  lemma StepKeepsFired(s: State, action: Action, c: int)
    requires Shape(s) && CycleInv(s) && FiredRightly(s, c) && FiredRightly(s, c - 1)
    ensures FiredRightly(Step(s, action), c)
  {
    var s' := Step(s, action);
    assert s.cycle <= s'.cycle;
    if c != s.cycle || !InCycle(s.pc) {
      StepKeepsNews(s, action, c);
    }
    if c - 1 != s.cycle || !InCycle(s.pc) {
      StepKeepsNews(s, action, c - 1);
    }
  }

  lemma MergeOneKeepsCycle(s: State, c: Cid)
    requires Shape(s) && CycleInv(s) && s.pc.Merging? && c in s.pc.rest
    ensures CycleInv(Step(s, MergeOne(c)))
  {
    NoneAbnormal(s.merged, s.pc.rest[c].occurrences, Step(s, MergeOne(c)).merged);
  }

  lemma AssessKeepsCycle(s: State, otherReason: bool)
    requires Shape(s) && CountInv(s) && CycleInv(s)
    ensures CycleInv(Step(s, Assess(otherReason)))
  {
    if InCycle(s.pc) {
      AbnormalIsNoticed(s);
    }
  }

  lemma BeginKeepsCycle(s: State)
    requires Shape(s) && CycleInv(s) && FiredRightly(s, s.cycle + 1)
    ensures CycleInv(Step(s, Begin))
  {}

  lemma StepKeepsCycle(s: State, action: Action)
    requires Shape(s) && CountInv(s) && CycleInv(s) && FiredRightly(s, s.cycle + 1)
    ensures CycleInv(Step(s, action))
  {
    match action
    case Assess(otherReason) => AssessKeepsCycle(s, otherReason);
    case MergeOne(c) => if s.pc.Merging? && c in s.pc.rest { MergeOneKeepsCycle(s, c); }
    case Begin => BeginKeepsCycle(s);
    case _ =>
  }

  lemma StepKeepsFires(s: State, action: Action)
    requires Shape(s) && CountInv(s) && FireInv(s)
    ensures FireInv(Step(s, action))
  {
    StepKeepsCycle(s, action);
    forall c: int ensures FiredRightly(Step(s, action), c) {
      StepKeepsFired(s, action, c);
    }
  }

  ghost function Exec(s: State, run: seq<Action>): (s': State)
    requires Shape(s)
    ensures Shape(s')
    decreases |run|
  {
    if run == [] then s
    else
      var before := Exec(s, run[..|run| - 1]);
      StepKeepsShape(before, run[|run| - 1]);
      Step(before, run[|run| - 1])
  }

  lemma {:induction false} Reachable(plugins: nat, run: seq<Action>)
    ensures Inv(Exec(Init(plugins), run))
    decreases |run|
  {
    if run == [] {
      var s := Init(plugins);
      forall q: Quantity ensures Conserved(s, q) {
        NothingPending(plugins, q);
      }
    } else {
      Reachable(plugins, run[..|run| - 1]);
      var s, action := Exec(Init(plugins), run[..|run| - 1]), run[|run| - 1];
      StepKeepsCounts(s, action);
      StepKeepsFires(s, action);
      forall q: Quantity ensures Conserved(Step(s, action), q) {
        StepConserves(s, action, q);
      }
    }
  }

  /**
   * In every interleaving, the observations of a component in a state, and the occurrences and times of an
   * issue, are pending, drained or gathered: none is lost, and none counts twice.
   */
  lemma ObservationsAreConserved(plugins: nat, run: seq<Action>, q: Quantity)
    ensures var s := Exec(Init(plugins), run);
            Amounts(s.pending, q) + Amount(Rest(s), q) + Amount(s.gathered, q) == Shares(s.log, q)
  {
    Reachable(plugins, run);
    assert Conserved(Exec(Init(plugins), run), q);
  }

  /** A cycle that merged something abnormal fires the triggers, and so does the next one. */
  lemma AbnormalFires(plugins: nat, run: seq<Action>, c: nat)
    requires c in Exec(Init(plugins), run).abnormalIn
    ensures var s := Exec(Init(plugins), run);
            && (c < s.cycle || s.pc.Sleeping? ==> c in s.firedIn)
            && (c + 1 < s.cycle || (c + 1 == s.cycle && s.pc.Sleeping?) ==> c + 1 in s.firedIn)
  {
    Reachable(plugins, run);
    var s := Exec(Init(plugins), run);
    assert FiredRightly(s, c) && FiredRightly(s, c + 1);
  }

  // ---- From an observation to the triggers ----

  predicate HoldsAbnormal(r: Report)
  {
    exists c :: c in r && AnyAbnormal(r[c].occurrences)
  }

  /** Cycle `c` is merging what plugin `p` reported, and something abnormal is still to come. */
  predicate Drains(s: State, p: nat, c: nat)
  {
    s.cycle == c && s.pc.Merging? && s.pc.p == p && HoldsAbnormal(s.pc.rest)
  }

  lemma ObserveAbnormal(r: Report, o: Observation)
    requires WellFormed(r) && o.state < STATES && (IsAbnormal(o.state) || HoldsAbnormal(r))
    ensures HoldsAbnormal(Observe(r, o))
  {
    var r' := Observe(r, o);
    if IsAbnormal(o.state) {
      assert r'[o.cid].occurrences[o.state] > 0;
    } else {
      var c :| c in r && AnyAbnormal(r[c].occurrences);
      RaisedIsAbnormal(r[c].occurrences, r'[c].occurrences);
    }
  }

  /** Nothing but the query of the plugin takes an abnormal observation from it. */
  lemma StepKeepsObserved(s: State, action: Action, p: nat)
    requires Shape(s) && p < |s.pending| && HoldsAbnormal(s.pending[p])
    requires !(action.Query? && s.pc == Querying(p))
    ensures p < |Step(s, action).pending| && HoldsAbnormal(Step(s, action).pending[p])
  {
    if action.AddObservation? && action.p == p && action.o.state < STATES {
      ObserveAbnormal(s.pending[p], action.o);
    }
  }

  lemma StepObserves(s: State, p: nat, o: Observation)
    requires Shape(s) && p < |s.pending| && o.state < STATES && IsAbnormal(o.state)
    ensures HoldsAbnormal(Step(s, AddObservation(p, o)).pending[p])
  {
    ObserveAbnormal(s.pending[p], o);
  }

  /** Once drained by cycle `c`, it is merged in cycle `c`. */
  lemma StepDrains(s: State, action: Action, p: nat, c: nat)
    requires Shape(s) && (c in s.abnormalIn || Drains(s, p, c))
    ensures c in Step(s, action).abnormalIn || Drains(Step(s, action), p, c)
  {
    if Drains(s, p, c) {
      var d :| d in s.pc.rest && AnyAbnormal(s.pc.rest[d].occurrences);
      if action.MergeOne? && action.c in s.pc.rest && action.c != d {
        assert d in Step(s, action).pc.rest;
      }
    }
  }

  /** The states that a run goes through. */
  ghost predicate IsTrace(plugins: nat, run: seq<Action>, states: seq<State>)
  {
    && |states| == |run| + 1 && states[0] == Init(plugins) && (forall k :: 0 <= k <= |run| ==> Shape(states[k]))
    && forall k :: 0 <= k < |run| ==> states[k + 1] == Step(states[k], run[k])
  }

  lemma {:induction false} TraceIsExec(plugins: nat, run: seq<Action>, states: seq<State>)
    requires IsTrace(plugins, run, states)
    ensures states[|run|] == Exec(Init(plugins), run)
    decreases |run|
  {
    if run != [] {
      var n := |run| - 1;
      TraceIsExec(plugins, run[..n], states[..n + 1]);
      assert states[n + 1] == Step(states[n], run[n]);
    }
  }

  lemma {:induction false} PluginsStay(plugins: nat, run: seq<Action>, states: seq<State>, k: nat)
    requires IsTrace(plugins, run, states) && k <= |run|
    ensures |states[k].pending| == plugins
  {
    if k > 0 {
      PluginsStay(plugins, run, states, k - 1);
      assert states[k - 1 + 1] == Step(states[k - 1], run[k - 1]);
    }
  }

  predicate Queries(s: State, action: Action, p: nat)
  {
    action.Query? && s.pc == Querying(p)
  }

  lemma ObservedAtOnce(plugins: nat, run: seq<Action>, states: seq<State>, i: nat, p: nat, o: Observation)
    requires IsTrace(plugins, run, states) && p < plugins && o.state < STATES && IsAbnormal(o.state)
    requires i < |run| && run[i] == AddObservation(p, o)
    ensures p < |states[i + 1].pending| && HoldsAbnormal(states[i + 1].pending[p])
  {
    PluginsStay(plugins, run, states, i);
    StepObserves(states[i], p, o);
  }

  lemma {:induction false} ObservedUntilQuery(plugins: nat, run: seq<Action>, states: seq<State>, i: nat, k: nat, p: nat)
    requires IsTrace(plugins, run, states) && i <= k <= |run|
    requires p < |states[i].pending| && HoldsAbnormal(states[i].pending[p])
    requires forall j :: i <= j < k ==> !Queries(states[j], run[j], p)
    ensures p < |states[k].pending| && HoldsAbnormal(states[k].pending[p])
    decreases k
  {
    if i < k {
      ObservedUntilQuery(plugins, run, states, i, k - 1, p);
      assert states[k - 1 + 1] == Step(states[k - 1], run[k - 1]);
      StepKeepsObserved(states[k - 1], run[k - 1], p);
    }
  }

  lemma {:induction false} QueriedIsMerged(plugins: nat, run: seq<Action>, states: seq<State>, j: nat, k: nat, p: nat)
    requires IsTrace(plugins, run, states) && j < k <= |run| && Queries(states[j], run[j], p)
    requires p < |states[j].pending| && HoldsAbnormal(states[j].pending[p])
    ensures states[j].cycle <= states[k].cycle
    ensures states[j].cycle in states[k].abnormalIn || Drains(states[k], p, states[j].cycle)
    decreases k
  {
    var s := states[k - 1];
    assert states[k - 1 + 1] == Step(s, run[k - 1]);
    if k > j + 1 {
      QueriedIsMerged(plugins, run, states, j, k - 1, p);
      StepDrains(s, run[k - 1], p, states[j].cycle);
    }
  }

  /**
   * Step `i` adds an abnormal observation to plugin `p`, and step `j` is the first one to query that plugin
   * afterwards. When the cycle of that query is done with the report of the plugin, it has noticed something
   * abnormal, and when it ends it has fired the triggers. So does the cycle after it.
   */
  lemma ObservationFires(plugins: nat, run: seq<Action>, states: seq<State>, i: nat, j: nat, p: nat, o: Observation)
    requires IsTrace(plugins, run, states) && p < plugins && o.state < STATES && IsAbnormal(o.state)
    requires i < j < |run| && run[i] == AddObservation(p, o)
    requires Queries(states[j], run[j], p) && forall k :: i < k < j ==> !Queries(states[k], run[k], p)
    ensures var c, s := states[j].cycle, states[|run|];
            && (!(s.pc.Merging? && s.pc.p == p && s.cycle == c) ==> c in s.abnormalIn)
            && (c < s.cycle || s.pc.Sleeping? ==> c in s.firedIn)
            && (c + 1 < s.cycle || (c + 1 == s.cycle && s.pc.Sleeping?) ==> c + 1 in s.firedIn)
  {
    ObservedAtOnce(plugins, run, states, i, p, o);
    ObservedUntilQuery(plugins, run, states, i + 1, j, p);
    QueriedIsMerged(plugins, run, states, j, |run|, p);
    TraceIsExec(plugins, run, states);
    if states[j].cycle in states[|run|].abnormalIn {
      AbnormalFires(plugins, run, states[j].cycle);
    }
  }

  // ---- From the triggers back to the observations ----

  /** An abnormal observation was added to plugin `p` before step `k`, and the plugin has not been queried since. */
  ghost predicate AddedBefore(run: seq<Action>, states: seq<State>, k: nat, p: nat)
    requires |states| == |run| + 1 && k <= |run|
  {
    exists i: nat, o :: i < k && run[i] == AddObservation(p, o) && o.state < STATES && IsAbnormal(o.state)
                   && forall j :: i < j < k ==> !Queries(states[j], run[j], p)
  }

  /** Before step `k`, cycle `c` has queried a plugin that had been given an abnormal observation. */
  ghost predicate Drained(run: seq<Action>, states: seq<State>, k: nat, c: int)
    requires |states| == |run| + 1 && k <= |run|
  {
    exists j: nat, p: nat :: j < k && p < |states[j].pending| && Queries(states[j], run[j], p) && states[j].cycle == c
                   && AddedBefore(run, states, j, p)
  }

  lemma ObserveIsAbnormal(r: Report, o: Observation)
    requires WellFormed(r) && o.state < STATES && !IsAbnormal(o.state) && HoldsAbnormal(Observe(r, o))
    ensures HoldsAbnormal(r)
  {
    var r' := Observe(r, o);
    var c :| c in r' && AnyAbnormal(r'[c].occurrences);
    var i :| 0 <= i < |r'[c].occurrences| && IsAbnormal(i) && r'[c].occurrences[i] > 0;
    assert r'[c].occurrences[i] == HealthOf(r, c).occurrences[i];
    assert c in r && AnyAbnormal(r[c].occurrences);
  }

  /** One step: what a plugin holds was there before, or has just been added. */
  lemma StepHolds(s: State, action: Action, p: nat)
    requires Shape(s) && p < |s.pending| && p < |Step(s, action).pending| && HoldsAbnormal(Step(s, action).pending[p])
    ensures !Queries(s, action, p)
    ensures HoldsAbnormal(s.pending[p])
            || (action.AddObservation? && action.p == p && action.o.state < STATES && IsAbnormal(action.o.state))
  {
    if action.AddObservation? && action.p == p && action.o.state < STATES && !IsAbnormal(action.o.state) {
      ObserveIsAbnormal(s.pending[p], action.o);
    }
  }

  lemma AddedLater(run: seq<Action>, states: seq<State>, k: nat, p: nat)
    requires |states| == |run| + 1 && k < |run| && AddedBefore(run, states, k, p) && !Queries(states[k], run[k], p)
    ensures AddedBefore(run, states, k + 1, p)
  {
    var i: nat, o :| i < k && run[i] == AddObservation(p, o) && o.state < STATES && IsAbnormal(o.state)
                && forall j :: i < j < k ==> !Queries(states[j], run[j], p);
    assert forall j :: i < j < k + 1 ==> !Queries(states[j], run[j], p);
  }

  lemma JustAdded(run: seq<Action>, states: seq<State>, k: nat, p: nat, o: Observation)
    requires |states| == |run| + 1 && k < |run| && run[k] == AddObservation(p, o) && o.state < STATES && IsAbnormal(o.state)
    ensures AddedBefore(run, states, k + 1, p)
  {}

  lemma NextHeld(run: seq<Action>, states: seq<State>, k: nat, p: nat)
    requires |states| == |run| + 1 && k < |run| && Shape(states[k]) && states[k + 1] == Step(states[k], run[k])
    requires p < |states[k].pending| && p < |states[k + 1].pending| && HoldsAbnormal(states[k + 1].pending[p])
    requires HoldsAbnormal(states[k].pending[p]) ==> AddedBefore(run, states, k, p)
    ensures AddedBefore(run, states, k + 1, p)
  {
    StepHolds(states[k], run[k], p);
    if HoldsAbnormal(states[k].pending[p]) {
      AddedLater(run, states, k, p);
    } else {
      JustAdded(run, states, k, p, run[k].o);
    }
  }

  lemma {:induction false} HeldWasAdded(plugins: nat, run: seq<Action>, states: seq<State>, k: nat, p: nat)
    requires IsTrace(plugins, run, states) && k <= |run| && p < plugins && p < |states[k].pending| && HoldsAbnormal(states[k].pending[p])
    ensures AddedBefore(run, states, k, p)
  {
    if k > 0 {
      PluginsStay(plugins, run, states, k - 1);
      if HoldsAbnormal(states[k - 1].pending[p]) {
        HeldWasAdded(plugins, run, states, k - 1, p);
      }
      NextHeld(run, states, k - 1, p);
    }
  }

  /** Something abnormal is still to be merged. */
  predicate WillMerge(s: State)
  {
    s.pc.Merging? && HoldsAbnormal(s.pc.rest)
  }

  /** One step: what is noticed or to be merged was so before, or has just been drained. */
  lemma StepNotices(s: State, action: Action, c: int)
    requires Shape(s) && (c in Step(s, action).abnormalIn || (WillMerge(Step(s, action)) && Step(s, action).cycle == c))
    ensures c in s.abnormalIn || (WillMerge(s) && s.cycle == c)
            || (action.Query? && s.pc.Querying? && s.pc.p < |s.pending| && HoldsAbnormal(s.pending[s.pc.p]) && s.cycle == c)
  {}

  lemma {:induction false} NoticedWasDrained(plugins: nat, run: seq<Action>, states: seq<State>, k: nat, c: int)
    requires IsTrace(plugins, run, states) && k <= |run|
    requires c in states[k].abnormalIn || (WillMerge(states[k]) && states[k].cycle == c)
    ensures Drained(run, states, k, c)
  {
    if k > 0 {
      var s, action := states[k - 1], run[k - 1];
      assert states[k - 1 + 1] == Step(s, action);
      StepNotices(s, action, c);
      if c in s.abnormalIn || (WillMerge(s) && s.cycle == c) {
        NoticedWasDrained(plugins, run, states, k - 1, c);
      } else {
        PluginsStay(plugins, run, states, k - 1);
        HeldWasAdded(plugins, run, states, k - 1, s.pc.p);
        assert Queries(s, action, s.pc.p);
      }
    }
  }

  /** And what was drained is noticed, unless the cycle is still at it. */
  lemma DrainedIsNoticed(plugins: nat, run: seq<Action>, states: seq<State>, c: int)
    requires IsTrace(plugins, run, states) && Drained(run, states, |run|, c) && Finished(states[|run|], c)
    ensures c in states[|run|].abnormalIn
  {
    var j: nat, p: nat :| j < |run| && p < |states[j].pending| && Queries(states[j], run[j], p) && states[j].cycle == c
                && AddedBefore(run, states, j, p);
    var i: nat, o :| i < j && run[i] == AddObservation(p, o) && o.state < STATES && IsAbnormal(o.state)
                && forall k :: i < k < j ==> !Queries(states[k], run[k], p);
    PluginsStay(plugins, run, states, j);
    ObservationFires(plugins, run, states, i, j, p, o);
  }

  /** Before step `k`, cycle `c` was assessed with another reason for an anomaly. */
  ghost predicate Disturbed(run: seq<Action>, states: seq<State>, k: nat, c: int)
    requires |states| == |run| + 1 && k <= |run|
  {
    exists j :: 0 <= j < k && run[j] == Assess(true) && states[j].cycle == c
                && states[j].pc.Querying? && states[j].pc.p >= |states[j].pending|
  }

  lemma {:induction false} OtherIffDisturbed(plugins: nat, run: seq<Action>, states: seq<State>, k: nat, c: int)
    requires IsTrace(plugins, run, states) && k <= |run|
    ensures c in states[k].otherIn <==> Disturbed(run, states, k, c)
  {
    if k > 0 {
      OtherIffDisturbed(plugins, run, states, k - 1, c);
      assert states[k - 1 + 1] == Step(states[k - 1], run[k - 1]);
    }
  }

  /** In terms of the run alone: an abnormal observation for the cycle, or another reason. */
  ghost predicate NewsFor(run: seq<Action>, states: seq<State>, c: int)
    requires |states| == |run| + 1
  {
    Drained(run, states, |run|, c) || Disturbed(run, states, |run|, c)
  }

  lemma NewsIsKnown(plugins: nat, run: seq<Action>, states: seq<State>, c: int)
    requires IsTrace(plugins, run, states) && (Finished(states[|run|], c) || c == 0)
    ensures HasNews(states[|run|], c) <==> NewsFor(run, states, c)
  {
    OtherIffDisturbed(plugins, run, states, |run|, c);
    if c in states[|run|].abnormalIn {
      NoticedWasDrained(plugins, run, states, |run|, c);
    }
    if Drained(run, states, |run|, c) {
      if c == 0 {
        NothingBeforeTheFirst(plugins, run, states);
      } else {
        DrainedIsNoticed(plugins, run, states, c);
      }
    }
  }

  lemma NothingBeforeTheFirst(plugins: nat, run: seq<Action>, states: seq<State>)
    requires IsTrace(plugins, run, states)
    ensures !Drained(run, states, |run|, 0)
  {
    forall j | 0 <= j < |run| && states[j].pc.Querying? ensures states[j].cycle != 0 {
      InvAlong(plugins, run, states, j);
    }
  }

  lemma InvAlong(plugins: nat, run: seq<Action>, states: seq<State>, k: nat)
    requires IsTrace(plugins, run, states) && k <= |run|
    ensures Inv(states[k])
  {
    TraceIsExec(plugins, run[..k], states[..k + 1]);
    Reachable(plugins, run[..k]);
  }

  /**
   * Over all runs: a cycle that is over has fired the triggers if and only if it, or the cycle before it, queried
   * a plugin that had been given an abnormal observation since its last query, or had another reason.
   */
  lemma FiredIffNews(plugins: nat, run: seq<Action>, states: seq<State>, c: int)
    requires IsTrace(plugins, run, states) && Finished(states[|run|], c)
    ensures c in states[|run|].firedIn <==> NewsFor(run, states, c) || NewsFor(run, states, c - 1)
  {
    InvAlong(plugins, run, states, |run|);
    NewsIsKnown(plugins, run, states, c);
    NewsIsKnown(plugins, run, states, c - 1);
    assert FiredRightly(states[|run|], c);
  }

  /** Without abnormal observations and other reasons nothing is ever fired. */
  lemma QuietRunsFireNothing(plugins: nat, run: seq<Action>, states: seq<State>)
    requires IsTrace(plugins, run, states) && states[|run|].pc.Sleeping?
    requires forall k :: 0 <= k < |run| ==>
               run[k] != Assess(true) && (run[k].AddObservation? ==> !IsAbnormal(run[k].o.state))
    ensures states[|run|].firedIn == {}
  {
    InvAlong(plugins, run, states, |run|);
    forall c | c in states[|run|].firedIn ensures false {
      assert FiredRightly(states[|run|], c);
      FiredIffNews(plugins, run, states, c);
    }
  }

  // ---- The code ----

  class AnomalyPlugin {
    var recentObservations: Report

    constructor ()
      ensures recentObservations == map[]
    {
      recentObservations := map[];
    }

    method AddObservation(cid: Cid, state: nat, issue: string, deltaTimeMs: int)
      requires WellFormed(recentObservations) && state < STATES
      modifies this
      ensures recentObservations == Observe(old(recentObservations), Observation(cid, state, issue, deltaTimeMs))
    {
      if cid !in recentObservations {
        recentObservations := recentObservations[cid := EMPTY];
      }
      var stat := recentObservations[cid];
      var positive, negative := stat.positive, stat.negative;
      if issue != "" {
        if state < OK {
          positive := AddIssueSafely(positive, issue, deltaTimeMs);
        }
        if state > OK {
          negative := AddIssueSafely(negative, issue, deltaTimeMs);
        }
      }
      recentObservations := recentObservations[cid := Health(stat.occurrences[state := stat.occurrences[state] + 1], positive, negative)];
    }

    static method AddIssueSafely(issues: map<string, Issue>, issue: string, deltaTimeMs: int) returns (now: map<string, Issue>)
      ensures now == issues[issue := Plus(IssueOf(issues, issue), Issue(1, deltaTimeMs))]
    {
      if issue !in issues {
        now := issues[issue := Issue(1, deltaTimeMs)];
      } else {
        now := issues[issue := Issue(issues[issue].occurrences + 1, issues[issue].delta + deltaTimeMs)];
      }
    }

    method QueryRecentObservations() returns (report: Report)
      modifies this
      ensures report == old(recentObservations) && recentObservations == map[]
    {
      report := recentObservations;
      recentObservations := map[];
    }
  }

  /** The issues of `source` have been merged, except for those in `names`. */
  ghost predicate MergedExcept(target: map<string, Issue>, source: map<string, Issue>, names: set<string>, merged: map<string, Issue>)
  {
    && (forall name :: name in merged <==> name in target || (name in source && name !in names))
    && (forall name :: name in merged ==>
                         merged[name] == if name in names then IssueOf(target, name) else Plus(IssueOf(target, name), IssueOf(source, name)))
  }

  lemma MergeNext(target: map<string, Issue>, source: map<string, Issue>, names: set<string>, merged: map<string, Issue>, next: string)
    requires MergedExcept(target, source, names, merged) && next in names && next in source
    ensures MergedExcept(target, source, names - {next},
                         merged[next := if next in merged then Plus(merged[next], source[next]) else source[next]])
  {}

  lemma MergeEnds(target: map<string, Issue>, source: map<string, Issue>, merged: map<string, Issue>)
    requires MergedExcept(target, source, {}, merged)
    ensures merged == MergeIssues(target, source)
  {}

  /** The loop over the issues of one sign. */
  method MergeIssueMap(target: map<string, Issue>, source: map<string, Issue>) returns (merged: map<string, Issue>)
    ensures merged == MergeIssues(target, source)
  {
    merged := target;
    var names := source.Keys;
    while names != {}
      invariant names <= source.Keys && MergedExcept(target, source, names, merged)
      decreases |names|
    {
      var name :| name in names;
      MergeNext(target, source, names, merged, name);
      names := names - {name};
      merged := merged[name := if name in merged then Plus(merged[name], source[name]) else source[name]];
    }
    MergeEnds(target, source, merged);
  }

  /** The loop over the reports of a plugin: every quantity grows by what was reported. */
  method MergeReports(gathered: Report, newObservations: Report) returns (now: Report)
    requires WellFormed(gathered) && WellFormed(newObservations)
    ensures WellFormed(now)
    ensures forall q :: Amount(now, q) == Amount(gathered, q) + Amount(newObservations, q)
  {
    now := gathered;
    var rest := newObservations;
    while rest.Keys != {}
      invariant WellFormed(now) && WellFormed(rest)
      invariant forall q :: Amount(now, q) + Amount(rest, q) == Amount(gathered, q) + Amount(newObservations, q)
      decreases |rest|
    {
      HasOne(rest.Keys);
      var c :| c in rest.Keys;
      forall q ensures Amount(Merge(now, c, rest[c]), q) + Amount(rest - {c}, q) == Amount(now, q) + Amount(rest, q) {
        MergeAdds(now, rest, c, q);
      }
      now := MergeReport(now, c, rest[c]);
      rest := rest - {c};
    }
  }

  /** The body of that loop. */
  method MergeReport(gathered: Report, c: Cid, h: Health) returns (now: Report)
    requires WellFormed(gathered) && |h.occurrences| == STATES
    ensures now == Merge(gathered, c, h)
  {
    var g := HealthOf(gathered, c);
    var occurrences := g.occurrences;
    for state := 0 to STATES
      invariant |occurrences| == STATES
      invariant forall i :: 0 <= i < STATES ==> occurrences[i] == g.occurrences[i] + if i < state then h.occurrences[i] else 0
    {
      occurrences := occurrences[state := occurrences[state] + h.occurrences[state]];
    }
    var positive := MergeIssueMap(g.positive, h.positive);
    var negative := MergeIssueMap(g.negative, h.negative);
    assert occurrences == MergeHealth(g, h).occurrences;
    now := gathered[c := Health(occurrences, positive, negative)];
  }
}
