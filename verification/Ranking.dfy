/** Detection selection: findings merged into alerts, alerts trimmed to their evidence, ranked and capped by class. */
module Ranking {
  import opened Prelude
  import opened Ordering
  import opened Selections

  datatype RuleId = R1 | R2 | R3 | R4 | R5 | R6
  datatype Lifecycle = New | Ongoing | FollowUp

  datatype Finding = Finding(rule: RuleId, signalType: string, score: real, weeks: seq<int>, detail: string)

  datatype Alert = Alert(
    student: string, classRef: string, primary: Finding, merged: seq<Finding>, auto: bool, advisory: bool)

  datatype Signal = Signal(alert: Alert, rank: nat, lifecycle: Lifecycle)

  /** The lifecycle of a student's signal type given the recent alerts; none means suppressed. */
  type Resolver = (string, string) -> Option<Lifecycle>

  /** Whether a finding of a student has a record to cite. */
  type Evidence = (string, Finding) -> bool

  // ---- Merging and trimming ----

  predicate ScoreGeq(a: Finding, b: Finding) { a.score >= b.score }

  /** Python's `max` by score: the first of the highest. */
  function Best(findings: seq<Finding>): Finding
    requires findings != []
  {
    if |findings| == 1 then findings[0]
    else
      var rest := Best(findings[1..]);
      if findings[0].score >= rest.score then findings[0] else rest
  }

  predicate AllR4(findings: seq<Finding>) {
    forall f <- findings :: f.rule == R4
  }

  predicate IsCare(f: Finding) { f.rule == R5 }
  predicate IsRisk(f: Finding) { f.rule != R5 }

  function RiskAlert(student: string, classRef: string, risk: seq<Finding>): Alert
    requires risk != []
  {
    Alert(student, classRef, Best(risk), SortBy(ScoreGeq, risk), false, AllR4(risk))
  }

  function CareAlerts(student: string, classRef: string, care: seq<Finding>): seq<Alert> {
    if care == [] then []
    else CareAlerts(student, classRef, care[..|care| - 1])
         + [Alert(student, classRef, care[|care| - 1], [care[|care| - 1]], true, false)]
  }

  function AlertsOf(student: string, classRef: string, findings: seq<Finding>): seq<Alert> {
    var risk := Select(IsRisk, findings);
    (if risk != [] then [RiskAlert(student, classRef, risk)] else [])
    + CareAlerts(student, classRef, Select(IsCare, findings))
  }

  /** `merge_student`: one alert for the risk findings together, one for each care finding. */
  method MergeStudent(student: string, classRef: string, findings: seq<Finding>) returns (alerts: seq<Alert>)
    ensures alerts == AlertsOf(student, classRef, findings)
  {
    var care := Select(IsCare, findings);
    var risk := Select(IsRisk, findings);
    alerts := [];
    if risk != [] {
      alerts := [Alert(student, classRef, Best(risk), SortBy(ScoreGeq, risk), false, AllR4(risk))];
    }
    ghost var first := alerts;
    for i := 0 to |care|
      invariant alerts == first + CareAlerts(student, classRef, care[..i])
    {
      assert care[..i + 1][..i] == care[..i];
      alerts := alerts + [Alert(student, classRef, care[i], [care[i]], true, false)];
    }
    assert care[..|care|] == care;
  }

  /** The findings stand by falling score with the primary first, care stands alone, advisory means R4 only. */
  ghost predicate Sound(alert: Alert) {
    && alert.merged != []
    && Sorted(ScoreGeq, alert.merged)
    && alert.primary == alert.merged[0]
    && (if alert.auto then alert.merged == [alert.primary] && alert.primary.rule == R5
        else forall f <- alert.merged :: f.rule != R5)
    && (alert.advisory <==> !alert.auto && forall f <- alert.merged :: f.rule == R4)
  }

  lemma ScoresOrder()
    ensures TotalPreorder(ScoreGeq)
  {
  }

  lemma {:induction false} SortedIsFixed<T(!new)>(le: (T, T) -> bool, s: seq<T>)
    requires Sorted(le, s)
    ensures SortBy(le, s) == s
  {
    if s != [] {
      TailSorted(le, s);
      SortedIsFixed(le, s[1..]);
      assert s == [s[0]] + s[1..];
    }
  }

  /** The finding chosen as primary is the one the sort puts first: both take the earliest of the highest. */
  lemma {:induction false} BestIsSortedFirst(findings: seq<Finding>)
    requires findings != []
    ensures SortBy(ScoreGeq, findings)[0] == Best(findings)
  {
    if |findings| > 1 { BestIsSortedFirst(findings[1..]); }
  }

  lemma RiskIsSound(student: string, classRef: string, risk: seq<Finding>)
    requires risk != [] && forall f <- risk :: f.rule != R5
    ensures Sound(RiskAlert(student, classRef, risk))
  {
    ScoresOrder();
    SortBySorts(ScoreGeq, risk);
    BestIsSortedFirst(risk);
  }

  lemma {:induction false} CareIsSound(student: string, classRef: string, care: seq<Finding>)
    requires forall f <- care :: f.rule == R5
    ensures forall a <- CareAlerts(student, classRef, care) ::
              Sound(a) && a.auto && a.student == student && a.classRef == classRef
    ensures multiset(FindingsOf(CareAlerts(student, classRef, care))) == multiset(care)
  {
    if care != [] {
      var n := |care| - 1;
      assert care == care[..n] + [care[n]];
      CareIsSound(student, classRef, care[..n]);
      FindingsAppend(CareAlerts(student, classRef, care[..n]),
                     Alert(student, classRef, care[n], [care[n]], true, false));
    }
  }

  function FindingsOf(alerts: seq<Alert>): seq<Finding> {
    if alerts == [] then [] else FindingsOf(alerts[..|alerts| - 1]) + alerts[|alerts| - 1].merged
  }

  lemma FindingsAppend(alerts: seq<Alert>, alert: Alert)
    ensures FindingsOf(alerts + [alert]) == FindingsOf(alerts) + alert.merged
  {
    assert (alerts + [alert])[..|alerts|] == alerts;
  }

  lemma {:induction false} FindingsConcat(a: seq<Alert>, b: seq<Alert>)
    ensures FindingsOf(a + b) == FindingsOf(a) + FindingsOf(b)
  {
    hide *;
    if b == [] {
      assert a + b == a;
      NoFindings();
      assert FindingsOf(a) + [] == FindingsOf(a);
    } else {
      var front, last := b[..|b| - 1], b[|b| - 1];
      FindingsConcat(a, front);
      FindingsAppend(a + front, last);
      FindingsAppend(front, last);
      assert b == front + [last];
      assert a + b == (a + front) + [last];
    }
  }

  lemma NoFindings()
    ensures FindingsOf([]) == []
  {
  }

  lemma RiskFindings(student: string, classRef: string, risk: seq<Finding>)
    requires risk != []
    ensures multiset(FindingsOf([RiskAlert(student, classRef, risk)])) == multiset(risk)
  {
    ScoresOrder();
    SortBySorts(ScoreGeq, risk);
    FindingsAppend([], RiskAlert(student, classRef, risk));
    assert [] + [RiskAlert(student, classRef, risk)] == [RiskAlert(student, classRef, risk)];
  }

  /** Merging makes sound alerts out of exactly the findings of the student. */
  lemma MergeConserves(student: string, classRef: string, findings: seq<Finding>)
    ensures forall a <- AlertsOf(student, classRef, findings) ::
              Sound(a) && a.student == student && a.classRef == classRef
    ensures multiset(FindingsOf(AlertsOf(student, classRef, findings))) == multiset(findings)
  {
    hide CareAlerts, Select, Sound, FindingsOf, AllR4, Best, SortBy;
    var risk, care := Select(IsRisk, findings), Select(IsCare, findings);
    SelectIn(IsRisk, findings);
    SelectIn(IsCare, findings);
    SelectSplits(IsRisk, IsCare, findings);
    CareIsSound(student, classRef, care);
    if risk != [] {
      RiskIsSound(student, classRef, risk);
      RiskFindings(student, classRef, risk);
      FindingsConcat([RiskAlert(student, classRef, risk)], CareAlerts(student, classRef, care));
      hide RiskAlert;
    } else {
      assert [] + CareAlerts(student, classRef, care) == CareAlerts(student, classRef, care);
    }
  }

  function Cited(evident: Evidence, student: string): Finding -> bool {
    f => evident(student, f)
  }

  /** `_drop_findings_without_evidence`: primary, order and advisory are settled again over what is left. */
  function Trim(evident: Evidence, alert: Alert): Option<Alert> {
    var kept := Select(Cited(evident, alert.student), alert.merged);
    if kept == [] then None
    else if |kept| == |alert.merged| then Some(alert)
    else Some(alert.(primary := Best(kept), merged := SortBy(ScoreGeq, kept), advisory := !alert.auto && AllR4(kept)))
  }

  /** A trimmed alert is a sound alert over exactly the findings with evidence, in their order. */
  lemma TrimKeepsSound(evident: Evidence, alert: Alert)
    requires Sound(alert)
    ensures Trim(evident, alert).None? <==> forall f <- alert.merged :: !evident(alert.student, f)
    ensures Trim(evident, alert).Some? ==>
              var trimmed := Trim(evident, alert).value;
              && Sound(trimmed)
              && trimmed.merged == Select(Cited(evident, alert.student), alert.merged)
              && trimmed.student == alert.student && trimmed.auto == alert.auto && trimmed.classRef == alert.classRef
  {
    var p := Cited(evident, alert.student);
    SelectIn(p, alert.merged);
    SelectSorted(ScoreGeq, p, alert.merged);
    SortedIsFixed(ScoreGeq, Select(p, alert.merged));
    if Select(p, alert.merged) != [] {
      BestIsSortedFirst(Select(p, alert.merged));
      assert Select(p, alert.merged)[0] in Select(p, alert.merged);
    }
    forall f | f in alert.merged && evident(alert.student, f) ensures Trim(evident, alert).Some? {
      assert f in Select(p, alert.merged);
    }
  }

  // ---- Ranking one class ----

  /** The sort key of the capped alerts, falling: score, then student. */
  predicate RankGeq(a: Alert, b: Alert) {
    a.primary.score > b.primary.score || (a.primary.score == b.primary.score && StrLeq(b.student, a.student))
  }

  predicate StudentLeq(a: Alert, b: Alert) { StrLeq(a.student, b.student) }

  predicate IsAuto(a: Alert) { a.auto }
  predicate NotAuto(a: Alert) { !a.auto }

  /** Python's `s[:cap]`, also for a negative bound. */
  function UpTo<T>(s: seq<T>, cap: int): seq<T> {
    if cap >= |s| then s else if cap >= 0 then s[..cap] else if |s| + cap >= 0 then s[..|s| + cap] else []
  }

  function From<T>(s: seq<T>, cap: int): seq<T> {
    s[|UpTo(s, cap)|..]
  }

  function ByRank(alerts: seq<Alert>): seq<Alert> {
    SortBy(RankGeq, Select(NotAuto, alerts))
  }

  function Care(alerts: seq<Alert>): seq<Alert> {
    SortBy(StudentLeq, Select(IsAuto, alerts))
  }

  /** `rank_class`: the alerts below the cap by rank, then care by student, numbered as they are appended. */
  method RankClass(alerts: seq<Alert>, cap: int) returns (ranked: seq<(Alert, nat)>, cappedOut: int)
    ensures var order := UpTo(ByRank(alerts), cap) + Care(alerts);
      |ranked| == |order| && forall k :: 0 <= k < |ranked| ==> ranked[k] == (order[k], k + 1)
    ensures cappedOut == |From(ByRank(alerts), cap)|
  {
    var risk := SortBy(RankGeq, Select(NotAuto, alerts));
    var care := SortBy(StudentLeq, Select(IsAuto, alerts));
    var passed := UpTo(risk, cap);
    cappedOut := |risk| - |passed|;
    ranked := [];
    var rank := 1;
    for i := 0 to |passed|
      invariant rank == i + 1 && |ranked| == i
      invariant forall k :: 0 <= k < i ==> ranked[k] == (passed[k], k + 1)
    {
      ranked := ranked + [(passed[i], rank)];
      rank := rank + 1;
    }
    for i := 0 to |care|
      invariant rank == |passed| + i + 1 && |ranked| == |passed| + i
      invariant forall k :: 0 <= k < |passed| ==> ranked[k] == (passed[k], k + 1)
      invariant forall k :: 0 <= k < i ==> ranked[|passed| + k] == (care[k], |passed| + k + 1)
    {
      ranked := ranked + [(care[i], rank)];
      rank := rank + 1;
    }
  }

  // ---- One class through the pipeline ----

  /** An alert that is neither suppressed nor without evidence, trimmed, with the lifecycle of its untrimmed primary. */
  function Survivor(resolve: Resolver, evident: Evidence, alert: Alert): seq<(Alert, Lifecycle)> {
    var lifecycle := resolve(alert.student, alert.primary.signalType);
    if lifecycle.None? then []
    else
      var trimmed := Trim(evident, alert);
      if trimmed.None? then [] else [(trimmed.value, lifecycle.value)]
  }

  function Survivors(resolve: Resolver, evident: Evidence, alerts: seq<Alert>): seq<(Alert, Lifecycle)> {
    if alerts == [] then []
    else Survivors(resolve, evident, alerts[..|alerts| - 1]) + Survivor(resolve, evident, alerts[|alerts| - 1])
  }

  type Labels = map<(string, RuleId), Lifecycle>

  function LabelKey(a: Alert): (string, RuleId) {
    (a.student, a.primary.rule)
  }

  /** The dictionary of lifecycles: of two survivors with one student and rule the later one counts for both. */
  function LabelsOf(survivors: seq<(Alert, Lifecycle)>): Labels {
    if survivors == [] then map[]
    else
      var last := survivors[|survivors| - 1];
      LabelsOf(survivors[..|survivors| - 1])[LabelKey(last.0) := last.1]
  }

  function Firsts(survivors: seq<(Alert, Lifecycle)>): seq<Alert> {
    if survivors == [] then [] else Firsts(survivors[..|survivors| - 1]) + [survivors[|survivors| - 1].0]
  }

  /** The alerts that compete for the slots of the class. */
  function Competes(labels: Labels): Alert -> bool {
    a => LabelKey(a) in labels && !a.auto && !a.advisory && labels[LabelKey(a)] in {New, FollowUp}
  }

  /** The alerts that join outside the cap. */
  function IsFree(labels: Labels): Alert -> bool {
    a => LabelKey(a) in labels && (a.auto || a.advisory || labels[LabelKey(a)] == Ongoing)
  }

  function Competitors(survivors: seq<(Alert, Lifecycle)>): seq<Alert> {
    ByRank(Select(Competes(LabelsOf(survivors)), Firsts(survivors)))
  }

  /** The alerts of a class that become signals, in order. */
  function Shown(survivors: seq<(Alert, Lifecycle)>, cap: int): seq<Alert> {
    UpTo(Competitors(survivors), cap) + Free(survivors)
  }

  /** The competitors that find no slot. */
  function CutOff(survivors: seq<(Alert, Lifecycle)>, cap: int): seq<Alert> {
    From(Competitors(survivors), cap)
  }

  lemma {:induction false} FirstsLabelled(survivors: seq<(Alert, Lifecycle)>)
    ensures |Firsts(survivors)| == |survivors|
    ensures forall k :: 0 <= k < |survivors| ==> Firsts(survivors)[k] == survivors[k].0
    ensures forall a :: a in Firsts(survivors) ==> LabelKey(a) in LabelsOf(survivors)
  {
    if survivors != [] { FirstsLabelled(survivors[..|survivors| - 1]); }
  }

  /** Where no two survivors share student and rule, the dictionary gives each its own lifecycle. */
  lemma {:induction false} LabelIsOwn(survivors: seq<(Alert, Lifecycle)>, k: nat)
    requires k < |survivors|
    requires forall i, j :: 0 <= i < j < |survivors| ==> LabelKey(survivors[i].0) != LabelKey(survivors[j].0)
    ensures LabelKey(survivors[k].0) in LabelsOf(survivors)
    ensures LabelsOf(survivors)[LabelKey(survivors[k].0)] == survivors[k].1
  {
    var n := |survivors| - 1;
    if k < n { LabelIsOwn(survivors[..n], k); }
  }

  lemma RankOrder()
    ensures TotalPreorder(RankGeq) && TotalPreorder(StudentLeq)
  {
    StrOrder();
  }

  lemma CompetitorsAre(survivors: seq<(Alert, Lifecycle)>)
    ensures var pool := Select(Competes(LabelsOf(survivors)), Firsts(survivors));
      && Select(NotAuto, pool) == pool && Select(IsAuto, pool) == []
      && Sorted(RankGeq, Competitors(survivors))
      && multiset(Competitors(survivors)) == multiset(pool)
  {
    var pool := Select(Competes(LabelsOf(survivors)), Firsts(survivors));
    SelectIn(Competes(LabelsOf(survivors)), Firsts(survivors));
    SelectAll(NotAuto, pool);
    SelectNone(IsAuto, pool);
    RankOrder();
    SortBySorts(RankGeq, pool);
  }

  lemma Cut<T>(s: seq<T>, cap: int)
    ensures s == UpTo(s, cap) + From(s, cap)
    ensures 0 <= cap ==> |UpTo(s, cap)| == if |s| <= cap then |s| else cap
    ensures cap < 0 ==> |UpTo(s, cap)| == if |s| <= -cap then 0 else |s| + cap
  {
  }

  function Free(survivors: seq<(Alert, Lifecycle)>): seq<Alert> {
    SortBy(StudentLeq, Select(IsFree(LabelsOf(survivors)), Firsts(survivors)))
  }

  lemma PoolsPartition(survivors: seq<(Alert, Lifecycle)>)
    ensures multiset(Competitors(survivors)) + multiset(Free(survivors)) == multiset(Firsts(survivors))
    ensures forall a :: a in Free(survivors) <==> a in Firsts(survivors) && IsFree(LabelsOf(survivors))(a)
  {
    var labels := LabelsOf(survivors);
    FirstsLabelled(survivors);
    CompetitorsAre(survivors);
    SelectSplits(Competes(labels), IsFree(labels), Firsts(survivors));
    SelectIn(IsFree(labels), Firsts(survivors));
    RankOrder();
    SortBySorts(StudentLeq, Select(IsFree(labels), Firsts(survivors)));
  }

  /** Main result: the signals and the cut alerts of a class are together exactly its survivors. */
  lemma ClassConserves(survivors: seq<(Alert, Lifecycle)>, cap: int)
    ensures multiset(Shown(survivors, cap)) + multiset(CutOff(survivors, cap)) == multiset(Firsts(survivors))
    ensures |Shown(survivors, cap)| + |CutOff(survivors, cap)| == |survivors|
  {
    PoolsPartition(survivors);
    FirstsLabelled(survivors);
    Cut(Competitors(survivors), cap);
    hide Competitors, Free, UpTo, From, Firsts;
    var shown, cut := Shown(survivors, cap), CutOff(survivors, cap);
    var passed := UpTo(Competitors(survivors), cap);
    assert shown == passed + Free(survivors);
    assert multiset(Competitors(survivors)) == multiset(passed + cut) == multiset(passed) + multiset(cut);
    assert multiset(shown + cut) == multiset(Firsts(survivors));
    SameMultiset(shown + cut, Firsts(survivors));
  }

  lemma CompetitorsCompete(survivors: seq<(Alert, Lifecycle)>, a: Alert)
    requires a in Competitors(survivors)
    ensures a in Firsts(survivors) && Competes(LabelsOf(survivors))(a)
  {
    CompetitorsAre(survivors);
    SameMultiset(Competitors(survivors), Select(Competes(LabelsOf(survivors)), Firsts(survivors)));
    SelectIn(Competes(LabelsOf(survivors)), Firsts(survivors));
  }

  /** Shown before the other: a higher score, or with the same score the later student. */
  predicate Outranks(a: Alert, b: Alert) {
    a.primary.score > b.primary.score
    || (a.primary.score == b.primary.score && (a.student == b.student || StrLess(b.student, a.student)))
  }

  /** The lifecycle filed last for an alert's student and rule. */
  predicate LastFiled(survivors: seq<(Alert, Lifecycle)>, a: Alert, lifecycle: Lifecycle) {
    exists k :: 0 <= k < |survivors| && survivors[k].1 == lifecycle
                && survivors[k].0.student == a.student && survivors[k].0.primary.rule == a.primary.rule
                && forall later :: k < later < |survivors| ==>
                     survivors[later].0.student != a.student || survivors[later].0.primary.rule != a.primary.rule
  }

  lemma {:induction false} LastWithKey(survivors: seq<(Alert, Lifecycle)>, key: (string, RuleId)) returns (k: nat)
    requires key in LabelsOf(survivors)
    ensures k < |survivors| && LabelKey(survivors[k].0) == key && survivors[k].1 == LabelsOf(survivors)[key]
    ensures forall later :: k < later < |survivors| ==> LabelKey(survivors[later].0) != key
  {
    hide LabelKey;
    var n := |survivors| - 1;
    if LabelKey(survivors[n].0) == key {
      k := n;
    } else {
      k := LastWithKey(survivors[..n], key);
      forall later | k < later < |survivors| ensures LabelKey(survivors[later].0) != key {
        if later < n { assert survivors[later] == survivors[..n][later]; }
      }
    }
  }

  lemma LabelIsLast(survivors: seq<(Alert, Lifecycle)>, a: Alert)
    ensures LabelKey(a) in LabelsOf(survivors) ==> LastFiled(survivors, a, LabelsOf(survivors)[LabelKey(a)])
  {
    hide LabelsOf;
    if LabelKey(a) in LabelsOf(survivors) { var k := LastWithKey(survivors, LabelKey(a)); }
  }

  /** Main result: an alert is cut only if it competes, all slots are then taken, and every shown competitor ranks at
      least as high. */
  lemma CutAreLowest(survivors: seq<(Alert, Lifecycle)>, cap: int, cut: Alert)
    requires cut in CutOff(survivors, cap)
    ensures !cut.auto && !cut.advisory
    ensures LastFiled(survivors, cut, New) || LastFiled(survivors, cut, FollowUp)
    ensures forall k :: 0 <= k < |UpTo(Competitors(survivors), cap)| ==> Outranks(Shown(survivors, cap)[k], cut)
    ensures 0 <= cap ==> |UpTo(Competitors(survivors), cap)| == cap
  {
    hide *;
    LabelIsLast(survivors, cut);
    RanksAre();
    CompetesIs(LabelsOf(survivors), cut);
    CompetitorsAre(survivors);
    FreeIs(survivors, cap);
    CutOffIs(survivors, cap);
    CutIsBehind(Competitors(survivors), cap, cut);
    CompetitorsCompete(survivors, cut);
  }

  lemma RanksAre()
    ensures forall a, b :: RankGeq(a, b) <==> Outranks(a, b)
  {
  }

  lemma CompetesIs(labels: Labels, a: Alert)
    ensures Competes(labels)(a) <==> LabelKey(a) in labels && !a.auto && !a.advisory && labels[LabelKey(a)] != Ongoing
    ensures IsFree(labels)(a) <==> LabelKey(a) in labels && (a.auto || a.advisory || labels[LabelKey(a)] == Ongoing)
  {
  }

  lemma CutOffIs(survivors: seq<(Alert, Lifecycle)>, cap: int)
    ensures CutOff(survivors, cap) == From(Competitors(survivors), cap)
  {
  }

  lemma CutIsBehind(all: seq<Alert>, cap: int, cut: Alert)
    requires Sorted(RankGeq, all) && cut in From(all, cap)
    ensures cut in all && forall k :: 0 <= k < |UpTo(all, cap)| ==> RankGeq(UpTo(all, cap)[k], cut)
    ensures 0 <= cap ==> |UpTo(all, cap)| == cap
  {
    hide RankGeq;
    Cut(all, cap);
    var n := |UpTo(all, cap)|;
    var i :| 0 <= i < |From(all, cap)| && From(all, cap)[i] == cut;
    assert all[n + i] == cut;
    forall k | 0 <= k < n ensures RankGeq(UpTo(all, cap)[k], cut) { assert UpTo(all, cap)[k] == all[k]; }
  }

  /**
   * Main result: care, advisory and ongoing alerts are always shown, whatever the cap; ongoing is what the
   * dictionary says, which is the alert's own lifecycle where no two survivors share student and rule.
   */
  lemma FreeAlwaysShown(survivors: seq<(Alert, Lifecycle)>, cap: int, k: nat)
    requires k < |survivors|
    ensures LabelKey(survivors[k].0) in LabelsOf(survivors)
    ensures survivors[k].0.auto || survivors[k].0.advisory
            || LabelsOf(survivors)[LabelKey(survivors[k].0)] == Ongoing ==>
              survivors[k].0 in Shown(survivors, cap)
    ensures (forall i, j :: 0 <= i < j < |survivors| ==> LabelKey(survivors[i].0) != LabelKey(survivors[j].0)) ==>
              LabelsOf(survivors)[LabelKey(survivors[k].0)] == survivors[k].1
  {
    FirstsLabelled(survivors);
    assert Firsts(survivors)[k] in Firsts(survivors);
    PoolsPartition(survivors);
    if forall i, j :: 0 <= i < j < |survivors| ==> LabelKey(survivors[i].0) != LabelKey(survivors[j].0) {
      LabelIsOwn(survivors, k);
    }
  }

  // ---- All classes ----

  /** The signals of a class: its shown alerts, numbered from 1 without a gap. */
  function ClassSignals(survivors: seq<(Alert, Lifecycle)>, cap: int): seq<Signal> {
    var shown, labels := Shown(survivors, cap), LabelsOf(survivors);
    seq(|shown|, k requires 0 <= k < |shown| =>
      Signal(shown[k], k + 1, if LabelKey(shown[k]) in labels then labels[LabelKey(shown[k])] else New))
  }

  function Signals(
    resolve: Resolver, evident: Evidence, byClass: map<string, seq<Alert>>, cap: int, classes: seq<string>): seq<Signal>
    requires forall c :: c in classes ==> c in byClass
  {
    if classes == [] then []
    else
      var n := |classes| - 1;
      Signals(resolve, evident, byClass, cap, classes[..n])
      + ClassSignals(Survivors(resolve, evident, byClass[classes[n]]), cap)
  }

  function Capped(
    resolve: Resolver, evident: Evidence, byClass: map<string, seq<Alert>>, cap: int, classes: seq<string>): nat
    requires forall c :: c in classes ==> c in byClass
  {
    if classes == [] then 0
    else
      var n := |classes| - 1;
      Capped(resolve, evident, byClass, cap, classes[..n])
      + |CutOff(Survivors(resolve, evident, byClass[classes[n]]), cap)|
  }

  function SurvivorCount(
    resolve: Resolver, evident: Evidence, byClass: map<string, seq<Alert>>, classes: seq<string>): nat
    requires forall c :: c in classes ==> c in byClass
  {
    if classes == [] then 0
    else
      var n := |classes| - 1;
      SurvivorCount(resolve, evident, byClass, classes[..n]) + |Survivors(resolve, evident, byClass[classes[n]])|
  }

  function AllSkipped(
    resolve: Resolver, evident: Evidence, byClass: map<string, seq<Alert>>, classes: seq<string>): multiset<RuleId>
    requires forall c :: c in classes ==> c in byClass
  {
    if classes == [] then multiset{}
    else
      var n := |classes| - 1;
      AllSkipped(resolve, evident, byClass, classes[..n]) + Skipped(resolve, evident, byClass[classes[n]])
  }

  /** Main result: over all classes, survivors are the signals plus the capped-out count. */
  lemma {:induction false} SurvivorsAreCounted(
    resolve: Resolver, evident: Evidence, byClass: map<string, seq<Alert>>, cap: int, classes: seq<string>)
    requires forall c :: c in classes ==> c in byClass
    ensures |Signals(resolve, evident, byClass, cap, classes)| + Capped(resolve, evident, byClass, cap, classes)
         == SurvivorCount(resolve, evident, byClass, classes)
  {
    if classes != [] {
      var n := |classes| - 1;
      SurvivorsAreCounted(resolve, evident, byClass, cap, classes[..n]);
      ClassConserves(Survivors(resolve, evident, byClass[classes[n]]), cap);
    }
  }

  // ---- What is skipped for want of evidence ----

  /** The rules of the findings dropped from the alerts that are not suppressed. */
  function Skipped(resolve: Resolver, evident: Evidence, alerts: seq<Alert>): multiset<RuleId> {
    if alerts == [] then multiset{}
    else
      var last := alerts[|alerts| - 1];
      Skipped(resolve, evident, alerts[..|alerts| - 1])
      + if resolve(last.student, last.primary.signalType).None? then multiset{}
        else SkippedIn(evident, last.student, last.merged)
  }

  function SkippedIn(evident: Evidence, student: string, findings: seq<Finding>): multiset<RuleId> {
    if findings == [] then multiset{}
    else SkippedIn(evident, student, findings[..|findings| - 1])
         + if evident(student, findings[|findings| - 1]) then multiset{} else multiset{findings[|findings| - 1].rule}
  }

  lemma SkippedAppend(evident: Evidence, student: string, findings: seq<Finding>, f: Finding)
    ensures SkippedIn(evident, student, findings + [f])
         == SkippedIn(evident, student, findings) + if evident(student, f) then multiset{} else multiset{f.rule}
  {
    assert (findings + [f])[..|findings|] == findings;
  }

  /** The body of the trimming loop: findings without evidence are counted, the others kept in order. */
  method TrimAlert(evident: Evidence, alert: Alert, skippedBefore: multiset<RuleId>)
    returns (trimmed: Option<Alert>, skipped: multiset<RuleId>)
    ensures trimmed == Trim(evident, alert)
    ensures skipped == skippedBefore + SkippedIn(evident, alert.student, alert.merged)
  {
    hide Select, SkippedIn, SortBy, Best;
    var kept: seq<Finding> := [];
    skipped := skippedBefore;
    NothingYet(evident, alert.student);
    for i := 0 to |alert.merged|
      invariant kept == Select(Cited(evident, alert.student), alert.merged[..i])
      invariant skipped == skippedBefore + SkippedIn(evident, alert.student, alert.merged[..i])
    {
      var finding := alert.merged[i];
      assert alert.merged[..i + 1] == alert.merged[..i] + [finding];
      SelectAppend(Cited(evident, alert.student), alert.merged[..i], finding);
      SkippedAppend(evident, alert.student, alert.merged[..i], finding);
      if evident(alert.student, finding) {
        kept := kept + [finding];
      } else {
        skipped := skipped + multiset{finding.rule};
      }
    }
    assert alert.merged[..|alert.merged|] == alert.merged;
    if kept == [] { return None, skipped; }
    if |kept| == |alert.merged| { return Some(alert), skipped; }
    trimmed := Some(alert.(primary := Best(kept), merged := SortBy(ScoreGeq, kept),
                    advisory := !alert.auto && AllR4(kept)));
  }

  lemma NothingYet(evident: Evidence, student: string)
    ensures Select(Cited(evident, student), []) == [] && SkippedIn(evident, student, []) == multiset{}
  {
  }

  lemma NextSurvivor(resolve: Resolver, evident: Evidence, alerts: seq<Alert>, i: nat)
    requires i < |alerts|
    ensures var before, next := Survivors(resolve, evident, alerts[..i]), Survivor(resolve, evident, alerts[i]);
      var after := Survivors(resolve, evident, alerts[..i + 1]);
      && after == before + next
      && (next == [] ==> after == before)
      && (next != [] ==>
            && Firsts(after) == Firsts(before) + [next[0].0]
            && LabelsOf(after) == LabelsOf(before)[LabelKey(next[0].0) := next[0].1])
    ensures Skipped(resolve, evident, alerts[..i + 1])
         == Skipped(resolve, evident, alerts[..i])
            + if resolve(alerts[i].student, alerts[i].primary.signalType).None? then multiset{}
              else SkippedIn(evident, alerts[i].student, alerts[i].merged)
  {
    hide Trim, SkippedIn;
    assert alerts[..i + 1][..i] == alerts[..i];
    var before, next := Survivors(resolve, evident, alerts[..i]), Survivor(resolve, evident, alerts[i]);
    if next == [] {
      assert before + next == before;
    } else {
      assert (before + next)[..|before|] == before;
    }
  }

  /** The first loop over a class: suppress, trim, and file the lifecycle of what is left. */
  method KeepSurvivors(resolve: Resolver, evident: Evidence, alerts: seq<Alert>, skippedBefore: multiset<RuleId>)
    returns (kept: seq<Alert>, labels: Labels, skipped: multiset<RuleId>)
    ensures kept == Firsts(Survivors(resolve, evident, alerts))
    ensures labels == LabelsOf(Survivors(resolve, evident, alerts))
    ensures skipped == skippedBefore + Skipped(resolve, evident, alerts)
  {
    hide Trim, SkippedIn, LabelKey;
    kept, labels, skipped := [], map[], skippedBefore;
    for i := 0 to |alerts|
      invariant kept == Firsts(Survivors(resolve, evident, alerts[..i]))
      invariant labels == LabelsOf(Survivors(resolve, evident, alerts[..i]))
      invariant skipped == skippedBefore + Skipped(resolve, evident, alerts[..i])
    {
      hide Survivors, Firsts, LabelsOf, Skipped;
      NextSurvivor(resolve, evident, alerts, i);
      var alert := alerts[i];
      var lifecycle := resolve(alert.student, alert.primary.signalType);
      if lifecycle.None? { continue; }
      var trimmed;
      trimmed, skipped := TrimAlert(evident, alert, skipped);
      if trimmed.None? { continue; }
      kept := kept + [trimmed.value];
      labels := labels[LabelKey(trimmed.value) := lifecycle.value];
    }
    assert alerts[..|alerts|] == alerts;
  }

  lemma PoolOrder(survivors: seq<(Alert, Lifecycle)>, cap: int)
    ensures var pool := Select(Competes(LabelsOf(survivors)), Firsts(survivors));
      && UpTo(ByRank(pool), cap) + Care(pool) == UpTo(Competitors(survivors), cap)
      && From(ByRank(pool), cap) == CutOff(survivors, cap)
  {
    var pool := Select(Competes(LabelsOf(survivors)), Firsts(survivors));
    CompetitorsAre(survivors);
    assert Care(pool) == [];
    hide ByRank, UpTo, Care, From, Select;
    assert UpTo(ByRank(pool), cap) + [] == UpTo(ByRank(pool), cap);
  }

  lemma ShownLabelled(survivors: seq<(Alert, Lifecycle)>, cap: int, k: nat)
    requires k < |Shown(survivors, cap)|
    ensures LabelKey(Shown(survivors, cap)[k]) in LabelsOf(survivors)
    ensures |ClassSignals(survivors, cap)| == |Shown(survivors, cap)|
    ensures var shown := Shown(survivors, cap)[k];
      ClassSignals(survivors, cap)[k] == Signal(shown, k + 1, LabelsOf(survivors)[LabelKey(shown)])
  {
    var shown := Shown(survivors, cap);
    ClassConserves(survivors, cap);
    FirstsLabelled(survivors);
    hide Shown, Firsts, LabelsOf, CutOff;
    assert shown[k] in multiset(shown);
    assert shown[k] in multiset(Firsts(survivors));
  }

  lemma FreeIs(survivors: seq<(Alert, Lifecycle)>, cap: int)
    ensures SortBy(StudentLeq, Select(IsFree(LabelsOf(survivors)), Firsts(survivors))) == Free(survivors)
    ensures Shown(survivors, cap) == UpTo(Competitors(survivors), cap) + Free(survivors)
    ensures |ClassSignals(survivors, cap)| == |Shown(survivors, cap)|
  {
  }

  /** The second half of a class: rank the competitors, then append the free alerts with the next ranks. */
  method SignalsOfClass(ghost survivors: seq<(Alert, Lifecycle)>, kept: seq<Alert>, labels: Labels, cap: int)
    returns (signals: seq<Signal>, cappedOut: int)
    requires kept == Firsts(survivors) && labels == LabelsOf(survivors)
    ensures |signals| == |ClassSignals(survivors, cap)| && signals == ClassSignals(survivors, cap)
    ensures cappedOut == |CutOff(survivors, cap)|
  {
    hide *;
    PoolOrder(survivors, cap);
    FreeIs(survivors, cap);
    var ranked;
    ranked, cappedOut := RankClass(Select(Competes(labels), kept), cap);
    var free := SortBy(StudentLeq, Select(IsFree(labels), kept));
    signals := [];
    for i := 0 to |ranked|
      invariant |signals| == i
      invariant forall k :: 0 <= k < i ==> signals[k] == ClassSignals(survivors, cap)[k]
    {
      ShownLabelled(survivors, cap, i);
      signals := signals + [Signal(ranked[i].0, ranked[i].1, labels[LabelKey(ranked[i].0)])];
    }
    var nextRank := |ranked| + 1;
    for i := 0 to |free|
      invariant nextRank == |ranked| + i + 1 && |signals| == |ranked| + i
      invariant forall k :: 0 <= k < |signals| ==> signals[k] == ClassSignals(survivors, cap)[k]
    {
      ShownLabelled(survivors, cap, |ranked| + i);
      signals := signals + [Signal(free[i], nextRank, labels[LabelKey(free[i])])];
      nextRank := nextRank + 1;
    }
  }

  // ---- What a signal tells ----

  /** Neither suppressed nor without any evidence. */
  function Survives(resolve: Resolver, evident: Evidence): Alert -> bool {
    (a: Alert) => resolve(a.student, a.primary.signalType).Some? && exists f <- a.merged :: evident(a.student, f)
  }

  /** The survivors are the alerts that are neither suppressed nor without any evidence, in order: each keeps its
      findings with evidence and the lifecycle that the resolver gives to its primary as it was before trimming. */
  lemma {:induction false} SurvivorsExactly(resolve: Resolver, evident: Evidence, alerts: seq<Alert>)
    requires forall a <- alerts :: Sound(a)
    ensures var survivors, kept := Survivors(resolve, evident, alerts), Select(Survives(resolve, evident), alerts);
      && |survivors| == |kept|
      && forall k :: 0 <= k < |kept| ==>
           && Some(survivors[k].1) == resolve(kept[k].student, kept[k].primary.signalType)
           && TrimmedFrom(evident, kept[k], survivors[k].0)
  {
    if alerts != [] {
      var n := |alerts| - 1;
      assert alerts == alerts[..n] + [alerts[n]];
      hide Trim, Sound, Survivor, TrimmedFrom;
      SurvivorsExactly(resolve, evident, alerts[..n]);
      SelectAppend(Survives(resolve, evident), alerts[..n], alerts[n]);
      SurvivorExactly(resolve, evident, alerts[n]);
      hide Select, Survives;
    }
  }

  /** A sound alert of the same student and class over exactly the findings with evidence, in their order. */
  ghost predicate TrimmedFrom(evident: Evidence, alert: Alert, trimmed: Alert) {
    && Sound(trimmed)
    && trimmed.student == alert.student && trimmed.classRef == alert.classRef && trimmed.auto == alert.auto
    && trimmed.merged == Select((f: Finding) => evident(alert.student, f), alert.merged)
  }

  lemma SurvivorExactly(resolve: Resolver, evident: Evidence, alert: Alert)
    requires Sound(alert)
    ensures var next := Survivor(resolve, evident, alert);
      if Survives(resolve, evident)(alert) then
        && |next| == 1 && Some(next[0].1) == resolve(alert.student, alert.primary.signalType)
        && TrimmedFrom(evident, alert, next[0].0)
      else next == []
  {
    TrimKeepsSound(evident, alert);
    SelectAgrees(Cited(evident, alert.student), (f: Finding) => evident(alert.student, f), alert.merged);
    hide Trim, Select, Sound;
  }

  /** A signal's lifecycle is the one filed last for its student and rule; where no two survivors share these, it is
      that of the survivor itself, which is what the resolver gave to its primary as it was before trimming. */
  lemma SignalsTell(resolve: Resolver, evident: Evidence, alerts: seq<Alert>, cap: int, k: nat)
    requires forall a <- alerts :: Sound(a)
    requires k < |ClassSignals(Survivors(resolve, evident, alerts), cap)|
    ensures var survivors := Survivors(resolve, evident, alerts);
      var signal := ClassSignals(survivors, cap)[k];
      && signal.rank == k + 1
      && LastFiled(survivors, signal.alert, signal.lifecycle)
      && (NoneShareRule(survivors) ==>
            exists a :: a in alerts && resolve(a.student, a.primary.signalType) == Some(signal.lifecycle)
                        && TrimmedFrom(evident, a, signal.alert))
  {
    hide Survivors, ClassSignals, Shown, TrimmedFrom, Select, Sound, Survives, LabelsOf, Firsts, LastFiled;
    var survivors := Survivors(resolve, evident, alerts);
    FreeIs(survivors, cap);
    ShownLabelled(survivors, cap, k);
    var shown := Shown(survivors, cap)[k];
    LabelIsLast(survivors, shown);
    if NoneShareRule(survivors) {
      var j := ShownSurvives(survivors, cap, k);
      OwnLabel(survivors, j);
      SurvivorsExactly(resolve, evident, alerts);
      var kept := Select(Survives(resolve, evident), alerts);
      SelectIn(Survives(resolve, evident), alerts);
      assert kept[j] in kept;
    }
  }

  /** No two survivors are of one student and one rule. */
  predicate NoneShareRule(survivors: seq<(Alert, Lifecycle)>) {
    forall i, j :: 0 <= i < j < |survivors| ==>
      survivors[i].0.student != survivors[j].0.student || survivors[i].0.primary.rule != survivors[j].0.primary.rule
  }

  lemma OwnLabel(survivors: seq<(Alert, Lifecycle)>, j: nat)
    requires NoneShareRule(survivors) && j < |survivors|
    ensures LabelKey(survivors[j].0) in LabelsOf(survivors)
    ensures LabelsOf(survivors)[LabelKey(survivors[j].0)] == survivors[j].1
  {
    LabelIsOwn(survivors, j);
  }

  lemma ShownSurvives(survivors: seq<(Alert, Lifecycle)>, cap: int, k: nat) returns (j: nat)
    requires k < |Shown(survivors, cap)|
    ensures j < |survivors| && survivors[j].0 == Shown(survivors, cap)[k]
  {
    hide Shown, CutOff, Firsts;
    var shown := Shown(survivors, cap);
    ClassConserves(survivors, cap);
    FirstsLabelled(survivors);
    assert shown[k] in multiset(shown) && shown[k] in multiset(Firsts(survivors));
    j :| 0 <= j < |Firsts(survivors)| && Firsts(survivors)[j] == shown[k];
  }

  /** The signals of a class: first the competitors below the cap, highest first, then care, advisory and ongoing
      alerts, by student. */
  lemma SignalsInOrder(survivors: seq<(Alert, Lifecycle)>, cap: int)
    ensures var shown, p := Shown(survivors, cap), |UpTo(Competitors(survivors), cap)|;
      && p <= |shown|
      && (forall i :: 0 <= i < p ==>
            !shown[i].auto && !shown[i].advisory && !LastFiled(survivors, shown[i], Ongoing))
      && (forall i, j :: 0 <= i < j < p ==> Outranks(shown[i], shown[j]))
      && (forall i :: p <= i < |shown| ==>
            shown[i].auto || shown[i].advisory || LastFiled(survivors, shown[i], Ongoing))
      && (forall i, j :: p <= i < j < |shown| ==>
            shown[i].student == shown[j].student || StrLess(shown[i].student, shown[j].student))
  {
    hide *;
    var passed := UpTo(Competitors(survivors), cap);
    FreeIs(survivors, cap);
    PassedInOrder(survivors, cap);
    FreeInOrder(survivors);
    assert forall i :: 0 <= i < |passed| ==> Shown(survivors, cap)[i] == passed[i];
    assert forall i :: 0 <= i < |Free(survivors)| ==> Shown(survivors, cap)[|passed| + i] == Free(survivors)[i];
  }

  lemma PassedInOrder(survivors: seq<(Alert, Lifecycle)>, cap: int)
    ensures var passed := UpTo(Competitors(survivors), cap);
      && (forall i :: 0 <= i < |passed| ==>
            !passed[i].auto && !passed[i].advisory && !LastFiled(survivors, passed[i], Ongoing))
      && (forall i, j :: 0 <= i < j < |passed| ==> Outranks(passed[i], passed[j]))
  {
    hide *;
    var all, passed := Competitors(survivors), UpTo(Competitors(survivors), cap);
    CompetitorsAre(survivors);
    Cut(all, cap);
    RanksAre();
    forall i | 0 <= i < |passed|
      ensures !passed[i].auto && !passed[i].advisory && !LastFiled(survivors, passed[i], Ongoing)
    {
      assert passed[i] == all[i];
      CompetitorsCompete(survivors, passed[i]);
      CompetesIs(LabelsOf(survivors), passed[i]);
      FiledOnce(survivors, passed[i], Ongoing);
    }
    forall i, j | 0 <= i < j < |passed| ensures Outranks(passed[i], passed[j]) {
      assert passed[i] == all[i] && passed[j] == all[j];
      SortedAt(RankGeq, all, i, j);
    }
  }

  lemma SortedAt(le: (Alert, Alert) -> bool, s: seq<Alert>, i: nat, j: nat)
    requires Sorted(le, s) && i < j < |s|
    ensures le(s[i], s[j])
  {
  }

  lemma FreeInOrder(survivors: seq<(Alert, Lifecycle)>)
    ensures var free := Free(survivors);
      && (forall i :: 0 <= i < |free| ==>
            free[i].auto || free[i].advisory || LastFiled(survivors, free[i], Ongoing))
      && (forall i, j :: 0 <= i < j < |free| ==>
            free[i].student == free[j].student || StrLess(free[i].student, free[j].student))
  {
    hide *;
    var free := Free(survivors);
    PoolsPartition(survivors);
    FreeIsSorted(survivors);
    forall i | 0 <= i < |free| ensures free[i].auto || free[i].advisory || LastFiled(survivors, free[i], Ongoing) {
      assert free[i] in free;
      CompetesIs(LabelsOf(survivors), free[i]);
      LabelIsLast(survivors, free[i]);
    }
    forall i, j | 0 <= i < j < |free|
      ensures free[i].student == free[j].student || StrLess(free[i].student, free[j].student)
    {
      SortedAt(StudentLeq, free, i, j);
      StudentsAre(free[i], free[j]);
    }
  }

  lemma StudentsAre(a: Alert, b: Alert)
    ensures StudentLeq(a, b) <==> a.student == b.student || StrLess(a.student, b.student)
  {
  }

  lemma FreeIsSorted(survivors: seq<(Alert, Lifecycle)>)
    ensures Sorted(StudentLeq, Free(survivors))
  {
    RankOrder();
    SortBySorts(StudentLeq, Select(IsFree(LabelsOf(survivors)), Firsts(survivors)));
  }

  lemma FiledOnce(survivors: seq<(Alert, Lifecycle)>, a: Alert, lifecycle: Lifecycle)
    ensures LastFiled(survivors, a, lifecycle) && LabelKey(a) in LabelsOf(survivors) ==>
              LabelsOf(survivors)[LabelKey(a)] == lifecycle
  {
    hide LabelsOf;
    if LastFiled(survivors, a, lifecycle) && LabelKey(a) in LabelsOf(survivors) {
      var k := LastWithKey(survivors, LabelKey(a));
      var j :| 0 <= j < |survivors| && survivors[j].1 == lifecycle
               && survivors[j].0.student == a.student && survivors[j].0.primary.rule == a.primary.rule
               && forall later :: j < later < |survivors| ==>
                    survivors[later].0.student != a.student || survivors[later].0.primary.rule != a.primary.rule;
      assert j == k;
    }
  }

  /** The classes in the order of their names. */
  ghost function ClassesOf(byClass: map<string, seq<Alert>>): (classes: seq<string>)
    ensures Distinct(classes) && forall c :: c in classes <==> c in byClass
  {
    StrLeqIsTotal();
    ArrangeSorts(StrLeq, byClass.Keys);
    Arrange(StrLeq, byClass.Keys)
  }

  lemma ClassesAre(byClass: map<string, seq<Alert>>)
    ensures ClassesOf(byClass) == Arrange(StrLeq, byClass.Keys)
  {
  }

  lemma NoClasses(resolve: Resolver, evident: Evidence, byClass: map<string, seq<Alert>>, cap: int)
    ensures Signals(resolve, evident, byClass, cap, []) == [] && Capped(resolve, evident, byClass, cap, []) == 0
    ensures AllSkipped(resolve, evident, byClass, []) == multiset{}
  {
  }

  lemma NextClass(
    resolve: Resolver, evident: Evidence, byClass: map<string, seq<Alert>>, cap: int, order: seq<string>, i: nat)
    requires i < |order| && forall c :: c in order ==> c in byClass
    ensures order[i] in byClass && forall c :: c in order[..i + 1] ==> c in byClass
    ensures var survivors := Survivors(resolve, evident, byClass[order[i]]);
      && Signals(resolve, evident, byClass, cap, order[..i + 1])
         == Signals(resolve, evident, byClass, cap, order[..i]) + ClassSignals(survivors, cap)
      && Capped(resolve, evident, byClass, cap, order[..i + 1])
         == Capped(resolve, evident, byClass, cap, order[..i]) + |CutOff(survivors, cap)|
      && AllSkipped(resolve, evident, byClass, order[..i + 1])
         == AllSkipped(resolve, evident, byClass, order[..i]) + Skipped(resolve, evident, byClass[order[i]])
  {
    hide Survivors, ClassSignals, CutOff, Skipped;
    assert order[i] in order;
    assert order[..i + 1][..i] == order[..i];
  }

  /** `_rank_with_lifecycle`: the classes in the order of their names. */
  method RankWithLifecycle(resolve: Resolver, evident: Evidence, byClass: map<string, seq<Alert>>, cap: int)
    returns (signals: seq<Signal>, cappedOut: int, skipped: multiset<RuleId>)
    ensures signals == Signals(resolve, evident, byClass, cap, ClassesOf(byClass))
    ensures cappedOut == Capped(resolve, evident, byClass, cap, ClassesOf(byClass))
    ensures skipped == AllSkipped(resolve, evident, byClass, ClassesOf(byClass))
    ensures |signals| + cappedOut == SurvivorCount(resolve, evident, byClass, ClassesOf(byClass))
  {
    hide *;
    StrLeqIsTotal();
    var order := SortedListing(StrLeq, byClass.Keys);
    ClassesAre(byClass);
    signals, cappedOut, skipped := [], 0, multiset{};
    NoClasses(resolve, evident, byClass, cap);
    for i := 0 to |order|
      invariant forall c :: c in order[..i] ==> c in byClass
      invariant signals == Signals(resolve, evident, byClass, cap, order[..i])
      invariant cappedOut == Capped(resolve, evident, byClass, cap, order[..i])
      invariant skipped == AllSkipped(resolve, evident, byClass, order[..i])
    {
      NextClass(resolve, evident, byClass, cap, order, i);
      var alerts := byClass[order[i]];
      var kept, labels;
      kept, labels, skipped := KeepSurvivors(resolve, evident, alerts, skipped);
      var more, cut := SignalsOfClass(Survivors(resolve, evident, alerts), kept, labels, cap);
      signals, cappedOut := signals + more, cappedOut + cut;
    }
    assert order[..|order|] == order;
    SurvivorsAreCounted(resolve, evident, byClass, cap, order);
  }

  function RulesOf(findings: seq<Finding>): multiset<RuleId> {
    if findings == [] then multiset{}
    else RulesOf(findings[..|findings| - 1]) + multiset{findings[|findings| - 1].rule}
  }

  lemma RulesAppend(findings: seq<Finding>, f: Finding)
    ensures RulesOf(findings + [f]) == RulesOf(findings) + multiset{f.rule}
  {
    assert (findings + [f])[..|findings|] == findings;
  }

  lemma {:induction false} RulesConcat(a: seq<Finding>, b: seq<Finding>)
    ensures RulesOf(a + b) == RulesOf(a) + RulesOf(b)
  {
    hide *;
    if b == [] {
      assert a + b == a;
      NoRules();
    } else {
      var front, last := b[..|b| - 1], b[|b| - 1];
      RulesConcat(a, front);
      RulesAppend(a + front, last);
      RulesAppend(front, last);
      assert b == front + [last];
      assert a + b == (a + front) + [last];
    }
  }

  lemma {:induction false} CitedOrSkipped(evident: Evidence, student: string, findings: seq<Finding>)
    ensures RulesOf(Select(Cited(evident, student), findings)) + SkippedIn(evident, student, findings)
            == RulesOf(findings)
  {
    hide *;
    if findings == [] {
      NothingYet(evident, student);
      NoRules();
    } else {
      var n := |findings| - 1;
      CitedOrSkipped(evident, student, findings[..n]);
      assert findings == findings[..n] + [findings[n]];
      OneMoreFinding(evident, student, findings[..n], findings[n]);
    }
  }

  lemma NoRules()
    ensures RulesOf([]) == multiset{}
  {
  }

  lemma OneMoreFinding(evident: Evidence, student: string, findings: seq<Finding>, f: Finding)
    requires RulesOf(Select(Cited(evident, student), findings)) + SkippedIn(evident, student, findings)
             == RulesOf(findings)
    ensures RulesOf(Select(Cited(evident, student), findings + [f])) + SkippedIn(evident, student, findings + [f])
            == RulesOf(findings + [f])
  {
    hide Select, SkippedIn, RulesOf;
    var kept := Select(Cited(evident, student), findings);
    SelectAppend(Cited(evident, student), findings, f);
    SkippedAppend(evident, student, findings, f);
    RulesAppend(findings, f);
    RulesAppend(kept, f);
    assert kept + [] == kept;
  }

  /** The rules of the findings of the alerts that are not suppressed. */
  function Considered(resolve: Resolver, alerts: seq<Alert>): multiset<RuleId> {
    if alerts == [] then multiset{}
    else
      var last := alerts[|alerts| - 1];
      Considered(resolve, alerts[..|alerts| - 1])
      + if resolve(last.student, last.primary.signalType).None? then multiset{} else RulesOf(last.merged)
  }

  lemma SurvivorAccounts(resolve: Resolver, evident: Evidence, alert: Alert)
    requires Sound(alert)
    ensures forall pair <- Survivor(resolve, evident, alert) :: Sound(pair.0)
    ensures resolve(alert.student, alert.primary.signalType).Some? ==>
              var next := Survivor(resolve, evident, alert);
              RulesOf(alert.merged) == SkippedIn(evident, alert.student, alert.merged)
                                       + if next == [] then multiset{} else RulesOf(next[0].0.merged)
  {
    hide Select, SkippedIn, RulesOf, Sound, SortBy, Trim, AllR4;
    TrimKeepsSound(evident, alert);
    CitedOrSkipped(evident, alert.student, alert.merged);
    if Trim(evident, alert).None? { NothingCited(evident, alert); }
  }

  lemma NothingCited(evident: Evidence, alert: Alert)
    requires Trim(evident, alert).None?
    ensures RulesOf(Select(Cited(evident, alert.student), alert.merged)) == multiset{}
  {
    NoRules();
  }

  lemma NextAccount(resolve: Resolver, evident: Evidence, alerts: seq<Alert>, i: nat)
    requires i < |alerts|
    ensures Considered(resolve, alerts[..i + 1])
            == Considered(resolve, alerts[..i])
               + if resolve(alerts[i].student, alerts[i].primary.signalType).None? then multiset{}
                 else RulesOf(alerts[i].merged)
  {
    assert alerts[..i + 1][..i] == alerts[..i];
  }

  /** Rule by rule, the findings considered are those cited by a survivor and those counted as skipped. */
  ghost predicate Balanced(resolve: Resolver, evident: Evidence, alerts: seq<Alert>) {
    RulesOf(FindingsOf(Firsts(Survivors(resolve, evident, alerts)))) + Skipped(resolve, evident, alerts)
    == Considered(resolve, alerts)
  }

  /** Main result: no finding is dropped silently; rule by rule, those considered are those cited by a survivor and
      those counted as skipped. */
  lemma {:induction false} FindingsAccounted(resolve: Resolver, evident: Evidence, alerts: seq<Alert>)
    requires forall a <- alerts :: Sound(a)
    ensures forall a <- Firsts(Survivors(resolve, evident, alerts)) :: Sound(a)
    ensures Balanced(resolve, evident, alerts)
  {
    hide *;
    if alerts == [] {
      NothingAccounted(resolve, evident);
    } else {
      var n := |alerts| - 1;
      FindingsAccounted(resolve, evident, alerts[..n]);
      AlertAccounted(resolve, evident, alerts, n);
      assert alerts[..n + 1] == alerts;
    }
  }

  lemma NothingAccounted(resolve: Resolver, evident: Evidence)
    ensures Firsts(Survivors(resolve, evident, [])) == [] && Skipped(resolve, evident, []) == multiset{}
    ensures Balanced(resolve, evident, [])
  {
  }

  /** The books stay balanced when one more alert is looked at. */
  lemma AlertAccounted(resolve: Resolver, evident: Evidence, alerts: seq<Alert>, n: nat)
    requires n < |alerts| && Sound(alerts[n])
    ensures Balanced(resolve, evident, alerts[..n]) ==> Balanced(resolve, evident, alerts[..n + 1])
    ensures forall a <- Firsts(Survivors(resolve, evident, alerts[..n + 1])) ::
              a in Firsts(Survivors(resolve, evident, alerts[..n])) || Sound(a)
  {
    hide *;
    BalanceIs(resolve, evident, alerts[..n]);
    BalanceIs(resolve, evident, alerts[..n + 1]);
    var kept := Firsts(Survivors(resolve, evident, alerts[..n]));
    var next := Survivor(resolve, evident, alerts[n]);
    SurvivorAccounts(resolve, evident, alerts[n]);
    SuppressedIsGone(resolve, evident, alerts[n]);
    NextSurvivor(resolve, evident, alerts, n);
    NextAccount(resolve, evident, alerts, n);
    if next != [] {
      assert next[0] in next;
      FindingsAppend(kept, next[0].0);
      RulesConcat(FindingsOf(kept), next[0].0.merged);
    }
  }

  lemma BalanceIs(resolve: Resolver, evident: Evidence, alerts: seq<Alert>)
    ensures Balanced(resolve, evident, alerts) <==>
              RulesOf(FindingsOf(Firsts(Survivors(resolve, evident, alerts)))) + Skipped(resolve, evident, alerts)
              == Considered(resolve, alerts)
  {
  }

  lemma SuppressedIsGone(resolve: Resolver, evident: Evidence, alert: Alert)
    ensures resolve(alert.student, alert.primary.signalType).None? ==> Survivor(resolve, evident, alert) == []
  {
  }

  // ---- Who is judged at all ----

  datatype Status = Enrolled | Paused | Returned

  datatype StudentInput =
    StudentInput(ref: string, classRef: string, enrolledWeeks: nat, status: Status, consent: string)

  const CONSENT_GRANTED := "granted"
  const OBSERVED_ONLY_MIN_WEEKS := 2

  /** Consent is not granted. */
  function Unconsented(): StudentInput -> bool {
    (s: StudentInput) => s.consent != "granted"
  }

  /** Consented, but on a pause. */
  function OnPause(): StudentInput -> bool {
    (s: StudentInput) => s.consent == "granted" && s.status == Paused
  }

  /** Consented and not on a pause, but enrolled for less than two weeks. */
  function TooNew(): StudentInput -> bool {
    (s: StudentInput) => s.consent == "granted" && s.status != Paused && s.enrolledWeeks < 2
  }

  function Admitted(): StudentInput -> bool {
    (s: StudentInput) => s.consent == "granted" && s.status != Paused && s.enrolledWeeks >= 2
  }

  /** The exclusion counters of `detect`: missing consent counts before a pause, a pause before a short enrolment; they
      are exclusive and, with the judged students, complete. */
  method CountExclusions(students: seq<StudentInput>)
    returns (judged: seq<StudentInput>, noConsent: nat, paused: nat, tooNew: nat)
    ensures judged == Select(Admitted(), students)
    ensures noConsent == |Select(Unconsented(), students)|
    ensures paused == |Select(OnPause(), students)|
    ensures tooNew == |Select(TooNew(), students)|
    ensures |judged| + noConsent + paused + tooNew == |students|
  {
    judged, noConsent, paused, tooNew := [], 0, 0, 0;
    for i := 0 to |students|
      invariant judged == Select(Admitted(), students[..i])
      invariant noConsent == |Select(Unconsented(), students[..i])|
      invariant paused == |Select(OnPause(), students[..i])|
      invariant tooNew == |Select(TooNew(), students[..i])|
      invariant |judged| + noConsent + paused + tooNew == i
    {
      var student := students[i];
      assert students[..i + 1] == students[..i] + [student];
      SelectAppend(Unconsented(), students[..i], student);
      SelectAppend(OnPause(), students[..i], student);
      SelectAppend(TooNew(), students[..i], student);
      SelectAppend(Admitted(), students[..i], student);
      hide Select;
      if student.consent != CONSENT_GRANTED {
        noConsent := noConsent + 1;
        continue;
      }
      if student.status.Paused? {
        paused := paused + 1;
        continue;
      }
      if student.enrolledWeeks < OBSERVED_ONLY_MIN_WEEKS {
        tooNew := tooNew + 1;
        continue;
      }
      judged := judged + [student];
    }
    assert students[..|students|] == students;
  }
}
