/**
 * The state the alert engine works on -- reports, alerts and the rows that
 * link them -- and, as functions of that state, what each step of the
 * engine does to it. The engine's methods are proved against these
 * functions; the properties the engine promises are proved about them.
 */
module AlertStore {
  import opened Wrappers

  type ReportId = nat
  type AlertId = nat
  /** A report group label (a GUID in the database). */
  type Label = nat
  /** A project health risk, which carries the alert rule. */
  type HealthRiskId = nat

  /** Only `Single` reports take part in alerting. */
  datatype ReportType = Single | Aggregate

  datatype ReportStatus = New | Pending | Rejected | Removed
  datatype AlertStatus = Pending | Escalated | Dismissed | Rejected | Closed

  datatype Report = Report(reportType: ReportType, healthRisk: HealthRiskId, groupLabel: Label, status: ReportStatus)
  datatype Alert = Alert(healthRisk: HealthRiskId, createdAt: int, status: AlertStatus)
  /** A membership row: report `reportId` belongs to alert `alertId`. */
  datatype AlertReport = AlertReport(reportId: ReportId, alertId: AlertId)
  /** The alert rule of a project health risk; the distance threshold is optional (nullable). */
  datatype AlertRule = AlertRule(countThreshold: int, kilometersThreshold: Option<int>)

  /** The tables the engine reads and writes. `rules` is read only. */
  datatype Store = Store(
    reports: map<ReportId, Report>,
    alerts: map<AlertId, Alert>,
    alertReports: set<AlertReport>,
    rules: map<HealthRiskId, AlertRule>)

  /**
   * A request to the report labeling service, which is not part of this
   * model: label the reports around a newly added one, or recompute the
   * labels of a group with a distance threshold in meters.
   */
  datatype LabelingCall =
    | ResolveLabelsOnReportAdded(reportId: ReportId, healthRisk: HealthRiskId)
    | CalculateNewLabelsInLabelGroup(groupLabel: Label, meters: int)

  /** The labeling service, as an oracle: the new label of each report it relabels. */
  type Labeling = LabelingCall -> map<ReportId, Label>

  /** Foreign keys hold: rows link existing reports and alerts, and every report's health risk has a rule. */
  ghost predicate Consistent(s: Store) {
    && (forall ar :: ar in s.alertReports ==> ar.reportId in s.reports && ar.alertId in s.alerts)
    && (forall id :: id in s.reports ==> s.reports[id].healthRisk in s.rules)
  }

  // ------------------------------------------------------------- queries

  /** Neither rejected nor removed. */
  predicate IsActiveReport(r: Report) {
    r.status != ReportStatus.Rejected && r.status != ReportStatus.Removed
  }

  /** Pending or escalated. */
  predicate IsActiveAlert(a: Alert) {
    a.status == AlertStatus.Pending || a.status == AlertStatus.Escalated
  }

  /** The active reports carrying `groupLabel`. */
  function ActiveReportsWithLabel(s: Store, groupLabel: Label): set<ReportId> {
    set id | id in s.reports && IsActiveReport(s.reports[id]) && s.reports[id].groupLabel == groupLabel
  }

  /** The active alerts report `id` belongs to. */
  function ActiveAlertsOf(s: Store, id: ReportId): set<AlertId> {
    set ar | ar in s.alertReports && ar.reportId == id && ar.alertId in s.alerts
             && IsActiveAlert(s.alerts[ar.alertId]) :: ar.alertId
  }

  /** The active alerts some active report with `groupLabel` belongs to. */
  function CoveringAlerts(s: Store, groupLabel: Label): set<AlertId> {
    set ar | ar in s.alertReports && ar.reportId in ActiveReportsWithLabel(s, groupLabel)
             && ar.alertId in s.alerts && IsActiveAlert(s.alerts[ar.alertId]) :: ar.alertId
  }

  /** The active reports with `groupLabel` that belong to no active alert. */
  function ReportsWithNoActiveAlert(s: Store, groupLabel: Label): set<ReportId> {
    set id | id in ActiveReportsWithLabel(s, groupLabel) && ActiveAlertsOf(s, id) == {}
  }

  /**
   * An alert the existing-alert query may return for `groupLabel`: one of the
   * covering alerts, and an escalated one whenever there is one.
   */
  predicate IsPreferredAlert(s: Store, groupLabel: Label, a: AlertId) {
    && a in CoveringAlerts(s, groupLabel)
    && a in s.alerts
    && (s.alerts[a].status != AlertStatus.Escalated ==>
          forall b :: b in CoveringAlerts(s, groupLabel) && b in s.alerts ==> s.alerts[b].status != AlertStatus.Escalated)
  }

  /** No report belongs to two active alerts. */
  ghost predicate AtMostOneActiveAlert(s: Store) {
    forall id: ReportId :: |ActiveAlertsOf(s, id)| <= 1
  }

  // ------------------------------------------------------------- updates

  /** Attaching promotes a New report to Pending and leaves any other status alone. */
  function Promote(r: Report): Report {
    if r.status == ReportStatus.New then r.(status := ReportStatus.Pending) else r
  }

  /** `after` is `before`, or `before` promoted from New to Pending. */
  predicate KeptOrPromoted(before: Report, after: Report) {
    after == before || (before.status == ReportStatus.New && after == before.(status := ReportStatus.Pending))
  }

  /**
   * `AddReportsToAlert`: one row per given report, and each given New report
   * becomes Pending.
   */
  function WithReportsAdded(s: Store, ids: set<ReportId>, alert: AlertId): (t: Store)
    ensures t.alerts == s.alerts && t.rules == s.rules && t.reports.Keys == s.reports.Keys
    ensures t.alertReports == s.alertReports + set id | id in ids :: AlertReport(id, alert)
    ensures forall id :: id in s.reports ==>
              && t.reports[id].groupLabel == s.reports[id].groupLabel
              && t.reports[id].reportType == s.reports[id].reportType
              && t.reports[id].healthRisk == s.reports[id].healthRisk
              && (IsActiveReport(t.reports[id]) <==> IsActiveReport(s.reports[id]))
    ensures forall id :: id in ids && id in s.reports && s.reports[id].status == ReportStatus.New ==>
              t.reports[id].status == ReportStatus.Pending
    ensures forall id :: id in s.reports && (id !in ids || s.reports[id].status != ReportStatus.New) ==>
              t.reports[id] == s.reports[id]
  {
    s.(reports := map id | id in s.reports :: if id in ids then Promote(s.reports[id]) else s.reports[id],
       alertReports := s.alertReports + set id | id in ids :: AlertReport(id, alert))
  }

  /** Attaching reports keeps every report or promotes it from New to Pending. */
  lemma ReportsAddedKeepOrPromote(s: Store, ids: set<ReportId>, alert: AlertId)
    ensures var t := WithReportsAdded(s, ids, alert);
            forall id :: id in s.reports ==> KeptOrPromoted(s.reports[id], t.reports[id])
  {
  }

  /** One step of `AddReportsToAlert`: a row for report `id`, which becomes Pending if it was New. */
  function WithReportAdded(s: Store, id: ReportId, alert: AlertId): Store {
    s.(reports := if id in s.reports then s.reports[id := Promote(s.reports[id])] else s.reports,
       alertReports := s.alertReports + {AlertReport(id, alert)})
  }

  /** `IncludeAllReportsWithLabelInExistingAlert`, once `existing` has been found. */
  function WithLabelSwept(s: Store, groupLabel: Label, existing: AlertId): Store {
    WithReportsAdded(s, ReportsWithNoActiveAlert(s, groupLabel), existing)
  }

  /** `CreateNewAlert` then `AddReportsToAlert` with every active report carrying `groupLabel`. */
  function WithNewAlert(s: Store, groupLabel: Label, id: AlertId, healthRisk: HealthRiskId, now: int): Store {
    WithReportsAdded(s.(alerts := s.alerts[id := Alert(healthRisk, now, AlertStatus.Pending)]),
                     ActiveReportsWithLabel(s, groupLabel), id)
  }

  /** The labels the labeling service wrote; reports it does not name keep theirs. */
  function WithLabels(s: Store, labels: map<ReportId, Label>): (t: Store)
    ensures t.alerts == s.alerts && t.alertReports == s.alertReports && t.rules == s.rules
    ensures t.reports.Keys == s.reports.Keys
    ensures forall id :: id in s.reports ==>
              t.reports[id] == s.reports[id].(groupLabel := if id in labels then labels[id] else s.reports[id].groupLabel)
  {
    s.(reports := map id | id in s.reports :: if id in labels then s.reports[id].(groupLabel := labels[id]) else s.reports[id])
  }

  /** The reports alert `a` has rows for. */
  function Members(s: Store, a: AlertId): set<ReportId> {
    set ar | ar in s.alertReports && ar.alertId == a :: ar.reportId
  }

  // ------------------------------------------------------- report added

  /** The store once the labeling service has labeled the reports around report `id`. */
  function LabeledOnReportAdded(s: Store, id: ReportId, labeling: Labeling): Store
    requires id in s.reports
  {
    WithLabels(s, labeling(ResolveLabelsOnReportAdded(id, s.reports[id].healthRisk)))
  }

  /**
   * `HandleAlerts` for a report with `groupLabel`: join an existing active
   * alert (`existing`, as the query returns it), or else create alert
   * `newId` when enough active reports carry the label. The second
   * component is the alert returned to the caller.
   */
  function HandleAlerts(s: Store, groupLabel: Label, countThreshold: int, healthRisk: HealthRiskId,
                        now: int, existing: AlertId, newId: AlertId): (r: (Store, Option<AlertId>))
    ensures r.1.Some? <==> CoveringAlerts(s, groupLabel) == {} && |ActiveReportsWithLabel(s, groupLabel)| >= countThreshold
    ensures r.1.Some? ==> r.1.value == newId && newId in r.0.alerts && r.0.alerts[newId].status == AlertStatus.Pending
    ensures r.0.rules == s.rules && r.0.reports.Keys == s.reports.Keys && s.alertReports <= r.0.alertReports
    ensures r.1.None? ==> r.0.alerts == s.alerts
    ensures forall id :: id in s.reports ==> KeptOrPromoted(s.reports[id], r.0.reports[id])
  {
    if CoveringAlerts(s, groupLabel) != {} then
      ReportsAddedKeepOrPromote(s, ReportsWithNoActiveAlert(s, groupLabel), existing);
      (WithLabelSwept(s, groupLabel, existing), None)
    else if |ActiveReportsWithLabel(s, groupLabel)| >= countThreshold then
      ReportsAddedKeepOrPromote(s.(alerts := s.alerts[newId := Alert(healthRisk, now, AlertStatus.Pending)]),
                                ActiveReportsWithLabel(s, groupLabel), newId);
      (WithNewAlert(s, groupLabel, newId, healthRisk, now), Some(newId))
    else (s, None)
  }

  /** `ReportAdded`: label the report, then handle alerts for its label; non-single reports are ignored. */
  function ReportAdded(s: Store, id: ReportId, labeling: Labeling, now: int,
                       existing: AlertId, newId: AlertId): (r: (Store, Option<AlertId>))
    requires id in s.reports && s.reports[id].healthRisk in s.rules
    ensures s.reports[id].reportType != Single ==> r == (s, None)
    ensures r.0.rules == s.rules && r.0.reports.Keys == s.reports.Keys && s.alertReports <= r.0.alertReports
    ensures r.1.Some? ==> r.1.value == newId && newId in r.0.alerts && r.0.alerts[newId].status == AlertStatus.Pending
    ensures r.1.None? ==> r.0.alerts == s.alerts
  {
    var report := s.reports[id];
    if report.reportType != Single then (s, None)
    else
      var labeled := LabeledOnReportAdded(s, id, labeling);
      HandleAlerts(labeled, labeled.reports[id].groupLabel, s.rules[report.healthRisk].countThreshold,
                   report.healthRisk, now, existing, newId)
  }

  // ------------------------------------------------------ building blocks

  /** `t` differs from `s` only by added rows and reports promoted from New to Pending. */
  ghost predicate Extends(s: Store, t: Store) {
    && t.alerts == s.alerts && t.rules == s.rules && t.reports.Keys == s.reports.Keys
    && s.alertReports <= t.alertReports
    && (forall id :: id in s.reports ==>
          && t.reports[id].groupLabel == s.reports[id].groupLabel
          && t.reports[id].healthRisk == s.reports[id].healthRisk
          && (t.reports[id].status == s.reports[id].status
              || (s.reports[id].status == ReportStatus.New && t.reports[id].status == ReportStatus.Pending))
          && (IsActiveReport(t.reports[id]) <==> IsActiveReport(s.reports[id])))
  }

  lemma ExtendsTransitive(s: Store, t: Store, u: Store)
    requires Extends(s, t) && Extends(t, u)
    ensures Extends(s, u)
  {
  }

  /** Extending a store keeps each label's active reports and only adds alerts to reports and labels. */
  lemma ExtendsKeepsQueries(s: Store, t: Store)
    requires Extends(s, t)
    ensures forall l :: ActiveReportsWithLabel(t, l) == ActiveReportsWithLabel(s, l)
    ensures forall id :: ActiveAlertsOf(s, id) <= ActiveAlertsOf(t, id)
    ensures forall l :: CoveringAlerts(s, l) <= CoveringAlerts(t, l)
  {
    forall l ensures ActiveReportsWithLabel(t, l) == ActiveReportsWithLabel(s, l) {
    }
    forall id ensures ActiveAlertsOf(s, id) <= ActiveAlertsOf(t, id) {
      forall a | a in ActiveAlertsOf(s, id) ensures a in ActiveAlertsOf(t, id) {
        var ar :| ar in s.alertReports && ar.reportId == id && ar.alertId in s.alerts
                  && IsActiveAlert(s.alerts[ar.alertId]) && ar.alertId == a;
        assert ar in t.alertReports;
      }
    }
    forall l ensures CoveringAlerts(s, l) <= CoveringAlerts(t, l) {
      forall a | a in CoveringAlerts(s, l) ensures a in CoveringAlerts(t, l) {
        var ar :| ar in s.alertReports && ar.reportId in ActiveReportsWithLabel(s, l)
                  && ar.alertId in s.alerts && IsActiveAlert(s.alerts[ar.alertId]) && ar.alertId == a;
        assert ar in t.alertReports;
      }
    }
  }

  /** A covering alert is an active alert of the store. */
  lemma CoveringAlertIsActive(s: Store, groupLabel: Label, a: AlertId)
    requires a in CoveringAlerts(s, groupLabel)
    ensures a in s.alerts && IsActiveAlert(s.alerts[a])
  {
  }

  /** With no covering alert, no active report of the label belongs to an active alert. */
  lemma UncoveredLabelHasNoAttachedReport(s: Store, groupLabel: Label, id: ReportId)
    requires CoveringAlerts(s, groupLabel) == {} && id in ActiveReportsWithLabel(s, groupLabel)
    ensures ActiveAlertsOf(s, id) == {}
  {
    ActiveAlertsOfLabelAreCovering(s, groupLabel, id);
  }

  /** The active alerts of an active report with `groupLabel` cover that label. */
  lemma ActiveAlertsOfLabelAreCovering(s: Store, groupLabel: Label, id: ReportId)
    requires id in ActiveReportsWithLabel(s, groupLabel)
    ensures ActiveAlertsOf(s, id) <= CoveringAlerts(s, groupLabel)
  {
    forall a | a in ActiveAlertsOf(s, id) ensures a in CoveringAlerts(s, groupLabel) {
      var ar :| ar in s.alertReports && ar.reportId == id && ar.alertId in s.alerts
                && IsActiveAlert(s.alerts[ar.alertId]) && ar.alertId == a;
    }
  }

  /** Adding rows to `alert` adds it, and nothing else, to the active alerts of the given reports. */
  lemma ActiveAlertsAfterAdding(s: Store, ids: set<ReportId>, alert: AlertId, id: ReportId)
    ensures ActiveAlertsOf(WithReportsAdded(s, ids, alert), id)
         == ActiveAlertsOf(s, id) + (if id in ids && alert in s.alerts && IsActiveAlert(s.alerts[alert]) then {alert} else {})
  {
    var t := WithReportsAdded(s, ids, alert);
    if id in ids && alert in s.alerts && IsActiveAlert(s.alerts[alert]) {
      assert AlertReport(id, alert) in t.alertReports;
    }
  }

  /** Relabeling changes no membership and no alert. */
  lemma ActiveAlertsAfterLabeling(s: Store, labels: map<ReportId, Label>, id: ReportId)
    ensures ActiveAlertsOf(WithLabels(s, labels), id) == ActiveAlertsOf(s, id)
  {
  }

  /**
   * The sweep of `IncludeAllReportsWithLabelInExistingAlert`: afterwards
   * every active report carrying the label belongs to an active alert, and
   * the reports that belonged to none now belong to `existing` alone.
   */
  lemma {:induction false} SweepAttachesEveryActiveReport(s: Store, groupLabel: Label, existing: AlertId)
    requires IsPreferredAlert(s, groupLabel, existing)
    ensures Extends(s, WithLabelSwept(s, groupLabel, existing))
    ensures var t := WithLabelSwept(s, groupLabel, existing);
            forall id :: id in ActiveReportsWithLabel(t, groupLabel) ==> ActiveAlertsOf(t, id) != {}
    ensures var t := WithLabelSwept(s, groupLabel, existing);
            forall id :: id in ReportsWithNoActiveAlert(s, groupLabel) ==> ActiveAlertsOf(t, id) == {existing}
    ensures var t := WithLabelSwept(s, groupLabel, existing);
            forall id :: id !in ReportsWithNoActiveAlert(s, groupLabel) ==> ActiveAlertsOf(t, id) == ActiveAlertsOf(s, id)
  {
    var ids := ReportsWithNoActiveAlert(s, groupLabel);
    var t := WithLabelSwept(s, groupLabel, existing);
    CoveringAlertIsActive(s, groupLabel, existing);
    ExtendsKeepsQueries(s, t);
    forall id ensures ActiveAlertsOf(t, id) == ActiveAlertsOf(s, id) + (if id in ids then {existing} else {}) {
      ActiveAlertsAfterAdding(s, ids, existing, id);
    }
  }

  /**
   * `CreateNewAlert` followed by `AddReportsToAlert`: the new alert is
   * Pending, its members are exactly the label's active reports, and each
   * of them belongs to it.
   */
  lemma {:induction false} NewAlertAttachesEveryActiveReport(s: Store, groupLabel: Label, newId: AlertId,
                                                             healthRisk: HealthRiskId, now: int)
    requires Consistent(s) && newId !in s.alerts
    ensures var t := WithNewAlert(s, groupLabel, newId, healthRisk, now);
            && t.alerts == s.alerts[newId := Alert(healthRisk, now, AlertStatus.Pending)]
            && Members(t, newId) == ActiveReportsWithLabel(s, groupLabel)
            && (forall id :: ActiveAlertsOf(t, id)
                 == ActiveAlertsOf(s, id) + (if id in ActiveReportsWithLabel(s, groupLabel) then {newId} else {}))
  {
    var s0 := s.(alerts := s.alerts[newId := Alert(healthRisk, now, AlertStatus.Pending)]);
    var ids := ActiveReportsWithLabel(s, groupLabel);
    var t := WithNewAlert(s, groupLabel, newId, healthRisk, now);
    forall id ensures ActiveAlertsOf(s0, id) == ActiveAlertsOf(s, id) {
      forall ar | ar in s.alertReports ensures ar.alertId != newId {
      }
    }
    forall id ensures ActiveAlertsOf(t, id) == ActiveAlertsOf(s, id) + (if id in ids then {newId} else {}) {
      ActiveAlertsAfterAdding(s0, ids, newId, id);
    }
    assert Members(s0, newId) == {};
  }

  // ----------------------------------------------- report added: results

  /**
   * What `ReportAdded` promises. A non-single report changes nothing and
   * raises nothing. Otherwise, after labeling: when an active alert already
   * covers the report's label, that alert absorbs every active report of the
   * label that had no active alert, and no alert is returned; when none does,
   * a new Pending alert is returned exactly when the label has at least
   * CountThreshold active reports, and its members are exactly those
   * reports; below the threshold only the labels change. No report changes
   * otherwise than by its new label and a promotion from New to Pending.
   */
  lemma {:induction false} ReportAddedOutcome(s: Store, id: ReportId, labeling: Labeling, now: int,
                                              existing: AlertId, newId: AlertId)
    requires Consistent(s) && id in s.reports && newId !in s.alerts
    requires var l := LabeledOnReportAdded(s, id, labeling);
             CoveringAlerts(l, l.reports[id].groupLabel) != {} ==> IsPreferredAlert(l, l.reports[id].groupLabel, existing)
    ensures s.reports[id].reportType != Single ==> ReportAdded(s, id, labeling, now, existing, newId) == (s, None)
    ensures s.reports[id].reportType == Single ==>
      var l := LabeledOnReportAdded(s, id, labeling);
      var groupLabel := l.reports[id].groupLabel;
      var threshold := s.rules[s.reports[id].healthRisk].countThreshold;
      var count := |ActiveReportsWithLabel(l, groupLabel)|;
      var (t, raised) := ReportAdded(s, id, labeling, now, existing, newId);
      && (raised.Some? <==> CoveringAlerts(l, groupLabel) == {} && count >= threshold)
      && (raised.Some? ==> && raised.value == newId && newId in t.alerts
                           && t.alerts[newId].status == AlertStatus.Pending
                           && Members(t, newId) == ActiveReportsWithLabel(l, groupLabel))
      && (CoveringAlerts(l, groupLabel) != {} ==>
            t.alerts == s.alerts && Members(t, existing) == Members(l, existing) + ReportsWithNoActiveAlert(l, groupLabel))
      && (CoveringAlerts(l, groupLabel) != {} || count >= threshold ==>
            forall r :: r in ActiveReportsWithLabel(t, groupLabel) ==> ActiveAlertsOf(t, r) != {})
      && (CoveringAlerts(l, groupLabel) == {} && count < threshold ==> t == l)
      && (forall r :: r in s.reports ==> KeptOrPromoted(s.reports[r].(groupLabel := l.reports[r].groupLabel), t.reports[r]))
  {
    if s.reports[id].reportType == Single {
      var l := LabeledOnReportAdded(s, id, labeling);
      var groupLabel := l.reports[id].groupLabel;
      var hr := s.reports[id].healthRisk;
      var t := ReportAdded(s, id, labeling, now, existing, newId).0;
      assert Consistent(l);
      if CoveringAlerts(l, groupLabel) != {} {
        SweepAttachesEveryActiveReport(l, groupLabel, existing);
        var added := ReportsWithNoActiveAlert(l, groupLabel);
        assert Members(t, existing) == Members(l, existing) + added by {
          assert t.alertReports == l.alertReports + set r | r in added :: AlertReport(r, existing);
        }
      } else if |ActiveReportsWithLabel(l, groupLabel)| >= s.rules[hr].countThreshold {
        NewAlertAttachesEveryActiveReport(l, groupLabel, newId, hr, now);
        var withAlert := l.(alerts := l.alerts[newId := Alert(hr, now, AlertStatus.Pending)]);
        assert Extends(withAlert, t);
        ExtendsKeepsQueries(withAlert, t);
        assert ActiveReportsWithLabel(withAlert, groupLabel) == ActiveReportsWithLabel(l, groupLabel);
      }
    }
  }

  /** Relabeling keeps both invariants. */
  lemma LabelingKeepsInvariants(s: Store, labels: map<ReportId, Label>)
    requires Consistent(s) && AtMostOneActiveAlert(s)
    ensures Consistent(WithLabels(s, labels)) && AtMostOneActiveAlert(WithLabels(s, labels))
  {
    forall r ensures ActiveAlertsOf(WithLabels(s, labels), r) == ActiveAlertsOf(s, r) {
      ActiveAlertsAfterLabeling(s, labels, r);
    }
  }

  /** The sweep only gives an active alert to reports that had none, so both invariants hold after it. */
  lemma SweepKeepsInvariants(s: Store, groupLabel: Label, existing: AlertId)
    requires Consistent(s) && AtMostOneActiveAlert(s) && IsPreferredAlert(s, groupLabel, existing)
    ensures Consistent(WithLabelSwept(s, groupLabel, existing))
    ensures AtMostOneActiveAlert(WithLabelSwept(s, groupLabel, existing))
  {
    var t := WithLabelSwept(s, groupLabel, existing);
    SweepAttachesEveryActiveReport(s, groupLabel, existing);
    forall r ensures |ActiveAlertsOf(t, r)| <= 1 {
      if r in ReportsWithNoActiveAlert(s, groupLabel) {
        assert ActiveAlertsOf(t, r) == {existing};
      }
    }
  }

  /** A new alert takes only reports of an uncovered label, so both invariants hold after it. */
  lemma NewAlertKeepsInvariants(s: Store, groupLabel: Label, newId: AlertId, healthRisk: HealthRiskId, now: int)
    requires Consistent(s) && AtMostOneActiveAlert(s) && newId !in s.alerts
    requires CoveringAlerts(s, groupLabel) == {}
    ensures Consistent(WithNewAlert(s, groupLabel, newId, healthRisk, now))
    ensures AtMostOneActiveAlert(WithNewAlert(s, groupLabel, newId, healthRisk, now))
  {
    var t := WithNewAlert(s, groupLabel, newId, healthRisk, now);
    NewAlertAttachesEveryActiveReport(s, groupLabel, newId, healthRisk, now);
    forall r ensures |ActiveAlertsOf(t, r)| <= 1 {
      if r in ActiveReportsWithLabel(s, groupLabel) {
        UncoveredLabelHasNoAttachedReport(s, groupLabel, r);
        assert ActiveAlertsOf(t, r) == {newId};
      }
    }
  }

  /** Consistency and "no report in two active alerts" survive `ReportAdded`. */
  lemma {:induction false} ReportAddedKeepsInvariants(s: Store, id: ReportId, labeling: Labeling, now: int,
                                                      existing: AlertId, newId: AlertId)
    requires Consistent(s) && AtMostOneActiveAlert(s) && id in s.reports && newId !in s.alerts
    requires var l := LabeledOnReportAdded(s, id, labeling);
             CoveringAlerts(l, l.reports[id].groupLabel) != {} ==> IsPreferredAlert(l, l.reports[id].groupLabel, existing)
    ensures var t := ReportAdded(s, id, labeling, now, existing, newId).0;
            Consistent(t) && AtMostOneActiveAlert(t)
  {
    if s.reports[id].reportType == Single {
      var hr := s.reports[id].healthRisk;
      var l := LabeledOnReportAdded(s, id, labeling);
      var groupLabel := l.reports[id].groupLabel;
      LabelingKeepsInvariants(s, labeling(ResolveLabelsOnReportAdded(id, hr)));
      if CoveringAlerts(l, groupLabel) != {} {
        SweepKeepsInvariants(l, groupLabel, existing);
      } else if |ActiveReportsWithLabel(l, groupLabel)| >= s.rules[hr].countThreshold {
        NewAlertKeepsInvariants(l, groupLabel, newId, hr, now);
      }
    }
  }

  // ---------------------------------------------------- report dismissed

  /** What makes `ReportDismissed` throw; an exception rolls the whole dismissal back. */
  datatype DismissError =
    | MoreThanOneInspectedAlert  // `SingleOrDefaultAsync` finds several rows
    | ReportNotFound             // `SingleAsync` finds no report
    | NoAlertRule                // the report's health risk has no rule
    | NoKilometersThreshold      // `.Value` on a null distance threshold

  /** The rows linking report `id` to a Pending or Dismissed alert. */
  function InspectedRows(s: Store, id: ReportId): set<AlertReport> {
    set ar | ar in s.alertReports && ar.reportId == id && ar.alertId in s.alerts
             && (s.alerts[ar.alertId].status == AlertStatus.Pending || s.alerts[ar.alertId].status == AlertStatus.Dismissed)
  }

  /** A C# `int` result: the value wrapped around into the signed 32-bit range. */
  function WrapInt32(x: int): (r: int)
    ensures -0x8000_0000 <= r < 0x8000_0000
    ensures (x - r) % 0x1_0000_0000 == 0
    ensures -0x8000_0000 <= x < 0x8000_0000 ==> r == x
  {
    var m := x % 0x1_0000_0000;
    if m >= 0x8000_0000 then m - 0x1_0000_0000 else m
  }

  /** The distance handed to the relabeling: twice the kilometer threshold, in meters, in C# `int` arithmetic. */
  function RelabelMeters(km: int): (meters: int)
    ensures -0x8000_0000 <= meters < 0x8000_0000
    ensures (meters - km * 2000) % 0x1_0000_0000 == 0
    ensures -1_073_741 <= km <= 1_073_741 ==> meters == km * 2000
  {
    var once := WrapInt32(km * 1000);
    assert (once * 2 - km * 2000) % 0x1_0000_0000 == 0 by {
      var k := (km * 1000 - once) / 0x1_0000_0000;
      assert km * 1000 - once == k * 0x1_0000_0000;
      assert km * 2000 - once * 2 == (2 * k) * 0x1_0000_0000;
    }
    WrapInt32(once * 2)
  }

  /** The report's status becomes Rejected. */
  function WithReportRejected(s: Store, id: ReportId): Store
    requires id in s.reports
  {
    s.(reports := s.reports[id := s.reports[id].(status := ReportStatus.Rejected)])
  }

  /** A Pending alert becomes Rejected; an alert in any other status is left alone. */
  function WithAlertRejected(s: Store, alert: AlertId): Store {
    if alert in s.alerts && s.alerts[alert].status == AlertStatus.Pending
    then s.(alerts := s.alerts[alert := s.alerts[alert].(status := AlertStatus.Rejected)])
    else s
  }

  /**
   * The branch for rules with a count threshold of one: a Pending report
   * becomes Rejected and a Pending alert becomes Rejected.
   */
  function FastPathDismissed(s: Store, id: ReportId, alert: AlertId): Store
    requires id in s.reports
  {
    WithAlertRejected(if s.reports[id].status == ReportStatus.Pending then WithReportRejected(s, id) else s, alert)
  }

  /** The report is rejected, then its old group is relabeled with twice the distance threshold `km`. */
  function RejectedAndRelabeled(s: Store, id: ReportId, km: int, labeling: Labeling): Store
    requires id in s.reports
  {
    WithLabels(WithReportRejected(s, id),
               labeling(CalculateNewLabelsInLabelGroup(s.reports[id].groupLabel, RelabelMeters(km))))
  }

  /** The labels of a set of reports: the keys of `GroupBy(r => r.ReportGroupLabel)`. */
  function GroupLabels(s: Store, members: set<ReportId>): set<Label> {
    set r | r in members && r in s.reports :: s.reports[r].groupLabel
  }

  /** The reports of `members` carrying `groupLabel`: one group of the `GroupBy`. */
  function GroupOf(s: Store, members: set<ReportId>, groupLabel: Label): set<ReportId> {
    set r | r in members && r in s.reports && s.reports[r].groupLabel == groupLabel
  }

  /** Some group of `members` counts at least `threshold` reports, whatever their status. */
  predicate SomeGroupMeetsThreshold(s: Store, members: set<ReportId>, threshold: int) {
    exists g | g in GroupLabels(s, members) :: |GroupOf(s, members, g)| >= threshold
  }

  /** One pass of the re-sweep loop: the label, and the alert the existing-alert query returns for it. */
  datatype SweepStep = SweepStep(groupLabel: Label, existing: AlertId)

  /** `IncludeAllReportsWithLabelInExistingAlert` when its result is discarded. */
  function SweepLabel(s: Store, groupLabel: Label, existing: AlertId): Store {
    if CoveringAlerts(s, groupLabel) != {} then WithLabelSwept(s, groupLabel, existing) else s
  }

  /** The store after the sweeps `steps`, taken in order. */
  function AfterSweeps(s: Store, steps: seq<SweepStep>): Store
    decreases |steps|
  {
    if steps == [] then s
    else
      var last := steps[|steps| - 1];
      SweepLabel(AfterSweeps(s, steps[..|steps| - 1]), last.groupLabel, last.existing)
  }

  /** Sweeps create no alert, report or rule, remove no row, and touch only New reports. */
  lemma {:induction false} AfterSweepsFrame(s: Store, steps: seq<SweepStep>)
    ensures var t := AfterSweeps(s, steps);
      && t.alerts == s.alerts && t.rules == s.rules && t.reports.Keys == s.reports.Keys
      && s.alertReports <= t.alertReports
      && forall id :: id in s.reports ==> KeptOrPromoted(s.reports[id], t.reports[id])
    decreases |steps|
  {
    if steps != [] {
      var u, last := AfterSweeps(s, steps[..|steps| - 1]), steps[|steps| - 1];
      AfterSweepsFrame(s, steps[..|steps| - 1]);
      ReportsAddedKeepOrPromote(u, ReportsWithNoActiveAlert(u, last.groupLabel), last.existing);
    }
  }

  /** The step's alert is one the existing-alert query may return, whenever the label is covered. */
  predicate ProperChoice(s: Store, step: SweepStep) {
    CoveringAlerts(s, step.groupLabel) != {} ==> IsPreferredAlert(s, step.groupLabel, step.existing)
  }

  /** Every step chooses properly in the store it is taken in. */
  ghost predicate ProperChoices(s: Store, steps: seq<SweepStep>) {
    forall i :: 0 <= i < |steps| ==> ProperChoice(AfterSweeps(s, steps[..i]), steps[i])
  }

  /** The steps visit each label of `groupLabels` outside `remaining` exactly once, and no other label. */
  ghost predicate VisitsOnce(steps: seq<SweepStep>, groupLabels: set<Label>, remaining: set<Label>) {
    && (forall i, j :: 0 <= i < j < |steps| ==> steps[i].groupLabel != steps[j].groupLabel)
    && (forall i :: 0 <= i < |steps| ==> steps[i].groupLabel in groupLabels && steps[i].groupLabel !in remaining)
    && (forall g :: g in groupLabels && g !in remaining ==> exists i :: 0 <= i < |steps| && steps[i].groupLabel == g)
  }

  /** The steps visit each of `groupLabels` exactly once, and choose properly. */
  ghost predicate ProperSweeps(s: Store, steps: seq<SweepStep>, groupLabels: set<Label>) {
    VisitsOnce(steps, groupLabels, {}) && ProperChoices(s, steps)
  }

  /**
   * The path for rules with a count threshold above one, on report `id` of
   * inspected alert `alert`: reject the report, relabel its group with twice
   * the distance threshold, and, when no label group of the alert's other
   * members reaches the count threshold, demote a Pending alert and sweep
   * each of those labels into an existing active alert.
   */
  function GeneralPathDismissed(s: Store, id: ReportId, alert: AlertId, rule: AlertRule,
                                labeling: Labeling, steps: seq<SweepStep>): (r: Result<Store, DismissError>)
    requires id in s.reports
    ensures r.Err? <==> rule.kilometersThreshold.None?
    ensures r.Ok? ==> && r.value.rules == s.rules && r.value.alerts.Keys == s.alerts.Keys
                      && r.value.reports.Keys == s.reports.Keys && s.alertReports <= r.value.alertReports
                      && r.value.reports[id].status == ReportStatus.Rejected
  {
    if rule.kilometersThreshold.None? then Err(NoKilometersThreshold)
    else
      var relabeled := RejectedAndRelabeled(s, id, rule.kilometersThreshold.value, labeling);
      if SomeGroupMeetsThreshold(relabeled, Members(relabeled, alert) - {id}, rule.countThreshold) then Ok(relabeled)
      else
        AfterSweepsFrame(WithAlertRejected(relabeled, alert), steps);
        Ok(AfterSweeps(WithAlertRejected(relabeled, alert), steps))
  }

  /**
   * `ReportDismissed(id)`, with the fast path's transaction either completed
   * (`fastPathCompletes`) or rolled back. No inspected alert: nothing changes.
   * An error: nothing changes either, as the transaction is rolled back.
   */
  ghost function Dismissal(s: Store, id: ReportId, labeling: Labeling, steps: seq<SweepStep>,
                           fastPathCompletes: bool): (r: Result<Store, DismissError>)
    ensures r.Ok? ==> && r.value.rules == s.rules && r.value.alerts.Keys == s.alerts.Keys
                      && r.value.reports.Keys == s.reports.Keys && s.alertReports <= r.value.alertReports
    ensures r.Err? ==> InspectedRows(s, id) != {}
  {
    var rows := InspectedRows(s, id);
    if rows == {} then Ok(s)
    else if |rows| > 1 then Err(MoreThanOneInspectedAlert)
    else if id !in s.reports then Err(ReportNotFound)
    else if s.reports[id].healthRisk !in s.rules then Err(NoAlertRule)
    else
      var ar :| ar in rows;
      var rule := s.rules[s.reports[id].healthRisk];
      if rule.countThreshold == 1 then Ok(if fastPathCompletes then FastPathDismissed(s, id, ar.alertId) else s)
      else GeneralPathDismissed(s, id, ar.alertId, rule, labeling, steps)
  }

  /** `ReportDismissed` as the code is written: the fast path returns before completing its transaction. */
  ghost function ReportDismissedAsWritten(s: Store, id: ReportId, labeling: Labeling, steps: seq<SweepStep>): (r: Result<Store, DismissError>)
    ensures (|InspectedRows(s, id)| == 1 && id in s.reports && s.reports[id].healthRisk in s.rules
             && s.rules[s.reports[id].healthRisk].countThreshold == 1) ==> r == Ok(s)
  {
    Dismissal(s, id, labeling, steps, false)
  }

  /** `ReportDismissed` as intended: every path that does not throw commits. */
  ghost function ReportDismissed(s: Store, id: ReportId, labeling: Labeling, steps: seq<SweepStep>): (r: Result<Store, DismissError>)
    ensures r.Ok? && |InspectedRows(s, id)| == 1 && id in s.reports && s.reports[id].status == ReportStatus.Pending ==>
              id in r.value.reports && r.value.reports[id].status == ReportStatus.Rejected
  {
    Dismissal(s, id, labeling, steps, true)
  }

  // ------------------------------------------- report dismissed: results

  /** Every active report carrying `groupLabel` belongs to an active alert. */
  ghost predicate LabelAttached(s: Store, groupLabel: Label) {
    forall id :: id in ActiveReportsWithLabel(s, groupLabel) ==> ActiveAlertsOf(s, id) != {}
  }

  /** Adding rows and promoting reports never detaches a report. */
  lemma ExtendsKeepsAttached(s: Store, t: Store, groupLabel: Label)
    requires Extends(s, t) && LabelAttached(s, groupLabel)
    ensures LabelAttached(t, groupLabel)
  {
    ExtendsKeepsQueries(s, t);
  }

  /** One sweep step only adds rows, keeps both invariants, and attaches its label when it is covered. */
  lemma SweepLabelOutcome(s: Store, step: SweepStep)
    requires ProperChoice(s, step)
    ensures Extends(s, SweepLabel(s, step.groupLabel, step.existing))
    ensures CoveringAlerts(s, step.groupLabel) != {} ==> LabelAttached(SweepLabel(s, step.groupLabel, step.existing), step.groupLabel)
    ensures Consistent(s) && AtMostOneActiveAlert(s) ==>
              var t := SweepLabel(s, step.groupLabel, step.existing);
              Consistent(t) && AtMostOneActiveAlert(t)
  {
    if CoveringAlerts(s, step.groupLabel) != {} {
      SweepAttachesEveryActiveReport(s, step.groupLabel, step.existing);
      if Consistent(s) && AtMostOneActiveAlert(s) {
        SweepKeepsInvariants(s, step.groupLabel, step.existing);
      }
    }
  }

  /** A prefix of properly chosen steps is properly chosen. */
  lemma ProperChoicesPrefix(s: Store, steps: seq<SweepStep>, k: nat)
    requires ProperChoices(s, steps) && k <= |steps|
    ensures ProperChoices(s, steps[..k])
  {
    forall i | 0 <= i < k ensures ProperChoice(AfterSweeps(s, steps[..k][..i]), steps[..k][i]) {
      assert steps[..k][..i] == steps[..i];
    }
  }

  /**
   * The re-sweep loop only adds rows and promotes reports, keeps both
   * invariants, and leaves every label that was covered before it fully
   * attached.
   */
  lemma {:induction false} SweepsOutcome(s: Store, steps: seq<SweepStep>)
    requires ProperChoices(s, steps)
    ensures Extends(s, AfterSweeps(s, steps))
    ensures Consistent(s) && AtMostOneActiveAlert(s) ==>
              Consistent(AfterSweeps(s, steps)) && AtMostOneActiveAlert(AfterSweeps(s, steps))
    ensures forall i :: 0 <= i < |steps| && CoveringAlerts(s, steps[i].groupLabel) != {} ==>
              LabelAttached(AfterSweeps(s, steps), steps[i].groupLabel)
    decreases |steps|
  {
    if steps != [] {
      var n := |steps| - 1;
      var init := steps[..n];
      ProperChoicesPrefix(s, steps, n);
      SweepsOutcome(s, init);
      var u := AfterSweeps(s, init);
      var t := AfterSweeps(s, steps);
      assert ProperChoice(u, steps[n]);
      SweepLabelOutcome(u, steps[n]);
      assert t == SweepLabel(u, steps[n].groupLabel, steps[n].existing);
      ExtendsTransitive(s, u, t);
      ExtendsKeepsQueries(s, u);
      forall i | 0 <= i < |steps| && CoveringAlerts(s, steps[i].groupLabel) != {}
        ensures LabelAttached(t, steps[i].groupLabel)
      {
        if i < n {
          assert init[i] == steps[i];
          ExtendsKeepsAttached(u, t, steps[i].groupLabel);
        } else {
          assert CoveringAlerts(s, steps[n].groupLabel) <= CoveringAlerts(u, steps[n].groupLabel);
        }
      }
    }
  }

  /** Rejecting a report or demoting an alert keeps both invariants. */
  lemma RejectionsKeepInvariants(s: Store, id: ReportId, alert: AlertId)
    requires Consistent(s) && AtMostOneActiveAlert(s) && id in s.reports
    ensures Consistent(WithReportRejected(s, id)) && AtMostOneActiveAlert(WithReportRejected(s, id))
    ensures Consistent(WithAlertRejected(s, alert)) && AtMostOneActiveAlert(WithAlertRejected(s, alert))
  {
    var r := WithReportRejected(s, id);
    var d := WithAlertRejected(s, alert);
    forall x ensures ActiveAlertsOf(r, x) == ActiveAlertsOf(s, x) && ActiveAlertsOf(d, x) <= ActiveAlertsOf(s, x) {
      assert ActiveAlertsOf(d, x) <= ActiveAlertsOf(s, x);
    }
    forall x ensures |ActiveAlertsOf(d, x)| <= 1 {
      SubsetCardinality(ActiveAlertsOf(d, x), ActiveAlertsOf(s, x));
    }
  }

  lemma SubsetCardinality<T>(a: set<T>, b: set<T>)
    requires a <= b
    ensures |a| <= |b|
  {
    assert b == a + (b - a);
  }

  /**
   * The fast path (as intended, committed): the report is Rejected exactly
   * when it was Pending or already Rejected, the alert is Rejected exactly
   * when it was Pending, nothing else changes, and both invariants hold.
   */
  lemma FastPathOutcome(s: Store, id: ReportId, alert: AlertId)
    requires id in s.reports && alert in s.alerts
    ensures var t := FastPathDismissed(s, id, alert);
      && t.alertReports == s.alertReports && t.rules == s.rules
      && t.reports.Keys == s.reports.Keys && t.alerts.Keys == s.alerts.Keys
      && (t.reports[id].status == ReportStatus.Rejected <==> s.reports[id].status == ReportStatus.Pending || s.reports[id].status == ReportStatus.Rejected)
      && t.reports[id] == s.reports[id].(status := t.reports[id].status)
      && t.alerts[alert] == s.alerts[alert].(status := t.alerts[alert].status)
      && (t.reports[id].status != ReportStatus.Rejected ==> t.reports[id] == s.reports[id])
      && (t.alerts[alert].status == AlertStatus.Rejected <==> s.alerts[alert].status == AlertStatus.Pending || s.alerts[alert].status == AlertStatus.Rejected)
      && (forall r :: r in s.reports && r != id ==> t.reports[r] == s.reports[r])
      && (forall a :: a in s.alerts && a != alert ==> t.alerts[a] == s.alerts[a])
      && (Consistent(s) && AtMostOneActiveAlert(s) ==> Consistent(t) && AtMostOneActiveAlert(t))
  {
    var r := if s.reports[id].status == ReportStatus.Pending then WithReportRejected(s, id) else s;
    if Consistent(s) && AtMostOneActiveAlert(s) {
      RejectionsKeepInvariants(s, id, alert);
      RejectionsKeepInvariants(r, id, alert);
    }
  }

  /**
   * The general path, once the distance threshold is known: the report is
   * Rejected; the inspected alert is Rejected exactly when it was Pending and
   * no label group of the other members reaches the count threshold; no
   * other alert changes and no row is removed; when no group reaches the
   * threshold, every group label that some active alert covers ends fully
   * attached to active alerts; when one does, no row is added. Every other
   * report changes only by its new label and a promotion from New to Pending.
   */
  lemma GeneralPathOutcome(s: Store, id: ReportId, alert: AlertId, rule: AlertRule,
                           labeling: Labeling, steps: seq<SweepStep>)
    requires id in s.reports && alert in s.alerts && rule.kilometersThreshold.Some?
    requires var l := RejectedAndRelabeled(s, id, rule.kilometersThreshold.value, labeling);
             !SomeGroupMeetsThreshold(l, Members(l, alert) - {id}, rule.countThreshold) ==>
               ProperSweeps(WithAlertRejected(l, alert), steps, GroupLabels(l, Members(l, alert) - {id}))
    ensures GeneralPathDismissed(s, id, alert, rule, labeling, steps).Ok?
    ensures var l := RejectedAndRelabeled(s, id, rule.kilometersThreshold.value, labeling);
      var others := Members(l, alert) - {id};
      var demote := !SomeGroupMeetsThreshold(l, others, rule.countThreshold);
      var t := GeneralPathDismissed(s, id, alert, rule, labeling, steps).value;
      && id in t.reports && t.reports[id].status == ReportStatus.Rejected
      && t.alerts.Keys == s.alerts.Keys && s.alertReports <= t.alertReports
      && (t.alerts[alert].status == AlertStatus.Rejected <==> (s.alerts[alert].status == AlertStatus.Pending && demote) || s.alerts[alert].status == AlertStatus.Rejected)
      && (forall a :: a in s.alerts && a != alert ==> t.alerts[a] == s.alerts[a])
      && (!demote ==> t.alertReports == s.alertReports)
      && (forall r :: r in s.reports && r != id ==> KeptOrPromoted(s.reports[r].(groupLabel := l.reports[r].groupLabel), t.reports[r]))
      && (demote ==> forall g :: g in GroupLabels(l, others) && CoveringAlerts(WithAlertRejected(l, alert), g) != {} ==>
                                   LabelAttached(t, g))
      && (Consistent(s) && AtMostOneActiveAlert(s) ==> Consistent(t) && AtMostOneActiveAlert(t))
  {
    var l := RejectedAndRelabeled(s, id, rule.kilometersThreshold.value, labeling);
    var others := Members(l, alert) - {id};
    var rejected := WithReportRejected(s, id);
    var call := CalculateNewLabelsInLabelGroup(s.reports[id].groupLabel, RelabelMeters(rule.kilometersThreshold.value));
    var invariants := Consistent(s) && AtMostOneActiveAlert(s);
    if invariants {
      RejectionsKeepInvariants(s, id, alert);
      LabelingKeepsInvariants(rejected, labeling(call));
    }
    if !SomeGroupMeetsThreshold(l, others, rule.countThreshold) {
      var d := WithAlertRejected(l, alert);
      var t := AfterSweeps(d, steps);
      AfterSweepsFrame(d, steps);
      if invariants {
        RejectionsKeepInvariants(l, id, alert);
      }
      SweepsOutcome(d, steps);
      forall g | g in GroupLabels(l, others) && CoveringAlerts(d, g) != {} ensures LabelAttached(t, g) {
        var i :| 0 <= i < |steps| && steps[i].groupLabel == g;
      }
    }
  }

  /** The re-sweep steps are proper for dismissing report `id` of alert `alert` under `rule`, whenever that path sweeps. */
  ghost predicate SweepsFor(s: Store, id: ReportId, alert: AlertId, rule: AlertRule, labeling: Labeling, steps: seq<SweepStep>)
    requires id in s.reports
  {
    rule.kilometersThreshold.Some? ==>
      var l := RejectedAndRelabeled(s, id, rule.kilometersThreshold.value, labeling);
      !SomeGroupMeetsThreshold(l, Members(l, alert) - {id}, rule.countThreshold) ==>
        ProperSweeps(WithAlertRejected(l, alert), steps, GroupLabels(l, Members(l, alert) - {id}))
  }

  /** The re-sweep steps are proper for whichever alert the dismissal of report `id` inspects. */
  ghost predicate ProperDismissalSweeps(s: Store, id: ReportId, labeling: Labeling, steps: seq<SweepStep>) {
    |InspectedRows(s, id)| == 1 ==> forall ar :: ar in InspectedRows(s, id) && id in s.reports && s.reports[id].healthRisk in s.rules ==>
      SweepsFor(s, id, ar.alertId, s.rules[s.reports[id].healthRisk], labeling, steps)
  }

  /**
   * When `ReportDismissed` changes nothing and when it fails: with no
   * inspected alert the store is unchanged; with several the query throws;
   * with one, it throws when the report is missing or its health risk has no
   * rule, and otherwise exactly when the general path meets a rule without a
   * distance threshold. In a consistent store the report and its rule exist.
   */
  lemma ReportDismissedOutcomes(s: Store, id: ReportId, labeling: Labeling, steps: seq<SweepStep>)
    ensures InspectedRows(s, id) == {} ==> ReportDismissed(s, id, labeling, steps) == Ok(s)
    ensures |InspectedRows(s, id)| > 1 ==> ReportDismissed(s, id, labeling, steps) == Err(MoreThanOneInspectedAlert)
    ensures |InspectedRows(s, id)| == 1 && id !in s.reports ==>
              ReportDismissed(s, id, labeling, steps) == Err(ReportNotFound)
    ensures |InspectedRows(s, id)| == 1 && id in s.reports && s.reports[id].healthRisk !in s.rules ==>
              ReportDismissed(s, id, labeling, steps) == Err(NoAlertRule)
    ensures |InspectedRows(s, id)| == 1 && id in s.reports && s.reports[id].healthRisk in s.rules ==>
              var rule := s.rules[s.reports[id].healthRisk];
              (ReportDismissed(s, id, labeling, steps).Err? <==> rule.countThreshold != 1 && rule.kilometersThreshold.None?)
              && (ReportDismissed(s, id, labeling, steps).Err? ==> ReportDismissed(s, id, labeling, steps).error == NoKilometersThreshold)
    ensures Consistent(s) && |InspectedRows(s, id)| == 1 ==> id in s.reports && s.reports[id].healthRisk in s.rules
  {
    if Consistent(s) && |InspectedRows(s, id)| == 1 {
      var ar :| ar in InspectedRows(s, id);
      assert id in s.reports;
    }
  }

  /**
   * Dismissing a Pending report whose alert is inspected rejects the report,
   * on both paths, unless the general path meets a rule without a distance
   * threshold; the inspected alert ends Rejected exactly when it was Pending
   * and either the rule's count threshold is one or no label group of the
   * alert's other members still reaches it.
   */
  lemma {:induction false} DismissalRejectsPendingReport(s: Store, id: ReportId, alert: AlertId,
                                                         labeling: Labeling, steps: seq<SweepStep>)
    requires Consistent(s) && InspectedRows(s, id) == {AlertReport(id, alert)}
    requires id in s.reports && s.reports[id].status == ReportStatus.Pending
    requires SweepsFor(s, id, alert, s.rules[s.reports[id].healthRisk], labeling, steps)
    ensures var rule := s.rules[s.reports[id].healthRisk];
      var res := ReportDismissed(s, id, labeling, steps);
      && (res.Ok? ==> id in res.value.reports && res.value.reports[id].status == ReportStatus.Rejected)
      && (res.Ok? ==> alert in res.value.alerts)
      && (res.Ok? && rule.countThreshold == 1 ==>
            (res.value.alerts[alert].status == AlertStatus.Rejected <==> s.alerts[alert].status == AlertStatus.Pending))
      && (res.Ok? && rule.countThreshold != 1 ==>
            var l := RejectedAndRelabeled(s, id, rule.kilometersThreshold.value, labeling);
            var demote := !SomeGroupMeetsThreshold(l, Members(l, alert) - {id}, rule.countThreshold);
            (res.value.alerts[alert].status == AlertStatus.Rejected <==> s.alerts[alert].status == AlertStatus.Pending && demote))
  {
    var rule := s.rules[s.reports[id].healthRisk];
    assert AlertReport(id, alert) in InspectedRows(s, id);
    assert alert in s.alerts;
    if rule.countThreshold == 1 {
      FastPathOutcome(s, id, alert);
    } else if rule.kilometersThreshold.Some? {
      GeneralPathOutcome(s, id, alert, rule, labeling, steps);
    }
  }

  /** A dismissal that does not fail keeps consistency and "no report in two active alerts". */
  lemma ReportDismissedKeepsInvariants(s: Store, id: ReportId, labeling: Labeling, steps: seq<SweepStep>)
    requires Consistent(s) && AtMostOneActiveAlert(s) && ProperDismissalSweeps(s, id, labeling, steps)
    ensures var res := ReportDismissed(s, id, labeling, steps);
            res.Ok? ==> Consistent(res.value) && AtMostOneActiveAlert(res.value)
  {
    var rows := InspectedRows(s, id);
    if |rows| == 1 {
      var ar :| ar in rows;
      OnlyElement(rows, ar);
      assert id in s.reports;
      var rule := s.rules[s.reports[id].healthRisk];
      if rule.countThreshold == 1 {
        FastPathOutcome(s, id, ar.alertId);
      } else if rule.kilometersThreshold.Some? {
        GeneralPathOutcome(s, id, ar.alertId, rule, labeling, steps);
      }
    }
  }

  // ------------------------------------------- report dismissed: finding

  /**
   * As written, the fast path persists nothing: it saves its changes inside
   * a transaction scope and returns before completing it, so the scope rolls
   * them back.
   */
  lemma FastPathAsWrittenChangesNothing(s: Store, id: ReportId, alert: AlertId, labeling: Labeling, steps: seq<SweepStep>)
    requires Consistent(s) && InspectedRows(s, id) == {AlertReport(id, alert)}
    requires id in s.reports && s.rules[s.reports[id].healthRisk].countThreshold == 1
    ensures ReportDismissedAsWritten(s, id, labeling, steps) == Ok(s)
  {
  }

  /**
   * A store on which the written fast path loses the dismissal: one Pending
   * report in one Pending alert under a count threshold of one. As intended
   * both end Rejected; as written both stay Pending.
   */
  lemma FastPathRollbackExample()
    ensures var s := Store(map[0 := Report(Single, 0, 0, ReportStatus.Pending)],
                           map[0 := Alert(0, 0, AlertStatus.Pending)],
                           {AlertReport(0, 0)},
                           map[0 := AlertRule(1, None)]);
            var noLabels := (c: LabelingCall) => map[];
            && ReportDismissedAsWritten(s, 0, noLabels, []).Ok?
            && ReportDismissedAsWritten(s, 0, noLabels, []).value.reports[0].status == ReportStatus.Pending
            && ReportDismissed(s, 0, noLabels, []).Ok?
            && ReportDismissed(s, 0, noLabels, []).value.reports[0].status == ReportStatus.Rejected
            && ReportDismissed(s, 0, noLabels, []).value.alerts[0].status == AlertStatus.Rejected
  {
    var s := Store(map[0 := Report(Single, 0, 0, ReportStatus.Pending)],
                   map[0 := Alert(0, 0, AlertStatus.Pending)],
                   {AlertReport(0, 0)},
                   map[0 := AlertRule(1, None)]);
    assert InspectedRows(s, 0) == {AlertReport(0, 0)};
  }

  // --------------------------------------------------------------- helpers

  /** The database can always find an identity no alert uses, above all of them. */
  lemma {:induction false} UnusedIdExists(ids: set<nat>)
    ensures exists id: nat :: id !in ids && forall k :: k in ids ==> k < id
    decreases |ids|
  {
    if ids != {} {
      var x :| x in ids;
      UnusedIdExists(ids - {x});
      var id: nat :| id !in ids - {x} && forall k :: k in ids - {x} ==> k < id;
      var above := if id > x then id else x + 1;
      forall k | k in ids ensures k < above {
        if k != x {
          assert k in ids - {x};
        }
      }
      assert above !in ids;
    } else {
      assert 0 !in ids;
    }
  }

  /** A set with one element is that element's singleton. */
  lemma OnlyElement<T>(xs: set<T>, x: T)
    requires |xs| == 1 && x in xs
    ensures xs == {x}
  {
    forall y | y in xs ensures y == x {
      if y != x {
        assert {x, y} <= xs;
        SubsetCardinality({x, y}, xs);
      }
    }
  }
}
