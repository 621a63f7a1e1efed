/**
 * The alert engine as the service runs it: a database context whose tables
 * the service updates in place, and the service's operations, each proved
 * to leave the context in the state the matching function of `AlertStore`
 * describes.
 */
module Alerts {
  import opened Wrappers
  import opened AlertStore

  /** The tracked tables of the database context. The alert rules are read only. */
  class NyssContext {
    var reports: map<ReportId, Report>
    var alerts: map<AlertId, Alert>
    var alertReports: set<AlertReport>
    const rules: map<HealthRiskId, AlertRule>

    /** The tables as a value. */
    function Snapshot(): Store
      reads this
    {
      Store(reports, alerts, alertReports, rules)
    }

    constructor (s: Store)
      ensures Snapshot() == s
    {
      reports, alerts, alertReports, rules := s.reports, s.alerts, s.alertReports, s.rules;
    }

    /** The labeling service writes the labels it computed. */
    method UpdateLabels(labels: map<ReportId, Label>)
      modifies this
      ensures Snapshot() == WithLabels(old(Snapshot()), labels)
    {
      reports := WithLabels(Snapshot(), labels).reports;
    }

    /** Report `id` joins `alert`; a New report becomes Pending. */
    method Attach(id: ReportId, alert: AlertId)
      modifies this
      ensures Snapshot() == WithReportAdded(old(Snapshot()), id, alert)
    {
      if id in reports && reports[id].status == ReportStatus.New {
        reports := reports[id := reports[id].(status := ReportStatus.Pending)];
      }
      alertReports := alertReports + {AlertReport(id, alert)};
    }

    /** A transaction scope disposed of without being completed puts the tables back as they were. */
    method RollBack(s: Store)
      requires s.rules == rules
      modifies this
      ensures Snapshot() == s
    {
      reports, alerts, alertReports := s.reports, s.alerts, s.alertReports;
    }
  }

  /** The alert service over a context and the report labeling service. */
  class AlertService {
    const context: NyssContext
    const labeling: Labeling

    constructor (context: NyssContext, labeling: Labeling)
      ensures this.context == context && this.labeling == labeling
    {
      this.context := context;
      this.labeling := labeling;
    }

    /**
     * A report was added: single reports are labeled, then either join an
     * existing active alert of their label or raise a new one. `now` is the
     * clock's current UTC time. The alert the query returned (`existing`)
     * and the identity the database gave a new alert (`newId`) are returned
     * as ghosts so the outcome can be stated with `AlertStore.ReportAdded`.
     */
    method ReportAdded(reportId: ReportId, now: int) returns (triggered: Option<AlertId>, ghost existing: AlertId, ghost newId: AlertId)
      requires reportId in context.reports && context.reports[reportId].healthRisk in context.rules
      modifies context
      ensures newId !in old(context.alerts)
      ensures var l := LabeledOnReportAdded(old(context.Snapshot()), reportId, labeling);
              old(context.reports[reportId].reportType) == Single && CoveringAlerts(l, l.reports[reportId].groupLabel) != {} ==>
                IsPreferredAlert(l, l.reports[reportId].groupLabel, existing)
      ensures (context.Snapshot(), triggered) == AlertStore.ReportAdded(old(context.Snapshot()), reportId, labeling, now, existing, newId)
    {
      existing := 0;
      UnusedIdExists(context.alerts.Keys);
      newId :| newId !in context.alerts && forall k :: k in context.alerts ==> k < newId;
      var report := context.reports[reportId];
      if report.reportType != Single {
        return None, existing, newId;
      }
      var healthRisk := report.healthRisk;
      var rule := context.rules[healthRisk];
      context.UpdateLabels(labeling(ResolveLabelsOnReportAdded(reportId, healthRisk)));
      var groupLabel := context.reports[reportId].groupLabel;
      triggered, existing, newId := HandleAlerts(groupLabel, rule.countThreshold, healthRisk, now);
    }

    /**
     * Join an existing active alert of `groupLabel`, or else raise a new
     * Pending alert when at least `countThreshold` active reports carry it.
     */
    method HandleAlerts(groupLabel: Label, countThreshold: int, healthRisk: HealthRiskId, now: int)
      returns (triggered: Option<AlertId>, ghost existing: AlertId, ghost newId: AlertId)
      modifies context
      ensures newId !in old(context.alerts)
      ensures CoveringAlerts(old(context.Snapshot()), groupLabel) != {} ==> IsPreferredAlert(old(context.Snapshot()), groupLabel, existing)
      ensures (context.Snapshot(), triggered)
           == AlertStore.HandleAlerts(old(context.Snapshot()), groupLabel, countThreshold, healthRisk, now, existing, newId)
    {
      UnusedIdExists(context.alerts.Keys);
      newId :| newId !in context.alerts && forall k :: k in context.alerts ==> k < newId;
      existing := 0;
      var found := IncludeAllReportsWithLabelInExistingAlert(groupLabel);
      triggered := None;
      if found.Some? {
        existing := found.value;
      } else {
        var reportsWithLabel := ActiveReportsWithLabel(context.Snapshot(), groupLabel);
        if |reportsWithLabel| >= countThreshold {
          var alert := CreateNewAlert(healthRisk, now);
          newId := alert;
          AddReportsToAlert(alert, reportsWithLabel);
          triggered := Some(alert);
        }
      }
    }

    /**
     * Find an active alert some active report of `groupLabel` belongs to,
     * an escalated one first, and attach to it every active report of the
     * label that belongs to no active alert. `None` when there is no such
     * alert, and then nothing changes.
     */
    method IncludeAllReportsWithLabelInExistingAlert(groupLabel: Label) returns (found: Option<AlertId>)
      modifies context
      ensures found.Some? <==> CoveringAlerts(old(context.Snapshot()), groupLabel) != {}
      ensures found.Some? ==> IsPreferredAlert(old(context.Snapshot()), groupLabel, found.value)
      ensures context.Snapshot() == if found.Some? then WithLabelSwept(old(context.Snapshot()), groupLabel, found.value)
                                    else old(context.Snapshot())
    {
      var s := context.Snapshot();
      var covering := CoveringAlerts(s, groupLabel);
      if covering == {} {
        return None;
      }
      var escalated := set a | a in covering && a in s.alerts && s.alerts[a].status == AlertStatus.Escalated;
      var alert;
      if escalated != {} {
        alert :| alert in escalated;
      } else {
        alert :| alert in covering;
        forall b | b in covering && b in s.alerts ensures s.alerts[b].status != AlertStatus.Escalated {
          assert b !in escalated;
        }
      }
      var reportsWithNoActiveAlert := ReportsWithNoActiveAlert(s, groupLabel);
      AddReportsToAlert(alert, reportsWithNoActiveAlert);
      return Some(alert);
    }

    /** A new Pending alert for `healthRisk`, created at `now`, under an identity no alert uses. */
    method CreateNewAlert(healthRisk: HealthRiskId, now: int) returns (id: AlertId)
      modifies context
      ensures id !in old(context.alerts)
      ensures forall k :: k in old(context.alerts) ==> k < id
      ensures context.Snapshot() == old(context.Snapshot()).(alerts := old(context.alerts)[id := Alert(healthRisk, now, AlertStatus.Pending)])
    {
      UnusedIdExists(context.alerts.Keys);
      id :| id !in context.alerts && forall k :: k in context.alerts ==> k < id;
      context.alerts := context.alerts[id := Alert(healthRisk, now, AlertStatus.Pending)];
    }

    /** One membership row per given report; each given New report becomes Pending. */
    method AddReportsToAlert(alert: AlertId, ids: set<ReportId>)
      modifies context
      ensures context.Snapshot() == WithReportsAdded(old(context.Snapshot()), ids, alert)
    {
      ghost var start := context.Snapshot();
      var remaining := ids;
      while remaining != {}
        invariant remaining <= ids
        invariant context.Snapshot() == WithReportsAdded(start, ids - remaining, alert)
        decreases remaining
      {
        var id :| id in remaining;
        AddedOneMore(start, ids - remaining, id, alert);
        context.Attach(id, alert);
        remaining := remaining - {id};
        assert ids - remaining == (ids - (remaining + {id})) + {id};
      }
    }

    /**
     * A report was dismissed. With no Pending or Dismissed alert for it,
     * nothing changes; on an error, the transaction is rolled back and the
     * error returned. The labels the re-sweep visited, with the alert the
     * query returned for each, are returned as a ghost so the outcome can be
     * stated with `AlertStore.ReportDismissed`.
     */
    method ReportDismissed(reportId: ReportId) returns (error: Option<DismissError>, ghost steps: seq<SweepStep>)
      modifies context
      ensures ProperDismissalSweeps(old(context.Snapshot()), reportId, labeling, steps)
      ensures match AlertStore.ReportDismissed(old(context.Snapshot()), reportId, labeling, steps)
              case Ok(t) => error.None? && context.Snapshot() == t
              case Err(e) => error == Some(e) && context.Snapshot() == old(context.Snapshot())
    {
      ghost var s := context.Snapshot();
      steps := [];
      var before := context.Snapshot();
      var rows := InspectedRows(before, reportId);
      if rows == {} {
        return None, steps;
      }
      if |rows| > 1 {
        return Some(MoreThanOneInspectedAlert), steps;
      }
      var row :| row in rows;
      OnlyElement(rows, row);
      var alert := row.alertId;
      if reportId !in context.reports {
        return Some(ReportNotFound), steps;
      }
      var report := context.reports[reportId];
      if report.healthRisk !in context.rules {
        return Some(NoAlertRule), steps;
      }
      var rule := context.rules[report.healthRisk];
      if rule.countThreshold == 1 {
        if report.status == ReportStatus.Pending {
          context.reports := context.reports[reportId := report.(status := ReportStatus.Rejected)];
        }
        if context.alerts[alert].status == AlertStatus.Pending {
          context.alerts := context.alerts[alert := context.alerts[alert].(status := AlertStatus.Rejected)];
        }
        return None, steps;
      }
      context.reports := context.reports[reportId := report.(status := ReportStatus.Rejected)];
      if rule.kilometersThreshold.None? {
        context.RollBack(before);
        return Some(NoKilometersThreshold), steps;
      }
      var meters := RelabelMeters(rule.kilometersThreshold.value);
      context.UpdateLabels(labeling(CalculateNewLabelsInLabelGroup(report.groupLabel, meters)));
      var relabeled := context.Snapshot();
      var others := Members(relabeled, alert) - {reportId};
      if !SomeGroupMeetsThreshold(relabeled, others, rule.countThreshold) {
        if context.alerts[alert].status == AlertStatus.Pending {
          context.alerts := context.alerts[alert := context.alerts[alert].(status := AlertStatus.Rejected)];
        }
        steps := ResweepGroups(GroupLabels(relabeled, others));
      }
      assert SweepsFor(s, reportId, alert, rule, labeling, steps);
      return None, steps;
    }

    /** The re-sweep loop: each label of `groupLabels`, once, is swept into an existing active alert. */
    method ResweepGroups(groupLabels: set<Label>) returns (ghost steps: seq<SweepStep>)
      modifies context
      ensures ProperSweeps(old(context.Snapshot()), steps, groupLabels)
      ensures context.Snapshot() == AfterSweeps(old(context.Snapshot()), steps)
    {
      ghost var start := context.Snapshot();
      steps := [];
      var remaining := groupLabels;
      while remaining != {}
        invariant remaining <= groupLabels
        invariant context.Snapshot() == AfterSweeps(start, steps)
        invariant ProperChoices(start, steps)
        invariant VisitsOnce(steps, groupLabels, remaining)
        decreases remaining
      {
        var groupLabel :| groupLabel in remaining;
        var found := IncludeAllReportsWithLabelInExistingAlert(groupLabel);
        var step := SweepStep(groupLabel, if found.Some? then found.value else 0);
        StepExtendsSweeps(start, steps, step);
        VisitOneMore(steps, groupLabels, remaining, step);
        steps := steps + [step];
        remaining := remaining - {groupLabel};
      }
    }
  }

  /** Adding one more report to the ones already added gives the same tables as adding them all at once. */
  lemma AddedOneMore(start: Store, done: set<ReportId>, id: ReportId, alert: AlertId)
    requires id !in done
    ensures WithReportAdded(WithReportsAdded(start, done, alert), id, alert) == WithReportsAdded(start, done + {id}, alert)
  {
    var s := WithReportsAdded(start, done, alert);
    var t := WithReportsAdded(start, done + {id}, alert);
    assert t.alertReports == s.alertReports + {AlertReport(id, alert)};
  }

  /** Appending a properly chosen step keeps the sweep steps properly chosen. */
  lemma StepExtendsSweeps(start: Store, steps: seq<SweepStep>, step: SweepStep)
    requires ProperChoices(start, steps) && ProperChoice(AfterSweeps(start, steps), step)
    ensures ProperChoices(start, steps + [step])
    ensures AfterSweeps(start, steps + [step]) == SweepLabel(AfterSweeps(start, steps), step.groupLabel, step.existing)
  {
    var ext := steps + [step];
    assert ext[..|steps|] == steps;
    forall i | 0 <= i < |ext| ensures ProperChoice(AfterSweeps(start, ext[..i]), ext[i]) {
      if i < |steps| {
        assert ext[..i] == steps[..i];
      }
    }
  }

  /** Visiting one more remaining label keeps each label visited once. */
  lemma VisitOneMore(steps: seq<SweepStep>, groupLabels: set<Label>, remaining: set<Label>, step: SweepStep)
    requires VisitsOnce(steps, groupLabels, remaining) && remaining <= groupLabels && step.groupLabel in remaining
    ensures VisitsOnce(steps + [step], groupLabels, remaining - {step.groupLabel})
  {
    var ext := steps + [step];
    forall g | g in groupLabels && g !in remaining - {step.groupLabel}
      ensures exists i :: 0 <= i < |ext| && ext[i].groupLabel == g
    {
      if g == step.groupLabel {
        assert ext[|steps|].groupLabel == g;
      } else {
        var i :| 0 <= i < |steps| && steps[i].groupLabel == g;
        assert ext[i].groupLabel == g;
      }
    }
  }
}
