# Nyss alert engine, modelled in Dafny

This project models the part of Nyss (the Red Cross community-based
surveillance system) that turns incoming reports into alerts, plus three
small pieces of the web application.

- **Alert aggregation** (`AlertService.cs`). Reports carry a status
  (New, Pending, Rejected, Removed) and a group label computed by a
  labeling service. Alerts carry a status (Pending, Escalated, Dismissed,
  Rejected, Closed). Membership rows link reports to alerts.
  - `ReportAdded` labels a single report. The report then joins an active
    alert that already covers its label, or raises a new Pending alert
    once enough active reports share the label.
  - `ReportDismissed` rejects a report. It either takes a fast path (count
    threshold one) or relabels the group. When no label group of the
    alert's other members still reaches the threshold, it demotes the
    alert and sweeps those groups into other active alerts.
- **Alert notification text.** The English or French SMS template, chosen
  by the language code, with three placeholders filled.
- **SMS gateway reducer.** The web client's Redux reducer for the SMS
  gateway pages.
- **National society edit validator.** Four FluentValidation rules.
- **Alert event expandable text.** Truncation of long text, and the
  expand/shrink toggle.

Files:

- `wrappers.dfy`: `Option` and `Result`.
- `alert_store.dfy`, module `AlertStore`: the tables as a value (`Store`),
  each step of the engine as a function of that value, and the lemmas about
  them. `Consistent` says the foreign keys hold and that every report's
  health risk has an alert rule. The second half is a premise of the
  model: the schema lets a health risk have no rule
  (`HealthRisk.AlertRuleId` is nullable). `AtMostOneActiveAlert` says no
  report belongs to two Pending/Escalated alerts.
- `alert_service.dfy`, module `Alerts`: the database context (`NyssContext`)
  and the service (`AlertService`) as classes updated in place. Each method
  is proved to leave the context in the state the matching `AlertStore`
  function gives.
- `alert_notification.dfy`, `sms_gateways_reducer.dfy`,
  `national_society_validation.dfy`, `alert_event_expandable_text.dfy`:
  the other pieces.

Where the engine's choices are left open, the model takes them as
parameters:

- The existing-alert query may return any covering active alert, provided
  an escalated one comes first (`IsPreferredAlert`). The model takes that
  choice as a parameter (`existing`, or a `SweepStep` per re-swept label).
- The identity the database gives a new alert can be any unused one
  (`newId`).
- The labeling service is an oracle from its call (`LabelingCall`) to the
  new labels it writes.

Three behaviours of the code worth stating:

- After a dismissal, the remaining groups are only re-swept when no group
  reaches the threshold (`AlertService.cs:191-202`), and only into
  *existing* active alerts. No new alert is created there.
- Group sizes count every other member row of the alert, whatever that
  report's status (`AlertService.cs:182-190`).
- The dismissed report's own membership row is kept.

## Model

| member | source | states |
|---|---|---|
| AlertStore.WithReportsAdded | src/RX.Nyss.ReportApi/Features/Alerts/AlertService.cs:123-129 | adds exactly one row per given report; each given New report becomes Pending; every other report, every alert and the rules are unchanged; no report changes label, type, health risk or activeness |
| AlertStore.WithLabels | src/RX.Nyss.ReportApi/Features/Alerts/AlertService.cs:53 | the labeling service changes only the labels it names; rows, alerts and statuses stay |
| AlertStore.SweepAttachesEveryActiveReport | src/RX.Nyss.ReportApi/Features/Alerts/AlertService.cs:87-109 | sweeping into the preferred covering alert only adds rows, leaves every active report with the label in an active alert, gives the reports that had none exactly that alert, and changes no other report's active alerts |
| AlertStore.NewAlertAttachesEveryActiveReport | src/RX.Nyss.ReportApi/Features/Alerts/AlertService.cs:71-80 | the new alert is Pending, its members are exactly the label's active reports, and each of them gains exactly that alert |
| AlertStore.HandleAlerts | src/RX.Nyss.ReportApi/Features/Alerts/AlertService.cs:62-85 | an alert is returned iff no active alert covers the label and its active reports reach CountThreshold; it is the new identity and is Pending; rules and reports are kept and no row is removed; with no alert returned, no alert is created |
| AlertStore.ReportAdded | src/RX.Nyss.ReportApi/Features/Alerts/AlertService.cs:42-60 | a non-Single report changes nothing and returns null; otherwise rules and reports are kept, no row is removed, and a returned alert is the new Pending one; with none returned, alerts are unchanged (the full outcome is `AlertStore.ReportAddedOutcome`) |
| AlertStore.ReportAddedOutcome | src/RX.Nyss.ReportApi/Features/Alerts/AlertService.cs:42-85 | a non-Single report changes nothing and returns none; otherwise an alert is returned iff no active alert covers the label and the active count reaches CountThreshold; it is the new Pending alert holding exactly those reports; a covered label is swept into the existing alert with no alert created; below threshold only labels change; no report changes except by its new label and a promotion from New to Pending |
| AlertStore.LabelingKeepsInvariants | src/RX.Nyss.ReportApi/Features/Alerts/AlertService.cs:53-54 | relabeling keeps consistency and keeps every report in at most one active alert |
| AlertStore.SweepKeepsInvariants | src/RX.Nyss.ReportApi/Features/Alerts/AlertService.cs:99-106 | the sweep keeps consistency and at most one active alert per report |
| AlertStore.NewAlertKeepsInvariants | src/RX.Nyss.ReportApi/Features/Alerts/AlertService.cs:76-80 | a new alert over an uncovered label keeps consistency and at most one active alert per report |
| AlertStore.ReportAddedKeepsInvariants | src/RX.Nyss.ReportApi/Features/Alerts/AlertService.cs:42-60 | a whole `ReportAdded` keeps consistency and at most one active alert per report |
| AlertStore.WrapInt32 | src/RX.Nyss.ReportApi/Features/Alerts/AlertService.cs:179 | C# `int` arithmetic: the result is in the signed 32-bit range, congruent to the exact value modulo 2^32, and equal to it when it fits |
| AlertStore.RelabelMeters | src/RX.Nyss.ReportApi/Features/Alerts/AlertService.cs:179 | `KilometersThreshold.Value * 1000 * 2` in C# `int`: a signed 32-bit value congruent to 2000 times the threshold modulo 2^32, and equal to it for thresholds of at most 1073741 km in absolute value |
| AlertStore.AfterSweepsFrame | src/RX.Nyss.ReportApi/Features/Alerts/AlertService.cs:198-202 | the re-sweep loop creates no alert, report or rule, removes no row, and changes only reports that were New |
| AlertStore.GeneralPathDismissed | src/RX.Nyss.ReportApi/Features/Alerts/AlertService.cs:176-203 | throws exactly when the distance threshold is null; otherwise the report ends Rejected, no alert, report or rule is created or removed, and no row is removed |
| AlertStore.SweepLabelOutcome | src/RX.Nyss.ReportApi/Features/Alerts/AlertService.cs:198-202 | one re-sweep pass only adds rows, fully attaches a covered label, and keeps both invariants |
| AlertStore.SweepsOutcome | src/RX.Nyss.ReportApi/Features/Alerts/AlertService.cs:198-202 | the whole re-sweep loop only adds rows, keeps both invariants, and leaves every label that was covered before it fully attached |
| AlertStore.RejectionsKeepInvariants | src/RX.Nyss.ReportApi/Features/Alerts/AlertService.cs:193-196 | rejecting the report or demoting a Pending alert keeps consistency and at most one active alert per report |
| AlertStore.FastPathOutcome | src/RX.Nyss.ReportApi/Features/Alerts/AlertService.cs:160-174 | with CountThreshold 1 the report ends Rejected iff it was Pending (or already Rejected), the alert ends Rejected iff it was Pending (or already Rejected); only their statuses change, so the report keeps its label; no row and no other report or alert changes; both invariants hold |
| AlertStore.GeneralPathOutcome | src/RX.Nyss.ReportApi/Features/Alerts/AlertService.cs:176-203 | the report ends Rejected; the inspected alert ends Rejected iff it was Pending and no label group of the other members reaches CountThreshold; no other alert changes; no row is removed, and none is added when a group still reaches the threshold; after a demotion every group label covered by an active alert ends fully attached; both invariants hold; every other report changes only by its new label and a promotion from New to Pending |
| AlertStore.Dismissal | src/RX.Nyss.ReportApi/Features/Alerts/AlertService.cs:131-208 | whether or not the fast path commits: an error needs an inspected row; a success creates no alert, report or rule, removes no row and keeps the rules |
| AlertStore.ReportDismissed | src/RX.Nyss.ReportApi/Features/Alerts/AlertService.cs:131-208 | as intended: when exactly one alert is inspected and the report was Pending, a successful dismissal leaves it Rejected |
| AlertStore.ReportDismissedAsWritten | src/RX.Nyss.ReportApi/Features/Alerts/AlertService.cs:160-174 | as written: with exactly one inspected alert and a rule whose CountThreshold is 1, the persisted store is the one before the call |
| AlertStore.ReportDismissedOutcomes | src/RX.Nyss.ReportApi/Features/Alerts/AlertService.cs:133-158 | with no Pending/Dismissed alert for the report nothing changes; with several the query fails (`MoreThanOneInspectedAlert`); with one, a missing report fails with `ReportNotFound`, a health risk without an alert rule with `NoAlertRule`, and otherwise the dismissal fails (`NoKilometersThreshold`) exactly when the general path meets a rule without a distance threshold; in a consistent store the report and its rule exist |
| AlertStore.DismissalRejectsPendingReport | src/RX.Nyss.ReportApi/Features/Alerts/AlertService.cs:131-207 | a successful dismissal of a Pending report rejects it on both paths; the alert ends Rejected iff it was Pending and either the threshold is one or no other group reaches it |
| AlertStore.ReportDismissedKeepsInvariants | src/RX.Nyss.ReportApi/Features/Alerts/AlertService.cs:131-208 | a dismissal that does not fail keeps consistency and at most one active alert per report |
| AlertStore.FastPathAsWrittenChangesNothing | src/RX.Nyss.ReportApi/Features/Alerts/AlertService.cs:160-174 | as written, the fast path leaves the persisted store unchanged |
| AlertStore.FastPathRollbackExample | src/RX.Nyss.ReportApi/Features/Alerts/AlertService.cs:160-207 | on one Pending report in one Pending alert with CountThreshold 1, the written code leaves both Pending while the intended behaviour rejects both |
| AlertStore.UnusedIdExists | src/RX.Nyss.ReportApi/Features/Alerts/AlertService.cs:119 | there is always an alert identity above every one in use |
| Alerts.AlertService.ReportAdded | src/RX.Nyss.ReportApi/Features/Alerts/AlertService.cs:42-60 | the context ends as `AlertStore.ReportAdded` gives, for the alert the query chose and a fresh identity, and the returned alert is the one it gives |
| Alerts.AlertService.HandleAlerts | src/RX.Nyss.ReportApi/Features/Alerts/AlertService.cs:62-85 | the context and the returned alert are those of `AlertStore.HandleAlerts` for a preferred existing alert and a fresh identity |
| Alerts.AlertService.IncludeAllReportsWithLabelInExistingAlert | src/RX.Nyss.ReportApi/Features/Alerts/AlertService.cs:87-109 | returns an alert iff an active alert covers the label; that alert is escalated whenever a covering one is; the context is swept into it, or unchanged when none is returned |
| Alerts.AlertService.CreateNewAlert | src/RX.Nyss.ReportApi/Features/Alerts/AlertService.cs:111-121 | adds a Pending alert for the health risk, created at `now`, under an identity above every existing one; nothing else changes |
| Alerts.AlertService.AddReportsToAlert | src/RX.Nyss.ReportApi/Features/Alerts/AlertService.cs:123-129 | the context ends as `AlertStore.WithReportsAdded` gives |
| Alerts.NyssContext.Attach | src/RX.Nyss.ReportApi/Features/Alerts/AlertService.cs:125-128 | one report joins the alert; it becomes Pending if it was New |
| Alerts.NyssContext.UpdateLabels | src/RX.Nyss.ReportApi/Features/Alerts/AlertService.cs:180 | the context ends as `AlertStore.WithLabels` gives |
| Alerts.NyssContext.RollBack | src/RX.Nyss.ReportApi/Features/Alerts/AlertService.cs:133 | an uncompleted transaction scope restores the tables it started from |
| Alerts.AlertService.ReportDismissed | src/RX.Nyss.ReportApi/Features/Alerts/AlertService.cs:131-208 | the returned error and the context are those of `AlertStore.ReportDismissed`, a failure leaving the context as it was; the re-sweep steps it took are proper ones |
| Alerts.AlertService.ResweepGroups | src/RX.Nyss.ReportApi/Features/Alerts/AlertService.cs:198-202 | each label is visited once, each sweep into an alert the query may return, and the context ends as `AlertStore.AfterSweeps` gives |
| AlertNotification.ReplaceAll | src/RX.Nyss.ReportApi/Features/Alerts/AlertService.cs:255-257 | ordinal `string.Replace`: replacing a pattern by itself changes nothing; a replacement of the same length keeps the length, a longer one never shortens |
| AlertNotification.ReplaceSkipsPlain | src/RX.Nyss.ReportApi/Features/Alerts/AlertService.cs:255-257 | `Replace` copies text without a brace unchanged |
| AlertNotification.ReplaceAtPlaceholder | src/RX.Nyss.ReportApi/Features/Alerts/AlertService.cs:255-257 | `Replace` substitutes an occurrence of the placeholder at the start |
| AlertNotification.TemplatesArePlain | src/RX.Nyss.ReportApi/Features/Alerts/AlertService.cs:245-246 | neither template's fixed text contains a brace |
| AlertNotification.ToLower | src/RX.Nyss.ReportApi/Features/Alerts/AlertService.cs:247 | the lowered code has the same length and no upper-case ASCII letter; each upper-case ASCII letter becomes its lower-case letter and every other character is kept |
| AlertNotification.LowerIdempotent | src/RX.Nyss.ReportApi/Features/Alerts/AlertService.cs:247 | lowering an already lowered code changes nothing |
| AlertNotification.LowerIsEn | src/RX.Nyss.ReportApi/Features/Alerts/AlertService.cs:247 | a code lower-cases to "en" iff it is "en" in any letter case |
| AlertNotification.TemplateFor | src/RX.Nyss.ReportApi/Features/Alerts/AlertService.cs:247-249 | the English template iff the code is "en" in any letter case; otherwise French |
| AlertNotification.NatToString | src/RX.Nyss.ReportApi/Features/Alerts/AlertService.cs:252 | an id is written as a non-empty string of decimal digits |
| AlertNotification.ParseNatToString | src/RX.Nyss.ReportApi/Features/Alerts/AlertService.cs:252 | the digits written for an id read back as that id |
| AlertNotification.SplitDigits | src/RX.Nyss.ReportApi/Features/Alerts/AlertService.cs:252 | splits a string into its leading digits and a rest that does not start with a digit |
| AlertNotification.AssessPathRoundTrip | src/RX.Nyss.ReportApi/Features/Alerts/AlertService.cs:252 | `projects/{projectId}/alerts/{alertId}/assess` determines both ids |
| AlertNotification.FillHealthRisk | src/RX.Nyss.ReportApi/Features/Alerts/AlertService.cs:255 | the first `Replace` puts the health risk name in its placeholder and nowhere else |
| AlertNotification.FillVillage | src/RX.Nyss.ReportApi/Features/Alerts/AlertService.cs:256 | the second `Replace` puts the village in its placeholder and nowhere else |
| AlertNotification.FillLink | src/RX.Nyss.ReportApi/Features/Alerts/AlertService.cs:257 | the third `Replace` puts the link in its placeholder |
| AlertNotification.FillInOrder | src/RX.Nyss.ReportApi/Features/Alerts/AlertService.cs:255-257 | the three `Replace` passes, in order, fill a brace-free template |
| AlertNotification.NotificationMessage | src/RX.Nyss.ReportApi/Features/Alerts/AlertService.cs:245-257 | with brace-free names, the message is the English template (code "en" in any case) or the French one, with the name, the village (empty when null) and the link in place |
| AlertNotification.CreateNotificationMessage | src/RX.Nyss.ReportApi/Features/Alerts/AlertService.cs:223-259 | throws (`AlertNotFound`) iff the alert query found nothing; throws iff that or the language code is null; otherwise, with brace-free names, the message is the template for the code, filled |
| AlertNotification.NameContainingPlaceholderIsFilledAgain | src/RX.Nyss.ReportApi/Features/Alerts/AlertService.cs:255-256 | the chained `Replace` calls also fill a `{{village}}` that the health risk name brought in |
| SmsGatewaysReducer.Reduce | src/RX.Nyss.Web/ClientApp/src/components/smsGateways/logic/smsGatewaysReducer.js:5-56 | every field an action's case does not name is copied from the previous state; an unrecognised action returns the previous state |
| SmsGatewaysReducer.ListFetchCycle | src/RX.Nyss.Web/ClientApp/src/components/smsGateways/logic/smsGatewaysReducer.js:7-14 | a list request raises the fetching flag and empties the list; from any state, success lowers the flag and stores the list, and failure lowers it and empties the list |
| SmsGatewaysReducer.OpenEditionCycle | src/RX.Nyss.Web/ClientApp/src/components/smsGateways/logic/smsGatewaysReducer.js:16-26 | invoke and request both raise `formFetching` and clear `formData`; success stores the data; failure lowers the flag and keeps `formData` |
| SmsGatewaysReducer.CreateAndEditOutcomes | src/RX.Nyss.Web/ClientApp/src/components/smsGateways/logic/smsGatewaysReducer.js:28-44 | create and edit requests and successes act alike; a failed create and a failed edit both lower `formSaving`; only a failed create records `formError`, a failed edit keeps it |
| SmsGatewaysReducer.RemoveCycle | src/RX.Nyss.Web/ClientApp/src/components/smsGateways/logic/smsGatewaysReducer.js:46-51 | a removal request marks its gateway in flight; from any state, success and failure both set its entry to undefined; no other entry changes |
| SmsGatewaysReducer.ReduceIdempotent | src/RX.Nyss.Web/ClientApp/src/components/smsGateways/logic/smsGatewaysReducer.js:5-56 | dispatching an action twice has the effect of dispatching it once |
| SmsGatewaysReducer.DisjointActionsCommute | src/RX.Nyss.Web/ClientApp/src/components/smsGateways/logic/smsGatewaysReducer.js:8-51 | actions that name disjoint fields commute |
| NationalSocietyValidation.Utf16Length | src/RX.Nyss.Web/Features/NationalSociety/Dto/EditNationalSocietyRequestDto.cs:17 | `string.Length` counts UTF-16 code units: at least the number of characters and at most twice it, and equal to it when every character is in the Basic Multilingual Plane |
| NationalSocietyValidation.SurrogatePairsCountTwice | src/RX.Nyss.Web/Features/NationalSociety/Dto/EditNationalSocietyRequestDto.cs:17 | a name of two characters outside the Basic Multilingual Plane has length 4 and passes, while a two-letter name fails only `MinimumLength` |
| NationalSocietyValidation.FailingAmong | src/RX.Nyss.Web/Features/NationalSociety/Dto/EditNationalSocietyRequestDto.cs:14-20 | a check is reported iff it is among the checks run and fails |
| NationalSocietyValidation.Validate | src/RX.Nyss.Web/Features/NationalSociety/Dto/EditNationalSocietyRequestDto.cs:14-20 | a check is reported iff the request fails it; no failure iff Id > 0, Name non-blank with at least 3 UTF-16 code units, ContentLanguageId > 0 and CountryId > 0 |
| NationalSocietyValidation.SingleRuleBreaksValidity | src/RX.Nyss.Web/Features/NationalSociety/Dto/EditNationalSocietyRequestDto.cs:16-19 | breaking any one rule makes the request invalid, and the broken numeric rule is reported |
| NationalSocietyValidation.BlankNameReportsOnlyNotEmpty | src/RX.Nyss.Web/Features/NationalSociety/Dto/EditNationalSocietyRequestDto.cs:17 | a blank or null name fails only `NotEmpty`; an empty one fails both name checks |
| AlertEventExpandableText.IsTooLong | src/RX.Nyss.Web/ClientApp/src/components/alertEvents/components/AlertEventExpandableText.js:11 | a missing text is never too long; for a non-negative maxLength, too long iff present and longer than maxLength |
| AlertEventExpandableText.TruncatedText | src/RX.Nyss.Web/ClientApp/src/components/alertEvents/components/AlertEventExpandableText.js:13-15 | always a prefix of the text followed by "...", of length 3 plus maxLength - 3 clamped into the text |
| AlertEventExpandableText.GetText | src/RX.Nyss.Web/ClientApp/src/components/alertEvents/components/AlertEventExpandableText.js:21-26 | the full text once expanded; collapsed, text longer than maxLength (at least 3) is shown in exactly maxLength characters, starting with the text's own prefix |
| AlertEventExpandableText.Prefix | src/RX.Nyss.Web/ClientApp/src/components/alertEvents/components/AlertEventExpandableText.js:14 | `substring(0, end)` clamps `end` into the string and returns a prefix |
| AlertEventExpandableText.TruncatedTextShape | src/RX.Nyss.Web/ClientApp/src/components/alertEvents/components/AlertEventExpandableText.js:13-15 | for maxLength at least 3 the truncated text has exactly maxLength characters: a prefix of the original, then "..."; below 3 it is "..." |
| AlertEventExpandableText.Render | src/RX.Nyss.Web/ClientApp/src/components/alertEvents/components/AlertEventExpandableText.js:59-69 | short text is shown unchanged iff it is not too long; the expand control shows iff the text is too long and collapsed; the shrink control shows the full text; collapsed text is a shorter prefix plus ellipsis |
| AlertEventExpandableText.ExpandableTextComponent.constructor | src/RX.Nyss.Web/ClientApp/src/components/alertEvents/components/AlertEventExpandableText.js:9 | the component mounts collapsed |
| AlertEventExpandableText.ExpandableTextComponent.Expand | src/RX.Nyss.Web/ClientApp/src/components/alertEvents/components/AlertEventExpandableText.js:36 | the expand control expands, and long text is then shown in full with the shrink control |
| AlertEventExpandableText.ExpandableTextComponent.Shrink | src/RX.Nyss.Web/ClientApp/src/components/alertEvents/components/AlertEventExpandableText.js:51 | the shrink control collapses, and long text is then shown truncated with the expand control |
| AlertEventExpandableText.ExpandThenShrink | src/RX.Nyss.Web/ClientApp/src/components/alertEvents/components/AlertEventExpandableText.js:36-51 | expanding then shrinking long text brings back the first view |

## Left out

- The labeling service (`ResolveLabelsOnReportAdded`, `CalculateNewLabelsInLabelGroup`, `UpdateLabelsInDatabaseDirect`) is not part of this model. Its distance clustering is floating-point geometry, so it is an oracle from the call to the labels it writes. The doubled meter distance it is called with is passed exactly as computed.
- Database access is reduced to atomic updates of the tables as values. This covers the queries, `SaveChangesAsync` and entity tracking. After `UpdateLabelsInDatabaseDirect`, the members are assumed to be read with their new labels.
- The transaction scope of `ReportDismissed` is all or nothing: an exception, or a return before `Complete()`, restores the tables.
- An exception is a `DismissError`, or a `MessageError` for the notification text. Other exceptions are not modelled.
- AlertStore.ReportAdded: takes as a premise that the report exists and that its health risk has an alert rule (as `Consistent` does). The `SingleAsync` at `AlertService.cs:49-52` finds only the project health risk, and the schema lets its `AlertRule` be null. `ReportAdded` has no transaction scope, so a missing rule would throw at `AlertService.cs:76`. That happens after the labels were saved at `AlertService.cs:55`. This partial, non-atomic failure is not modelled.
- The `report == null` check at `AlertService.cs:153` cannot be reached once `SingleAsync` succeeds, so it has no branch of its own. A missing report is `ReportNotFound`.
- The two warnings logged by `ReportDismissed` are not modelled. The logger is I/O.
- `SendNotificationsForNewAlert` is not modelled: it is a recipient query plus SMS transport through the e-mail publisher.
- `DateTime.UtcNow` is the parameter `now`.
- For the notification text, the alert query's result (`AlertData`, or `None` when no alert is found) and the composed link are inputs. `Uri` composition with the configured base URL is not modelled; only the relative path is.
- AlertNotification.ToLower: only ASCII letters are lowered. The culture-dependent lowering of other letters is not modelled.
- The database assigns alert identities; the model picks any identity above all existing ones.
- Membership rows form a set. A duplicate row, which the composite key would refuse, cannot arise in the modelled operations.
- The order in which the re-sweep loop visits label groups (the order of `GroupBy`) is left open: any order that visits each label once is allowed.
- Asynchrony and concurrent requests are not modelled: each operation runs alone.
- String lengths in the expandable text count characters, where JavaScript counts UTF-16 code units.
- AlertEventExpandableText.TruncatedText: `maxLength` is an integer prop. A fractional or missing `maxLength`, which JavaScript would truncate in `substring` or compare as `NaN`, is not modelled.
- The reducer's `setProperty` is taken to return a copy with one key set. `initialState` and the React rendering around the reducer and the text component are not modelled.
- FluentValidation's error messages and property names are not modelled; only which checks fail is.

## Findings

| source | as written | input that shows it | evidently intended | confidence | as-written member | corrected member |
|---|---|---|---|---|---|---|
| src/RX.Nyss.ReportApi/Features/Alerts/AlertService.cs:160-174 | The fast path for a count threshold of one saves its status changes. It then returns at line 173, before `transactionScope.Complete()` at line 207. Disposing the uncompleted scope rolls the changes back, so nothing persists. | One Pending report in one Pending alert, under a rule with CountThreshold 1. | The report and the alert are both Rejected, and stay so. | medium (depends on the context enlisting in the ambient transaction); not executed | AlertStore.FastPathRollbackExample | AlertStore.DismissalRejectsPendingReport |

The as-written behaviour is `AlertStore.ReportDismissedAsWritten`. Its
fast path persists nothing (`AlertStore.FastPathAsWrittenChangesNothing`).
`AlertStore.ReportDismissed` and `Alerts.AlertService.ReportDismissed`
commit the fast path instead (`AlertStore.FastPathOutcome`).
