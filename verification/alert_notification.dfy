/**
 * The text of the SMS sent to supervisors when a new alert is raised: a
 * template chosen by the content language, with three placeholders filled.
 */
module AlertNotification {
  import opened Wrappers

  // ---------------------------------------------------------------- strings

  /** `s` begins with `p`. */
  predicate StartsWith(s: string, p: string) {
    |p| <= |s| && s[..|p|] == p
  }

  /**
   * .NET's ordinal `string.Replace(oldValue, newValue)`: every occurrence of
   * `pat`, found left to right without overlap, is replaced by `rep`.
   */
  function ReplaceAll(s: string, pat: string, rep: string): (r: string)
    requires |pat| > 0
    ensures rep == pat ==> r == s
    ensures |rep| == |pat| ==> |r| == |s|
    ensures |rep| >= |pat| ==> |r| >= |s|
    decreases |s|
  {
    if s == [] then []
    else if StartsWith(s, pat) then rep + ReplaceAll(s[|pat|..], pat, rep)
    else [s[0]] + ReplaceAll(s[1..], pat, rep)
  }

  /** A placeholder: `{{`, a name that starts with `first` and holds no brace, then `}}`. */
  ghost predicate IsPlaceholder(p: string, first: char) {
    |p| >= 3 && p[0] == '{' && p[1] == '{' && p[2] == first && first != '{' && '{' !in p[2..]
  }

  /** Text with no `{` is copied unchanged past a placeholder pattern. */
  lemma {:induction false} ReplaceSkipsPlain(u: string, t: string, pat: string, rep: string)
    requires |pat| > 0 && pat[0] == '{' && '{' !in u
    ensures ReplaceAll(u + t, pat, rep) == u + ReplaceAll(t, pat, rep)
  {
    if u != [] {
      var s := u + t;
      assert s[0] == u[0] && u[0] in u;
      if |pat| <= |s| {
        assert s[..|pat|][0] == u[0];
      }
      assert !StartsWith(s, pat);
      assert ReplaceAll(s, pat, rep) == [s[0]] + ReplaceAll(s[1..], pat, rep);
      assert s[1..] == u[1..] + t;
      ReplaceSkipsPlain(u[1..], t, pat, rep);
      assert ReplaceAll(s, pat, rep) == [u[0]] + (u[1..] + ReplaceAll(t, pat, rep));
      assert u == [u[0]] + u[1..];
    } else {
      assert u + t == t;
    }
  }

  /** Text with no `{` contains no placeholder. */
  lemma ReplaceLeavesPlain(u: string, pat: string, rep: string)
    requires |pat| > 0 && pat[0] == '{' && '{' !in u
    ensures ReplaceAll(u, pat, rep) == u
  {
    ReplaceSkipsPlain(u, [], pat, rep);
    assert u + [] == u;
  }

  /** Another placeholder, whose name starts differently, is copied unchanged too. */
  lemma ReplaceSkipsOtherPlaceholder(q: string, t: string, pat: string, rep: string, qc: char, pc: char)
    requires IsPlaceholder(q, qc) && IsPlaceholder(pat, pc) && qc != pc
    ensures ReplaceAll(q + t, pat, rep) == q + ReplaceAll(t, pat, rep)
  {
    var s := q + t;
    if |pat| <= |s| {
      assert s[..|pat|][2] == qc;
    }
    assert s[1..] == q[1..] + t;
    if |pat| <= |s[1..]| {
      assert s[1..][..|pat|][1] == qc;
    }
    assert s[1..][1..] == q[2..] + t;
    ReplaceSkipsPlain(q[2..], t, pat, rep);
    assert q == [q[0]] + ([q[1]] + q[2..]);
  }

  /** The placeholder itself is replaced. */
  lemma ReplaceAtPlaceholder(t: string, pat: string, rep: string)
    requires |pat| > 0
    ensures ReplaceAll(pat + t, pat, rep) == rep + ReplaceAll(t, pat, rep)
  {
    assert (pat + t)[..|pat|] == pat;
    assert (pat + t)[|pat|..] == t;
  }

  // ------------------------------------------------------------- templates

  const HealthRiskPlaceholder: string := "{{healthRisk/event}}"
  const VillagePlaceholder: string := "{{village}}"
  const LinkPlaceholder: string := "{{linkToAlert}}"

  /** The fixed text between the placeholders of a template. */
  datatype TemplateText = TemplateText(beforeHealthRisk: string, beforeVillage: string, beforeLink: string, end: string) {
    /** The template with its three placeholders in place. */
    function Template(): string {
      beforeHealthRisk + (HealthRiskPlaceholder + (beforeVillage + (VillagePlaceholder
      + (beforeLink + (LinkPlaceholder + end)))))
    }
    /** The message with the three values in place of the placeholders. */
    function Filled(healthRisk: string, village: string, link: string): string {
      beforeHealthRisk + (healthRisk + (beforeVillage + (village + (beforeLink + (link + end)))))
    }
    /** The fixed text contains no brace. */
    predicate Plain() {
      '{' !in beforeHealthRisk && '{' !in beforeVillage && '{' !in beforeLink && '{' !in end
    }
  }

  /**
   * The English template, "An alert for {{healthRisk/event}} has been
   * triggered by one of your DC. Last report sent from {{village}}. Please
   * check alert list and cross-check alert: {{linkToAlert}}.", cut at its
   * placeholders (the pieces are split only to keep the proofs small).
   */
  const EnglishText := TemplateText(
    "An alert for ",
    " has been triggered" + " by one of your DC." + " Last report" + " sent from ",
    ". Please check" + " alert list and" + " cross-check alert: ",
    ".")

  /** The French template, cut at its placeholders the same way. */
  const FrenchText := TemplateText(
    "Une alerte pour ",
    " a été déclenchée" + " par l'un de vos DC." + " Dernier rapport" + " envoyé par ",
    ". Veuillez vérifier" + " la liste des alertes" + " et recouper" + " l'alerte: ",
    ".")

  /** Both templates' fixed text is free of braces. */
  lemma TemplatesArePlain()
    ensures EnglishText.Plain() && FrenchText.Plain()
  {
    EnglishIsPlain();
    FrenchIsPlain();
  }

  lemma EnglishIsPlain()
    ensures EnglishText.Plain()
  {
    assert '{' !in " has been triggered" + " by one of your DC." + " Last report" + " sent from ";
    assert '{' !in ". Please check" + " alert list and" + " cross-check alert: ";
  }

  lemma FrenchIsPlain()
    ensures FrenchText.Plain()
  {
    assert '{' !in " a été déclenchée";
    assert '{' !in " par l'un de vos DC.";
    assert '{' !in " Dernier rapport";
    assert '{' !in " envoyé par ";
    assert '{' !in ". Veuillez vérifier";
    assert '{' !in " la liste des alertes";
    assert '{' !in " et recouper";
    assert '{' !in " l'alerte: ";
  }

  // -------------------------------------------------------------- language

  /** The ASCII lower case of `c`; other characters are left as they are. */
  function LowerChar(c: char): char {
    if 'A' <= c <= 'Z' then (c as int + 32) as char else c
  }

  /**
   * `ToLower()` on the language code, character by character: no upper-case
   * ASCII letter is left, every other character is kept, and each upper-case
   * one becomes its lower-case letter.
   */
  function ToLower(s: string): (r: string)
    ensures |r| == |s|
    ensures forall i :: 0 <= i < |r| ==> !('A' <= r[i] <= 'Z')
    ensures forall i :: 0 <= i < |s| && !('A' <= s[i] <= 'Z') ==> r[i] == s[i]
    ensures forall i :: 0 <= i < |s| && 'A' <= s[i] <= 'Z' ==> r[i] as int == s[i] as int + 32
  {
    seq(|s|, i requires 0 <= i < |s| => LowerChar(s[i]))
  }

  /** Lower-casing twice is lower-casing once. */
  lemma LowerIdempotent(s: string)
    ensures ToLower(ToLower(s)) == ToLower(s)
  {
  }

  /** A code lower-cases to "en" exactly when it is "en" in any letter case. */
  lemma LowerIsEn(code: string)
    ensures ToLower(code) == "en" <==> |code| == 2 && code[0] in "eE" && code[1] in "nN"
  {
    var lower := ToLower(code);
    if lower == "en" {
      assert LowerChar(code[0]) == 'e' && LowerChar(code[1]) == 'n';
    }
    if |code| == 2 && code[0] in "eE" && code[1] in "nN" {
      assert lower[0] == 'e' && lower[1] == 'n';
    }
  }

  /** `smsTemplate`: English exactly for "en" in any letter case; every other code gets French. */
  function TemplateFor(languageCode: string): (t: TemplateText)
    ensures t == EnglishText <==>
              |languageCode| == 2 && languageCode[0] in "eE" && languageCode[1] in "nN"
    ensures t == EnglishText || t == FrenchText
  {
    LowerIsEn(languageCode);
    assert EnglishText != FrenchText by {
      assert EnglishText.beforeHealthRisk[0] != FrenchText.beforeHealthRisk[0];
    }
    if ToLower(languageCode) == "en" then EnglishText else FrenchText
  }

  // ------------------------------------------------------------------ links

  function DigitChar(d: nat): char
    requires d < 10
  {
    "0123456789"[d]
  }

  predicate IsDigit(c: char) {
    '0' <= c <= '9'
  }

  /** The decimal text of `n`, as C# string interpolation writes an id. */
  function NatToString(n: nat): (s: string)
    ensures |s| > 0 && forall i :: 0 <= i < |s| ==> IsDigit(s[i])
  {
    if n < 10 then [DigitChar(n)] else NatToString(n / 10) + [DigitChar(n % 10)]
  }

  /** The number a string of decimal digits denotes. */
  function ParseNat(s: string): nat
    requires forall i :: 0 <= i < |s| ==> IsDigit(s[i])
  {
    if s == [] then 0
    else
      assert IsDigit(s[|s| - 1]);
      ParseNat(s[..|s| - 1]) * 10 + (s[|s| - 1] as int - '0' as int)
  }

  lemma {:induction false} ParseNatToString(n: nat)
    ensures ParseNat(NatToString(n)) == n
  {
    var s := NatToString(n);
    if n >= 10 {
      ParseNatToString(n / 10);
      assert s[..|s| - 1] == NatToString(n / 10);
    }
  }

  /** The longest prefix of digits, and what follows it. */
  function SplitDigits(s: string): (r: (string, string))
    ensures r.0 + r.1 == s
    ensures forall i :: 0 <= i < |r.0| ==> IsDigit(r.0[i])
    ensures r.1 != [] ==> !IsDigit(r.1[0])
  {
    if s == [] || !IsDigit(s[0]) then ([], s)
    else var (d, rest) := SplitDigits(s[1..]); ([s[0]] + d, rest)
  }

  lemma {:induction false} SplitDigitsOf(d: string, rest: string)
    requires forall i :: 0 <= i < |d| ==> IsDigit(d[i])
    requires rest != [] && !IsDigit(rest[0])
    ensures SplitDigits(d + rest) == (d, rest)
  {
    if d != [] {
      assert (d + rest)[0] == d[0] && IsDigit(d[0]);
      assert (d + rest)[1..] == d[1..] + rest;
      SplitDigitsOf(d[1..], rest);
      assert [d[0]] + d[1..] == d;
    } else {
      assert d + rest == rest;
    }
  }

  /** A literal prefix is recognised and dropped. */
  lemma DropPrefix(p: string, x: string)
    ensures StartsWith(p + x, p) && (p + x)[|p|..] == x
  {
    assert (p + x)[..|p|] == p;
  }

  const ProjectsSegment: string := "projects/"
  const AlertsSegment: string := "/alerts/"
  const AssessSegment: string := "/assess"

  /** `relativeUrl`: the relative path of an alert's assessment page. */
  function AssessPath(projectId: nat, alertId: nat): string {
    ProjectsSegment + (NatToString(projectId) + (AlertsSegment + (NatToString(alertId) + AssessSegment)))
  }

  /** Reads the project and alert ids back out of an assessment path. */
  function ParseAssessPath(path: string): Option<(nat, nat)> {
    if !StartsWith(path, ProjectsSegment) then None
    else
      var (p, rest) := SplitDigits(path[|ProjectsSegment|..]);
      if p == [] || !StartsWith(rest, AlertsSegment) then None
      else
        var (a, tail) := SplitDigits(rest[|AlertsSegment|..]);
        if a == [] || tail != AssessSegment then None
        else Some((ParseNat(p), ParseNat(a)))
  }

  /** The path determines both ids: a link never points at another project's or another alert's page. */
  lemma AssessPathRoundTrip(projectId: nat, alertId: nat)
    ensures ParseAssessPath(AssessPath(projectId, alertId)) == Some((projectId, alertId))
  {
    var p, a := NatToString(projectId), NatToString(alertId);
    var tail := AlertsSegment + (a + AssessSegment);
    DropPrefix(ProjectsSegment, p + tail);
    assert AlertsSegment[0] == '/';
    SplitDigitsOf(p, tail);
    DropPrefix(AlertsSegment, a + AssessSegment);
    assert AssessSegment[0] == '/';
    SplitDigitsOf(a, AssessSegment);
    ParseNatToString(projectId);
    ParseNatToString(alertId);
  }

  // ---------------------------------------------------------------- message

  lemma PlaceholderShapes()
    ensures IsPlaceholder(HealthRiskPlaceholder, 'h')
    ensures IsPlaceholder(VillagePlaceholder, 'v')
    ensures IsPlaceholder(LinkPlaceholder, 'l')
  {
    assert HealthRiskPlaceholder[2..] == "healthRisk/event}}";
    assert VillagePlaceholder[2..] == "village}}";
    assert LinkPlaceholder[2..] == "linkToAlert}}";
  }

  /** The first pass puts `h` in place of the health risk placeholder and nowhere else. */
  lemma FillHealthRisk(t: TemplateText, h: string)
    requires t.Plain()
    ensures ReplaceAll(t.Template(), HealthRiskPlaceholder, h)
         == t.beforeHealthRisk + (h + (t.beforeVillage + (VillagePlaceholder
            + (t.beforeLink + (LinkPlaceholder + t.end)))))
  {
    PlaceholderShapes();
    var H, V, L := HealthRiskPlaceholder, VillagePlaceholder, LinkPlaceholder;
    ReplaceLeavesPlain(t.end, H, h);
    ReplaceSkipsOtherPlaceholder(L, t.end, H, h, 'l', 'h');
    ReplaceSkipsPlain(t.beforeLink, L + t.end, H, h);
    ReplaceSkipsOtherPlaceholder(V, t.beforeLink + (L + t.end), H, h, 'v', 'h');
    ReplaceSkipsPlain(t.beforeVillage, V + (t.beforeLink + (L + t.end)), H, h);
    ReplaceAtPlaceholder(t.beforeVillage + (V + (t.beforeLink + (L + t.end))), H, h);
    ReplaceSkipsPlain(t.beforeHealthRisk, H + (t.beforeVillage + (V + (t.beforeLink + (L + t.end)))), H, h);
  }

  /** The second pass puts `v` in place of the village placeholder and nowhere else. */
  lemma FillVillage(t: TemplateText, h: string, v: string)
    requires t.Plain() && '{' !in h
    ensures ReplaceAll(t.beforeHealthRisk + (h + (t.beforeVillage + (VillagePlaceholder
              + (t.beforeLink + (LinkPlaceholder + t.end))))), VillagePlaceholder, v)
         == t.beforeHealthRisk + (h + (t.beforeVillage + (v
            + (t.beforeLink + (LinkPlaceholder + t.end)))))
  {
    PlaceholderShapes();
    var V, L := VillagePlaceholder, LinkPlaceholder;
    ReplaceLeavesPlain(t.end, V, v);
    ReplaceSkipsOtherPlaceholder(L, t.end, V, v, 'l', 'v');
    ReplaceSkipsPlain(t.beforeLink, L + t.end, V, v);
    ReplaceAtPlaceholder(t.beforeLink + (L + t.end), V, v);
    ReplaceSkipsPlain(t.beforeVillage, V + (t.beforeLink + (L + t.end)), V, v);
    ReplaceSkipsPlain(h, t.beforeVillage + (V + (t.beforeLink + (L + t.end))), V, v);
    ReplaceSkipsPlain(t.beforeHealthRisk, h + (t.beforeVillage + (V + (t.beforeLink + (L + t.end)))), V, v);
  }

  /** The last pass puts `l` in place of the link placeholder. */
  lemma FillLink(t: TemplateText, h: string, v: string, l: string)
    requires t.Plain() && '{' !in h && '{' !in v
    ensures ReplaceAll(t.beforeHealthRisk + (h + (t.beforeVillage + (v
              + (t.beforeLink + (LinkPlaceholder + t.end))))), LinkPlaceholder, l)
         == t.Filled(h, v, l)
  {
    PlaceholderShapes();
    var L := LinkPlaceholder;
    ReplaceLeavesPlain(t.end, L, l);
    ReplaceAtPlaceholder(t.end, L, l);
    ReplaceSkipsPlain(t.beforeLink, L + t.end, L, l);
    ReplaceSkipsPlain(v, t.beforeLink + (L + t.end), L, l);
    ReplaceSkipsPlain(t.beforeVillage, v + (t.beforeLink + (L + t.end)), L, l);
    ReplaceSkipsPlain(h, t.beforeVillage + (v + (t.beforeLink + (L + t.end))), L, l);
    ReplaceSkipsPlain(t.beforeHealthRisk, h + (t.beforeVillage + (v + (t.beforeLink + (L + t.end)))), L, l);
  }

  /** The three `Replace` passes, in order, fill a template whose fixed text has no brace. */
  lemma FillInOrder(t: TemplateText, h: string, v: string, l: string)
    requires t.Plain() && '{' !in h && '{' !in v
    ensures ReplaceAll(ReplaceAll(ReplaceAll(t.Template(), HealthRiskPlaceholder, h), VillagePlaceholder, v), LinkPlaceholder, l)
         == t.Filled(h, v, l)
  {
    FillHealthRisk(t, h);
    FillVillage(t, h, v);
    FillLink(t, h, v, l);
  }

  /**
   * `CreateNotificationMessageForNewAlert`, its text part: the template for
   * `languageCode` with the health risk name, the village of the last report
   * and the link put in, in that order. A missing (null) name or village is
   * removed, as `Replace` does with a null replacement. With names free of
   * braces, the message is the chosen template's fixed text around them.
   */
  function NotificationMessage(languageCode: string, healthRiskName: Option<string>,
                               villageOfLastReport: Option<string>, linkToAlert: string): (message: string)
    ensures var h, v := healthRiskName.GetOr(""), villageOfLastReport.GetOr("");
            '{' !in h && '{' !in v ==>
            message == if |languageCode| == 2 && languageCode[0] in "eE" && languageCode[1] in "nN"
                       then EnglishText.Filled(h, v, linkToAlert)
                       else FrenchText.Filled(h, v, linkToAlert)
  {
    TemplatesArePlain();
    var t, h, v := TemplateFor(languageCode), healthRiskName.GetOr(""), villageOfLastReport.GetOr("");
    var withRisk := ReplaceAll(t.Template(), HealthRiskPlaceholder, h);
    var withVillage := ReplaceAll(withRisk, VillagePlaceholder, v);
    var message := ReplaceAll(withVillage, LinkPlaceholder, linkToAlert);
    if '{' !in h && '{' !in v then
      FillInOrder(t, h, v, linkToAlert);
      message
    else message
  }

  /**
   * What the alert query reads: the project, the health risk name and the
   * village of the last report (each `None` when null), and the content
   * language's code, which the schema allows to be null.
   */
  datatype AlertData = AlertData(projectId: nat, healthRiskName: Option<string>,
                                 languageCode: Option<string>, villageOfLastReport: Option<string>)

  /** The `NullReferenceException`s of `CreateNotificationMessageForNewAlert`. */
  datatype MessageError =
    | AlertNotFound     // `FirstOrDefaultAsync` found no alert, so `alertData` is null
    | NullLanguageCode  // `ToLower()` on a null language code

  /**
   * `CreateNotificationMessageForNewAlert` on the result of its query: it
   * throws when the alert was not found or its language code is null, and
   * otherwise fills the template.
   */
  function CreateNotificationMessage(alertData: Option<AlertData>, linkToAlert: string): (r: Result<string, MessageError>)
    ensures alertData.None? <==> r == Err(AlertNotFound)
    ensures r.Err? <==> alertData.None? || alertData.value.languageCode.None?
    ensures r.Ok? ==>
              var d := alertData.value;
              var h, v := d.healthRiskName.GetOr(""), d.villageOfLastReport.GetOr("");
              '{' !in h && '{' !in v ==> r.value == TemplateFor(d.languageCode.value).Filled(h, v, linkToAlert)
  {
    match alertData
    case None => Err(AlertNotFound)
    case Some(d) =>
      if d.languageCode.None? then Err(NullLanguageCode)
      else Ok(NotificationMessage(d.languageCode.value, d.healthRiskName, d.villageOfLastReport, linkToAlert))
  }

  /**
   * The placeholders are filled in sequence, so a health risk name that
   * itself contains `{{village}}` gets the village name inside it.
   */
  lemma NameContainingPlaceholderIsFilledAgain(village: string, link: string)
    requires '{' !in village
    ensures NotificationMessage("en", Some(VillagePlaceholder), Some(village), link)
         == EnglishText.Filled(village, village, link)
  {
    TemplatesArePlain();
    PlaceholderShapes();
    LowerIsEn("en");
    var t, V, L := EnglishText, VillagePlaceholder, LinkPlaceholder;
    FillHealthRisk(t, V);
    ReplaceLeavesPlain(t.end, V, village);
    ReplaceSkipsOtherPlaceholder(L, t.end, V, village, 'l', 'v');
    ReplaceSkipsPlain(t.beforeLink, L + t.end, V, village);
    ReplaceAtPlaceholder(t.beforeLink + (L + t.end), V, village);
    ReplaceSkipsPlain(t.beforeVillage, V + (t.beforeLink + (L + t.end)), V, village);
    ReplaceAtPlaceholder(t.beforeVillage + (V + (t.beforeLink + (L + t.end))), V, village);
    ReplaceSkipsPlain(t.beforeHealthRisk, V + (t.beforeVillage + (V + (t.beforeLink + (L + t.end)))), V, village);
    FillLink(t, village, village, link);
  }
}
