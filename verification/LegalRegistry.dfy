/** The registry of legal document releases: its validator, and what acceptance means for the whole list. */
module LegalRegistry {
  import opened Wrappers
  import opened CivilCalendar
  import opened CivilText
  import opened Texts

  datatype Release = Release(
    code: string,
    revision: string,
    effectiveDate: string,
    status: string,
    operatorProfileId: string,
    routes: seq<(string, string)>,
    supersedes: Option<string>)

  datatype RegistryError =
    | InvalidCode
    | InvalidStatus
    | InvalidRevision
    | InvalidDate
    | UnknownOperator
    | DuplicateRelease
    | BadRoutes
    | DuplicateRoute
    | MultipleActive
    | UnknownSupersedes
    | SupersedesNotOlder
    | ConsentMismatch

  const DOCUMENT_CODES: seq<string> := [
    "MKR-PD-01", "MKR-PD-02", "MKR-LIC-01", "MKR-ADV-01", "MKR-PD-03", "MKR-PUB-01", "MKR-DPA-01", "MKR-BRD-01",
    "MKR-INS-01", "MKR-INS-02", "MKR-INS-03", "MKR-INS-04", "MKR-INS-08", "MKR-INS-09", "MKR-INS-10",
    "MKR-INS-12", "MKR-INS-13", "MKR-INS-14"]

  const STATUSES: seq<string> := ["draft", "active", "superseded", "withdrawn"]

  const OPERATORS: seq<string> := ["operator-2026-08-15", "operator-2026-10-30"]

  const RUSSIAN_ONLY: seq<string> := ["MKR-LIC-01", "MKR-ADV-01", "MKR-PD-03", "MKR-PUB-01"]

  const CONSENT_CODE: string := "MKR-PD-02"
  const CURRENT_CONSENT: string := "MKR-PD-02/2026.10/01"

  /** The languages in which a document of this code is published. */
  function Locales(code: string): seq<string> {
    if code in RUSSIAN_ONLY then ["ru"] else ["ru", "en"]
  }

  function Key(r: Release): string { r.code + "/" + r.revision }

  datatype Revision = Revision(year: nat, month: nat, sequence: nat)

  /** YYYY.MM/NN with a month of the year and a sequence from 01 to 99. */
  function ParseRevision(s: string): Option<Revision> {
    if |s| == 10 && s[4] == '.' && s[7] == '/' && AllDigits(s[..4]) && AllDigits(s[5..7]) && AllDigits(s[8..])
       && 1 <= NumberOf(s[5..7]) <= 12 && 1 <= NumberOf(s[8..])
    then Some(Revision(NumberOf(s[..4]), NumberOf(s[5..7]), NumberOf(s[8..])))
    else None
  }

  /** The sign of the comparison: by year, then month, then sequence. */
  function CompareRevisions(a: Revision, b: Revision): int {
    if a.year != b.year then a.year - b.year
    else if a.month != b.month then a.month - b.month
    else a.sequence - b.sequence
  }

  /** The comparison decides that order. */
  lemma ComparisonSign(a: Revision, b: Revision)
    ensures CompareRevisions(a, b) < 0 <==> Earlier(a, b)
    ensures CompareRevisions(a, b) > 0 <==> Earlier(b, a)
    ensures CompareRevisions(a, b) == 0 <==> a == b
  {
  }

  function RevisionText(v: Revision): string {
    Digits(v.year, 4) + "." + Digits(v.month, 2) + "/" + Digits(v.sequence, 2)
  }

  /** Which texts are revisions, and of what. */
  lemma RevisionTextIff(s: string, v: Revision)
    ensures ParseRevision(s) == Some(v) <==>
      s == RevisionText(v) && v.year <= 9_999 && 1 <= v.month <= 12 && 1 <= v.sequence <= 99
  {
    hide Digits, NumberOf, Pow10;
    PowTable();
    if ParseRevision(s) == Some(v) {
      NumberDigits(s[..4]);
      NumberDigits(s[5..7]);
      NumberDigits(s[8..]);
      assert s == s[..4] + "." + s[5..7] + "/" + s[8..];
    }
    if s == RevisionText(v) && v.year <= 9_999 && 1 <= v.month <= 12 && 1 <= v.sequence <= 99 {
      DigitsNumber(v.year, 4);
      DigitsNumber(v.month, 2);
      DigitsNumber(v.sequence, 2);
      RevisionFields(Digits(v.year, 4), Digits(v.month, 2), Digits(v.sequence, 2));
    }
  }

  lemma RevisionFields(y: string, m: string, n: string)
    requires |y| == 4 && |m| == 2 && |n| == 2
    ensures var s := y + "." + m + "/" + n;
      |s| == 10 && s[..4] == y && s[5..7] == m && s[8..] == n && s[4] == '.' && s[7] == '/'
  {
  }

  /** Date.UTC(year, month - 1, day) as a day number: two-digit years count from 1900, and months and days overflow. */
  function UtcDay(year: int, month: int, day: int): int {
    var y := if 0 <= year <= 99 then 1900 + year else year;
    DayNumber(Civil(y + (month - 1) / 12, (month - 1) % 12 + 1, 1)) + day - 1
  }

  /** The effective date survives the trip through Date. */
  predicate IsEffectiveDate(s: string) {
    HasDateShape(s) &&
    var c := Civil(NumberOf(s[..4]), NumberOf(s[5..7]), NumberOf(s[8..]));
    CivilFromDay(UtcDay(c.year, c.month, c.day)) == c
  }

  /** Which texts that means: dates of the calendar from the year 100 on. */
  lemma EffectiveDateIff(s: string)
    ensures IsEffectiveDate(s) <==> Parse(s).Some? && Parse(s).value.year >= 100
  {
    hide UtcDay, CivilFromDay, NumberOf;
    if HasDateShape(s) {
      SurvivesIff(Civil(NumberOf(s[..4]), NumberOf(s[5..7]), NumberOf(s[8..])));
    }
  }

  /** A date of the calendar that the registry refuses, because Date.UTC takes its year for 1950. */
  lemma YearFiftyIsRefused()
    ensures Parse("0050-01-01") == Some(Civil(50, 1, 1)) && !IsEffectiveDate("0050-01-01")
  {
    hide IsEffectiveDate, NumberOf;
    var s := "0050-01-01";
    assert s[..4] == "0050" && s[5..7] == "01" && s[8..] == "01";
    ShortNumbers();
    EffectiveDateIff(s);
  }

  lemma ShortNumbers()
    ensures NumberOf("0050") == 50 && NumberOf("01") == 1
  {
    assert "0050"[..3] == "005" && "005"[..2] == "00" && "00"[..1] == "0" && "01"[..1] == "0" && "0"[..0] == "";
    assert NumberOf("0") == 0;
    assert NumberOf("00") == 0;
    assert NumberOf("005") == 5;
  }

  /** Date.UTC reads a civil date back exactly when it is one of the calendar and has a year of three digits or more. */
  lemma SurvivesIff(c: Civil)
    requires 0 <= c.year
    ensures CivilFromDay(UtcDay(c.year, c.month, c.day)) == c <==> ValidCivil(c) && c.year >= 100
  {
    hide CivilFromDay, DayNumber;
    if ValidCivil(c) {
      assert (c.month - 1) / 12 == 0 && (c.month - 1) % 12 == c.month - 1;
      if 100 <= c.year {
        FirstOfMonth(c);
        CivilRoundTrip(c);
      } else {
        var later := c.(year := 1900 + c.year);
        LaterYear(c);
        FirstOfMonth(later);
      }
    }
  }

  lemma FirstOfMonth(c: Civil)
    requires 1 <= c.month <= 12
    ensures DayNumber(c.(day := 1)) + c.day - 1 == DayNumber(c)
  {
  }

  lemma LaterYear(c: Civil)
    requires ValidCivil(c) && 0 <= c.year <= 99
    ensures DayNumber(c) < DayNumber(c.(year := 1900 + c.year))
  {
    YearStep(c.year);
    MonthTable(c.year);
    MonthTable(1900 + c.year);
    YearsGrow(c.year, 1900 + c.year);
    YearsGrow(c.year + 1, 1900 + c.year);
    if c.month < 13 { MonthsGrow(c.year, c.month, 13); }
    if c.month > 1 { MonthsGrow(1900 + c.year, 1, c.month); }
  }

  predicate Includes(s: string, part: string) {
    StartsWith(s, part) || (s != "" && Includes(s[1..], part))
  }

  predicate OccursAt(s: string, part: string, k: nat) {
    k + |part| <= |s| && s[k..k + |part|] == part
  }

  /** String.prototype.includes. */
  lemma {:induction false} IncludesIff(s: string, part: string)
    ensures Includes(s, part) <==> exists k: nat :: OccursAt(s, part, k)
  {
    if StartsWith(s, part) {
      assert OccursAt(s, part, 0);
    } else if s == "" {
    } else {
      IncludesIff(s[1..], part);
      if k: nat :| OccursAt(s, part, k) {
        assert k > 0 && s[1..][k - 1..k - 1 + |part|] == s[k..k + |part|];
        assert OccursAt(s[1..], part, k - 1);
      }
      if k: nat :| OccursAt(s[1..], part, k) {
        assert s[1..][k..k + |part|] == s[k + 1..k + 1 + |part|];
        assert OccursAt(s, part, k + 1);
      }
    }
  }

  predicate RouteOk(locale: string, route: string) {
    && StartsWith(route, "/") && route[|route| - 1] == '/' && !Includes(route, "://")
    && (locale == "en" ==> StartsWith(route, "/en/"))
    && (locale == "ru" ==> !StartsWith(route, "/en/"))
  }

  predicate HasLocale(routes: seq<(string, string)>, locale: string) {
    exists k :: 0 <= k < |routes| && routes[k].0 == locale
  }

  predicate RoutesOk(code: string, routes: seq<(string, string)>) {
    && |routes| == |Locales(code)|
    && (forall l :: l in Locales(code) ==> HasLocale(routes, l))
    && (forall k :: 0 <= k < |routes| ==> RouteOk(routes[k].0, routes[k].1))
  }

  /** An object has each of its keys once. */
  predicate DistinctLocales(routes: seq<(string, string)>) {
    forall a, b :: 0 <= a < b < |routes| ==> routes[a].0 != routes[b].0
  }

  /** The checks that look at one release only. */
  predicate ValidRelease(r: Release) { FieldsOk(r) && RoutesOk(r.code, r.routes) }

  predicate FieldsOk(r: Release) {
    && r.code in DOCUMENT_CODES
    && r.status in STATUSES
    && ParseRevision(r.revision).Some?
    && IsEffectiveDate(r.effectiveDate)
    && r.operatorProfileId in OPERATORS
  }

  function RouteTexts(releases: seq<Release>): seq<string> {
    if releases == [] then []
    else RouteTexts(releases[..|releases| - 1]) + Values(releases[|releases| - 1].routes)
  }

  function Values(routes: seq<(string, string)>): (r: seq<string>)
    ensures |r| == |routes| && forall k :: 0 <= k < |r| ==> r[k] == routes[k].1
  {
    seq(|routes|, k requires 0 <= k < |routes| => routes[k].1)
  }

  predicate Distinct(texts: seq<string>) {
    forall a, b :: 0 <= a < b < |texts| ==> texts[a] != texts[b]
  }

  predicate IsActive(r: Release) { r.status == "active" }

  predicate KeysDistinct(releases: seq<Release>) {
    forall a, b :: 0 <= a < b < |releases| ==> Key(releases[a]) != Key(releases[b])
  }

  predicate OneActivePerCode(releases: seq<Release>) {
    forall a, b :: 0 <= a < b < |releases| && IsActive(releases[a]) && IsActive(releases[b]) ==>
      releases[a].code != releases[b].code
  }

  /** Release r names an older release of the list, or none. */
  predicate SupersedesOk(releases: seq<Release>, r: Release) {
    r.supersedes.Some? && r.supersedes.value != "" ==>
      exists q :: q in releases && Key(q) == r.supersedes.value && Older(q, r)
  }

  /** By year, then by month, then by sequence. */
  predicate Earlier(a: Revision, b: Revision) {
    || a.year < b.year
    || (a.year == b.year && a.month < b.month)
    || (a.year == b.year && a.month == b.month && a.sequence < b.sequence)
  }

  predicate Older(q: Release, r: Release) {
    var a, b := ParseRevision(q.revision), ParseRevision(r.revision);
    a.Some? && b.Some? && Earlier(a.value, b.value)
  }

  /** What an acceptable list is, independently of how it is checked. */
  predicate Acceptable(releases: seq<Release>) {
    && (forall r :: r in releases ==> ValidRelease(r))
    && KeysDistinct(releases)
    && Distinct(RouteTexts(releases))
    && OneActivePerCode(releases)
    && (forall r :: r in releases ==> SupersedesOk(releases, r))
    && HasCurrentConsent(releases)
  }

  predicate HasCurrentConsent(releases: seq<Release>) {
    exists r :: r in releases && r.code == CONSENT_CODE && IsActive(r) && Key(r) == CURRENT_CONSENT
  }

  /** The defect an error of one release reports. */
  predicate FieldError(r: Release, e: RegistryError) {
    match e
    case InvalidCode => r.code !in DOCUMENT_CODES
    case InvalidStatus => r.status !in STATUSES
    case InvalidRevision => ParseRevision(r.revision).None?
    case InvalidDate => !IsEffectiveDate(r.effectiveDate)
    case UnknownOperator => r.operatorProfileId !in OPERATORS
    case BadRoutes => !RoutesOk(r.code, r.routes)
    case _ => false
  }

  /** The defect a reference of one release reports. */
  predicate ReferenceError(releases: seq<Release>, r: Release, e: RegistryError) {
    && r.supersedes.Some? && r.supersedes.value != ""
    && match e
       case UnknownSupersedes => forall q :: q in releases ==> Key(q) != r.supersedes.value
       case SupersedesNotOlder => exists q :: q in releases && Key(q) == r.supersedes.value && !Older(q, r)
       case _ => false
  }

  /** The list really has the defect that the error names. */
  predicate HasDefect(releases: seq<Release>, e: RegistryError) {
    match e
    case DuplicateRelease => !KeysDistinct(releases)
    case DuplicateRoute => !Distinct(RouteTexts(releases))
    case MultipleActive => !OneActivePerCode(releases)
    case ConsentMismatch => !HasCurrentConsent(releases)
    case _ => exists r :: r in releases && (FieldError(r, e) || ReferenceError(releases, r, e))
  }

  // The validator.

  method AssertLocaleRoutes(code: string, routes: seq<(string, string)>) returns (ok: bool)
    ensures ok <==> RoutesOk(code, routes)
  {
    var expected := Locales(code);
    if |routes| != |expected| {
      return false;
    }
    for i := 0 to |expected|
      invariant forall l :: l in expected[..i] ==> HasLocale(routes, l)
    {
      if !HasLocale(routes, expected[i]) {
        assert expected[i] in expected;
        return false;
      }
    }
    assert expected[..|expected|] == expected;
    for i := 0 to |routes|
      invariant forall k :: 0 <= k < i ==> RouteOk(routes[k].0, routes[k].1)
    {
      var (locale, route) := routes[i];
      if !StartsWith(route, "/") || route[|route| - 1] != '/' || Includes(route, "://") {
        return false;
      }
      if locale == "en" && !StartsWith(route, "/en/") {
        return false;
      }
      if locale == "ru" && StartsWith(route, "/en/") {
        return false;
      }
    }
    return true;
  }

  lemma CodeLetters(code: string)
    requires code in DOCUMENT_CODES
    ensures '/' !in code
  {
    var k :| 0 <= k < |DOCUMENT_CODES| && DOCUMENT_CODES[k] == code;
    assert '/' !in "MKR-PD-01" && '/' !in "MKR-PD-02" && '/' !in "MKR-LIC-01" && '/' !in "MKR-ADV-01";
    assert '/' !in "MKR-PD-03" && '/' !in "MKR-PUB-01" && '/' !in "MKR-DPA-01" && '/' !in "MKR-BRD-01";
    assert '/' !in "MKR-INS-01" && '/' !in "MKR-INS-02" && '/' !in "MKR-INS-03" && '/' !in "MKR-INS-04";
    assert '/' !in "MKR-INS-08" && '/' !in "MKR-INS-09" && '/' !in "MKR-INS-10" && '/' !in "MKR-INS-12";
    assert '/' !in "MKR-INS-13" && '/' !in "MKR-INS-14";
  }

  /** The revision cut out of a release key is that of the release. */
  lemma KeyRevision(q: Release)
    requires q.code in DOCUMENT_CODES
    ensures Key(q)[IndexOf(Key(q), '/') + 1..] == q.revision
    ensures Key(q) != ""
  {
    hide DOCUMENT_CODES;
    CodeLetters(q.code);
    assert "/" == ['/'];
    FoundAfter(q.code, '/', q.revision);
  }

  lemma RouteTextsSnoc(releases: seq<Release>, i: nat)
    requires i < |releases|
    ensures RouteTexts(releases[..i + 1]) == RouteTexts(releases[..i]) + Values(releases[i].routes)
  {
    assert releases[..i + 1][..i] == releases[..i];
  }

  lemma {:induction false} RouteTextsPrefix(releases: seq<Release>, i: nat)
    requires i <= |releases|
    ensures RouteTexts(releases[..i]) <= RouteTexts(releases)
    decreases |releases| - i
  {
    if i == |releases| {
      assert releases[..i] == releases;
    } else {
      RouteTextsSnoc(releases, i);
      RouteTextsPrefix(releases, i + 1);
    }
  }

  lemma DistinctPrefix(a: seq<string>, b: seq<string>)
    requires a <= b && Distinct(b)
    ensures Distinct(a)
  {
    forall i, j | 0 <= i < j < |a| ensures a[i] != a[j] {
      assert a[i] == b[i] && a[j] == b[j];
    }
  }

  /** What the first loop knows after i releases. */
  ghost predicate Scanned(releases: seq<Release>, i: nat, keys: set<string>, routes: set<string>, active: set<string>)
    requires i <= |releases|
  {
    && (forall k :: 0 <= k < i ==> ValidRelease(releases[k]))
    && KeysDistinct(releases[..i])
    && (forall s :: s in keys <==> exists k :: 0 <= k < i && Key(releases[k]) == s)
    && Distinct(RouteTexts(releases[..i]))
    && (forall s :: s in routes <==> s in RouteTexts(releases[..i]))
    && OneActivePerCode(releases[..i])
    && (forall s :: s in active <==> exists k :: 0 <= k < i && IsActive(releases[k]) && releases[k].code == s)
  }

  /** Adds the routes of a release, one by one. */
  method AddRoutes(known: seq<string>, routes: set<string>, values: seq<string>)
    returns (all: set<string>, ok: bool)
    requires Distinct(known) && forall s :: s in routes <==> s in known
    ensures ok <==> Distinct(known + values)
    ensures ok ==> forall s :: s in all <==> s in known + values
  {
    all := routes;
    for j := 0 to |values|
      invariant Distinct(known + values[..j])
      invariant forall s :: s in all <==> s in known + values[..j]
    {
      var route := values[j];
      var before := known + values[..j];
      assert values[..j + 1] == values[..j] + [route];
      assert known + values[..j + 1] == before + [route];
      if route in all {
        var k :| 0 <= k < |before| && before[k] == route;
        assert (known + values)[k] == before[k] && (known + values)[|before|] == route;
        return all, false;
      }
      all := all + {route};
    }
    assert values[..|values|] == values;
    ok := true;
  }

  /** The first loop's checks of one release. */
  method CheckRelease(r: Release) returns (e: Option<RegistryError>)
    ensures e.None? <==> FieldsOk(r)
    ensures e.Some? ==> FieldError(r, e.value)
  {
    if r.code !in DOCUMENT_CODES { return Some(InvalidCode); }
    if r.status !in STATUSES { return Some(InvalidStatus); }
    if ParseRevision(r.revision).None? { return Some(InvalidRevision); }
    if !IsEffectiveDate(r.effectiveDate) { return Some(InvalidDate); }
    if r.operatorProfileId !in OPERATORS { return Some(UnknownOperator); }
    return None;
  }

  lemma ScannedStep(releases: seq<Release>, i: nat, keys: set<string>, routes: set<string>, active: set<string>,
                    routes': set<string>)
    requires i < |releases| && Scanned(releases, i, keys, routes, active) && ValidRelease(releases[i])
    requires Key(releases[i]) !in keys
    requires Distinct(RouteTexts(releases[..i + 1])) && forall s :: s in routes' <==> s in RouteTexts(releases[..i + 1])
    requires IsActive(releases[i]) ==> releases[i].code !in active
    ensures Scanned(releases, i + 1, keys + {Key(releases[i])}, routes',
                    if IsActive(releases[i]) then active + {releases[i].code} else active)
  {
    hide ValidRelease, Distinct, RouteTexts, Key, IsActive;
    var r := releases[i];
    var before, next := releases[..i], releases[..i + 1];
    forall a, b | 0 <= a < b < i + 1 ensures Key(next[a]) != Key(next[b]) {
      if b < i {
        assert Key(before[a]) != Key(before[b]);
      } else {
        assert Key(releases[a]) in keys;
      }
    }
    forall a, b | 0 <= a < b < i + 1 && IsActive(next[a]) && IsActive(next[b]) ensures next[a].code != next[b].code {
      if b < i {
        assert IsActive(before[a]) && IsActive(before[b]);
      } else {
        assert releases[a].code in active;
      }
    }
    forall s ensures s in keys + {Key(r)} <==> exists k :: 0 <= k < i + 1 && Key(releases[k]) == s {
      if s == Key(r) { assert Key(releases[i]) == s; }
    }
    var active' := if IsActive(r) then active + {r.code} else active;
    forall s ensures s in active' <==> exists k :: 0 <= k < i + 1 && IsActive(releases[k]) && releases[k].code == s {
      if IsActive(r) && s == r.code { assert IsActive(releases[i]) && releases[i].code == s; }
    }
  }

  /** The second loop: every reference names an older release of the list. */
  method CheckSupersedes(releases: seq<Release>, releaseKeys: set<string>) returns (e: Option<RegistryError>)
    requires KeysDistinct(releases) && forall x :: x in releases ==> ValidRelease(x)
    requires forall s :: s in releaseKeys <==> exists k :: 0 <= k < |releases| && Key(releases[k]) == s
    ensures e.None? <==> forall x :: x in releases ==> SupersedesOk(releases, x)
    ensures e.Some? ==> exists x :: x in releases && ReferenceError(releases, x, e.value)
  {
    hide KeysDistinct, ValidRelease, Older, Key, SupersedesOk;
    for i := 0 to |releases|
      invariant forall k :: 0 <= k < i ==> SupersedesOk(releases, releases[k])
    {
      var release := releases[i];
      assert release in releases;
      if release.supersedes.Some? && release.supersedes.value != "" {
        var key := release.supersedes.value;
        if key !in releaseKeys {
          NoSuchKey(releases, release);
          return Some(UnknownSupersedes);
        }
        ghost var k :| 0 <= k < |releases| && Key(releases[k]) == key;
        OlderByKey(releases, release, k);
        CutRevision(releases[k], release);
        var superseded := ParseRevision(key[IndexOf(key, '/') + 1..]).value;
        if CompareRevisions(superseded, ParseRevision(release.revision).value) >= 0 {
          assert releases[k] in releases;
          return Some(SupersedesNotOlder);
        }
      } else {
        NoReference(releases, release);
      }
    }
    return None;
  }

  lemma NoReference(releases: seq<Release>, r: Release)
    requires r.supersedes.None? || r.supersedes.value == ""
    ensures SupersedesOk(releases, r)
  {
  }

  /** The text after the slash of q's key is what the comparison with r needs. */
  lemma CutRevision(q: Release, r: Release)
    requires ValidRelease(q) && ValidRelease(r)
    ensures ParseRevision(r.revision).Some?
    ensures ParseRevision(Key(q)[IndexOf(Key(q), '/') + 1..]).Some?
    ensures CompareRevisions(ParseRevision(Key(q)[IndexOf(Key(q), '/') + 1..]).value,
                             ParseRevision(r.revision).value) < 0
            <==> Older(q, r)
  {
    hide DOCUMENT_CODES, STATUSES, OPERATORS, IsEffectiveDate, RoutesOk, Key, ParseRevision, IndexOf, Earlier,
      CompareRevisions;
    KeyRevision(q);
    ComparisonSign(ParseRevision(q.revision).value, ParseRevision(r.revision).value);
  }

  method ValidateLegalRegistry(releases: seq<Release>) returns (r: Result<(), RegistryError>)
    requires forall x :: x in releases ==> DistinctLocales(x.routes)
    ensures r.Ok? <==> Acceptable(releases)
    ensures r.Err? ==> HasDefect(releases, r.error)
  {
    hide ValidRelease, RoutesOk, KeysDistinct, OneActivePerCode, Distinct, RouteTexts, Key, SupersedesOk, Scanned,
      IsActive, FieldsOk, FieldError, ReferenceError, HasCurrentConsent;
    var releaseKeys: set<string>, routes: set<string>, activeCodes: set<string> := {}, {}, {};
    ScannedNone(releases);
    for i := 0 to |releases|
      invariant Scanned(releases, i, releaseKeys, routes, activeCodes)
    {
      var release := releases[i];
      var e := CheckRelease(release);
      if e.Some? {
        InvalidRelease(releases, i, e.value);
        return Err(e.value);
      }
      var key := Key(release);
      if key in releaseKeys {
        DuplicateKey(releases, i, releaseKeys, routes, activeCodes);
        return Err(DuplicateRelease);
      }
      var localesOk := AssertLocaleRoutes(release.code, release.routes);
      if !localesOk {
        BadRoutesError(release);
        InvalidRelease(releases, i, BadRoutes);
        return Err(BadRoutes);
      }
      ScannedRoutes(releases, i, releaseKeys, routes, activeCodes);
      RouteTextsSnoc(releases, i);
      RouteTextsPrefix(releases, i + 1);
      var all, fresh' := AddRoutes(RouteTexts(releases[..i]), routes, Values(release.routes));
      if !fresh' {
        if Distinct(RouteTexts(releases)) {
          DistinctPrefix(RouteTexts(releases[..i + 1]), RouteTexts(releases));
        }
        return Err(DuplicateRoute);
      }
      if IsActive(release) && release.code in activeCodes {
        SecondActive(releases, i, releaseKeys, routes, activeCodes);
        return Err(MultipleActive);
      }
      ValidFrom(release);
      ScannedStep(releases, i, releaseKeys, routes, activeCodes, all);
      releaseKeys := releaseKeys + {key};
      routes := all;
      if IsActive(release) {
        activeCodes := activeCodes + {release.code};
      }
    }
    ScannedAll(releases, releaseKeys, routes, activeCodes);
    var e := CheckSupersedes(releases, releaseKeys);
    if e.Some? {
      ReferenceDefect(releases, e.value);
      return Err(e.value);
    }
    var activeConsent := FindActiveConsent(releases);
    if activeConsent.None? || Key(activeConsent.value) != CURRENT_CONSENT {
      return Err(ConsentMismatch);
    }
    return Ok(());
  }

  lemma ScannedNone(releases: seq<Release>)
    ensures Scanned(releases, 0, {}, {}, {})
  {
  }

  lemma ScannedRoutes(releases: seq<Release>, i: nat, keys: set<string>, routes: set<string>, active: set<string>)
    requires i <= |releases| && Scanned(releases, i, keys, routes, active)
    ensures Distinct(RouteTexts(releases[..i])) && forall s :: s in routes <==> s in RouteTexts(releases[..i])
  {
  }

  lemma ReferenceDefect(releases: seq<Release>, e: RegistryError)
    requires exists x :: x in releases && ReferenceError(releases, x, e)
    ensures HasDefect(releases, e)
  {
    hide Older, Key;
  }

  lemma BadRoutesError(r: Release)
    requires !RoutesOk(r.code, r.routes)
    ensures FieldError(r, BadRoutes)
  {
  }

  lemma ValidFrom(r: Release)
    requires FieldsOk(r) && RoutesOk(r.code, r.routes)
    ensures ValidRelease(r)
  {
  }

  lemma InvalidRelease(releases: seq<Release>, i: nat, e: RegistryError)
    requires i < |releases| && FieldError(releases[i], e)
    ensures !Acceptable(releases) && HasDefect(releases, e)
  {
    hide IsEffectiveDate, ParseRevision, RoutesOk, DOCUMENT_CODES;
    assert releases[i] in releases;
    assert !ValidRelease(releases[i]);
  }

  lemma DuplicateKey(releases: seq<Release>, i: nat, keys: set<string>, routes: set<string>, active: set<string>)
    requires i < |releases| && Scanned(releases, i, keys, routes, active) && Key(releases[i]) in keys
    ensures !KeysDistinct(releases)
  {
    var k :| 0 <= k < i && Key(releases[k]) == Key(releases[i]);
  }

  lemma SecondActive(releases: seq<Release>, i: nat, keys: set<string>, routes: set<string>, active: set<string>)
    requires i < |releases| && Scanned(releases, i, keys, routes, active)
    requires IsActive(releases[i]) && releases[i].code in active
    ensures !OneActivePerCode(releases)
  {
    var k :| 0 <= k < i && IsActive(releases[k]) && releases[k].code == releases[i].code;
  }

  lemma ScannedAll(releases: seq<Release>, keys: set<string>, routes: set<string>, active: set<string>)
    requires Scanned(releases, |releases|, keys, routes, active)
    ensures forall r :: r in releases ==> ValidRelease(r)
    ensures KeysDistinct(releases) && Distinct(RouteTexts(releases)) && OneActivePerCode(releases)
    ensures forall s :: s in keys <==> exists k :: 0 <= k < |releases| && Key(releases[k]) == s
  {
    assert releases[..|releases|] == releases;
  }

  lemma NoSuchKey(releases: seq<Release>, r: Release)
    requires r.supersedes.Some? && r.supersedes.value != ""
    requires forall k :: 0 <= k < |releases| ==> Key(releases[k]) != r.supersedes.value
    ensures !SupersedesOk(releases, r)
  {
    hide Key, Older;
  }

  /** With distinct keys the reference is decided by the revision of the one release it names. */
  lemma OlderByKey(releases: seq<Release>, r: Release, k: nat)
    requires k < |releases| && r in releases && KeysDistinct(releases)
    requires forall x :: x in releases ==> ValidRelease(x)
    requires r.supersedes.Some? && r.supersedes.value != "" && Key(releases[k]) == r.supersedes.value
    ensures SupersedesOk(releases, r) <==> Older(releases[k], r)
  {
    hide ValidRelease, Older, Key;
    if SupersedesOk(releases, r) {
      var q :| q in releases && Key(q) == r.supersedes.value && Older(q, r);
      var j :| 0 <= j < |releases| && releases[j] == q;
      assert j == k;
    }
    if Older(releases[k], r) {
      assert releases[k] in releases;
    }
  }

  /** releases.find: the first active consent. */
  method FindActiveConsent(releases: seq<Release>) returns (found: Option<Release>)
    requires forall r :: r in releases ==> ValidRelease(r)
    requires OneActivePerCode(releases)
    ensures found.Some? ==> found.value in releases
    ensures HasCurrentConsent(releases) <==> found.Some? && Key(found.value) == CURRENT_CONSENT
  {
    hide ValidRelease, Key;
    for i := 0 to |releases|
      invariant forall k :: 0 <= k < i ==> !(releases[k].code == CONSENT_CODE && IsActive(releases[k]))
    {
      if releases[i].code == CONSENT_CODE && IsActive(releases[i]) {
        forall r | r in releases && r.code == CONSENT_CODE && IsActive(r) ensures r == releases[i] {
          var k :| 0 <= k < |releases| && releases[k] == r;
        }
        return Some(releases[i]);
      }
    }
    return None;
  }

  // What acceptance means.

  /** Release i replaces release j. */
  predicate Replaces(releases: seq<Release>, i: nat, j: nat) {
    && i < |releases| && j < |releases|
    && releases[i].supersedes == Some(Key(releases[j]))
  }

  predicate IsChain(releases: seq<Release>, chain: seq<nat>) {
    && (forall k :: 0 <= k < |chain| ==> chain[k] < |releases|)
    && (forall k :: 0 <= k < |chain| - 1 ==> Replaces(releases, chain[k], chain[k + 1]))
  }

  /** A number that orders revisions. */
  function Rank(r: Release): int {
    match ParseRevision(r.revision)
    case None => 0
    case Some(v) => v.year * 10_000 + v.month * 100 + v.sequence
  }

  lemma ReplacedIsOlder(releases: seq<Release>, i: nat, j: nat)
    requires Acceptable(releases) && Replaces(releases, i, j)
    ensures Rank(releases[j]) < Rank(releases[i])
  {
    hide DOCUMENT_CODES, STATUSES, IsEffectiveDate, RoutesOk, RouteTexts, Key, ParseRevision;
    assert releases[i] in releases && releases[j] in releases;
    assert ValidRelease(releases[i]) && ValidRelease(releases[j]);
    KeyRevision(releases[j]);
    OlderByKey(releases, releases[i], j);
    RevisionRange(releases[i].revision);
    RevisionRange(releases[j].revision);
  }

  /** For releases with valid revisions, being older is having the smaller number. */
  lemma OlderIff(q: Release, r: Release)
    requires ParseRevision(q.revision).Some? && ParseRevision(r.revision).Some?
    ensures Older(q, r) <==> Rank(q) < Rank(r)
  {
    hide ParseRevision;
    RevisionRange(q.revision);
    RevisionRange(r.revision);
  }

  lemma RevisionRange(s: string)
    requires ParseRevision(s).Some?
    ensures ParseRevision(s).value.month <= 12 && ParseRevision(s).value.sequence <= 99
  {
    NumberDigits(s[8..]);
    assert Pow10(2) == 100;
  }

  /** Along every chain of replacements the revisions strictly decrease. */
  lemma {:induction false} ChainsDecrease(releases: seq<Release>, chain: seq<nat>, a: nat, b: nat)
    requires Acceptable(releases) && IsChain(releases, chain) && a < b < |chain|
    ensures Rank(releases[chain[b]]) < Rank(releases[chain[a]])
    decreases b
  {
    hide Acceptable, Rank, Replaces;
    assert Replaces(releases, chain[b - 1], chain[b]);
    ReplacedIsOlder(releases, chain[b - 1], chain[b]);
    if a == b - 1 {
    } else {
      ChainsDecrease(releases, chain, a, b - 1);
    }
  }

  /** In an accepted registry no release replaces itself, directly or through others, and no chain of replacements is
      longer than the list. */
  lemma ReplacementIsAcyclic(releases: seq<Release>, chain: seq<nat>)
    requires Acceptable(releases) && IsChain(releases, chain)
    ensures forall a, b :: 0 <= a < b < |chain| ==> chain[a] != chain[b]
    ensures |chain| <= |releases|
  {
    hide Acceptable, Rank;
    forall a, b | 0 <= a < b < |chain| ensures chain[a] != chain[b] {
      ChainsDecrease(releases, chain, a, b);
    }
    DistinctBelow(chain, |releases|);
  }

  lemma {:induction false} DistinctBelow(xs: seq<nat>, n: nat)
    requires forall k :: 0 <= k < |xs| ==> xs[k] < n
    requires forall a, b :: 0 <= a < b < |xs| ==> xs[a] != xs[b]
    ensures |xs| <= n
    decreases n
  {
    if xs == [] {
    } else {
      assert xs[0] < n;
      if k: nat :| k < |xs| && xs[k] == n - 1 {
        var rest := xs[..k] + xs[k + 1..];
        DistinctBelow(rest, n - 1);
      } else {
        DistinctBelow(xs, n - 1);
      }
    }
  }

  predicate Matches(r: Release, code: string, revision: Option<string>) {
    r.code == code && if revision.None? then IsActive(r) else r.revision == revision.value
  }

  function FindLegalRelease(releases: seq<Release>, code: string, revision: Option<string>): (r: Option<Release>)
    ensures r.Some? ==> r.value in releases && Matches(r.value, code, revision)
    ensures r.None? ==> forall x :: x in releases ==> !Matches(x, code, revision)
  {
    if releases == [] then None
    else if Matches(releases[0], code, revision) then Some(releases[0])
    else FindLegalRelease(releases[1..], code, revision)
  }

  /** In an accepted registry the release found by code, or by code and revision, is the only one. */
  lemma FoundReleaseIsUnique(releases: seq<Release>, code: string, revision: Option<string>, x: Release)
    requires Acceptable(releases) && x in releases && Matches(x, code, revision)
    ensures FindLegalRelease(releases, code, revision) == Some(x)
  {
    hide ValidRelease, SupersedesOk, RouteTexts, Distinct, Key, IsActive;
    var found := FindLegalRelease(releases, code, revision).value;
    var i :| 0 <= i < |releases| && releases[i] == found;
    var j :| 0 <= j < |releases| && releases[j] == x;
    SameMatch(releases, i, j, code, revision);
  }

  lemma SameMatch(releases: seq<Release>, i: nat, j: nat, code: string, revision: Option<string>)
    requires KeysDistinct(releases) && OneActivePerCode(releases) && i < |releases| && j < |releases|
    requires Matches(releases[i], code, revision) && Matches(releases[j], code, revision)
    ensures i == j
  {
  }

  // A registry that is accepted.

  const ARCHIVE := "legal/archive/MKR-PD-02/2026.08/01/"

  const OLD_CONSENT := Release("MKR-PD-02", "2026.08/01", "2026-08-15", "superseded", "operator-2026-08-15",
                               [("ru", "/" + ARCHIVE), ("en", "/en/" + ARCHIVE)], None)

  const NEW_CONSENT := Release("MKR-PD-02", "2026.10/01", "2026-10-30", "active", "operator-2026-10-30",
                               [("ru", "/personal-data-consent/"), ("en", "/en/personal-data-consent/")],
                               Some("MKR-PD-02/2026.08/01"))

  const PUBLICATION := Release("MKR-PUB-01", "2026.10/01", "2026-10-30", "active", "operator-2026-10-30",
                               [("ru", "/legal/logo-and-review/")], None)

  lemma DigitTexts()
    ensures NumberOf("2026") == 2026 && NumberOf("08") == 8 && NumberOf("10") == 10
    ensures NumberOf("15") == 15 && NumberOf("30") == 30
  {
    assert "2026"[..3] == "202" && "202"[..2] == "20" && "20"[..1] == "2" && "2"[..0] == "";
    assert NumberOf("2") == 2;
    assert NumberOf("20") == 20;
    assert NumberOf("202") == 202;
    assert "08"[..1] == "0" && "10"[..1] == "1" && "15"[..1] == "1" && "30"[..1] == "3";
    assert "0"[..0] == "" && "1"[..0] == "" && "3"[..0] == "";
    assert NumberOf("0") == 0 && NumberOf("1") == 1 && NumberOf("3") == 3;
  }

  lemma ShippedRevisions()
    ensures ParseRevision("2026.08/01") == Some(Revision(2026, 8, 1))
    ensures ParseRevision("2026.10/01") == Some(Revision(2026, 10, 1))
  {
    hide NumberOf;
    var (s, t) := ("2026.08/01", "2026.10/01");
    assert s[..4] == "2026" && s[5..7] == "08" && s[8..] == "01";
    assert t[..4] == "2026" && t[5..7] == "10" && t[8..] == "01";
    DigitTexts();
    ShortNumbers();
  }

  lemma ShippedDates()
    ensures IsEffectiveDate("2026-08-15") && IsEffectiveDate("2026-10-30")
  {
    hide NumberOf, IsEffectiveDate;
    var (s, t) := ("2026-08-15", "2026-10-30");
    assert s[..4] == "2026" && s[5..7] == "08" && s[8..] == "15";
    assert t[..4] == "2026" && t[5..7] == "10" && t[8..] == "30";
    DigitTexts();
    EffectiveDateIff(s);
    EffectiveDateIff(t);
  }

  /** A text without a colon does not hold "://". */
  lemma {:induction false} NoColon(s: string)
    requires ':' !in s
    ensures !Includes(s, "://")
  {
    if s == "" {
    } else {
      assert s[0] in s && forall c :: c in s[1..] ==> c in s;
      NoColon(s[1..]);
    }
  }

  lemma RussianRoute(route: string)
    requires |route| > 1 && route[0] == '/' && route[1] != 'e' && route[|route| - 1] == '/' && ':' !in route
    ensures RouteOk("ru", route)
  {
    hide Includes;
    NoColon(route);
    assert route[..1] == "/";
    if StartsWith(route, "/en/") {
      EnglishLetter(route);
    }
  }

  lemma EnglishLetter(route: string)
    requires StartsWith(route, "/en/")
    ensures |route| > 1 && route[1] == 'e'
  {
    assert route[1] == route[..4][1];
  }

  lemma EnglishRoute(rest: string)
    requires rest != "" && rest[|rest| - 1] == '/' && ':' !in rest
    ensures RouteOk("en", "/en/" + rest)
  {
    hide Includes;
    var route := "/en/" + rest;
    NoColon(route);
    assert route[..4] == "/en/" && route[..1] == "/";
  }

  lemma OldRoutes()
    ensures RoutesOk("MKR-PD-02", OLD_CONSENT.routes)
  {
    ArchiveText();
    hide RouteOk, ARCHIVE;
    assert forall c :: c in "/" + ARCHIVE ==> c == '/' || c in ARCHIVE;
    RussianRoute("/" + ARCHIVE);
    EnglishRoute(ARCHIVE);
    TwoLanguages(OLD_CONSENT.routes);
  }

  lemma ArchiveText()
    ensures |ARCHIVE| == 35 && ARCHIVE[0] == 'l' && ARCHIVE[34] == '/' && ':' !in ARCHIVE
  {
  }

  lemma NewRoutes()
    ensures RoutesOk("MKR-PD-02", NEW_CONSENT.routes)
  {
    hide RouteOk;
    ConsentText();
    assert "/en/" + "personal-data-consent/" == "/en/personal-data-consent/";
    RussianRoute("/personal-data-consent/");
    EnglishRoute("personal-data-consent/");
    TwoLanguages(NEW_CONSENT.routes);
  }

  lemma ConsentText()
    ensures ':' !in "personal-data-consent/" && ':' !in "/personal-data-consent/"
  {
  }

  lemma PublicationRoutes()
    ensures RoutesOk("MKR-PUB-01", PUBLICATION.routes)
  {
    hide RouteOk;
    RussianRoute("/legal/logo-and-review/");
    assert "MKR-PUB-01" == RUSSIAN_ONLY[3];
    assert PUBLICATION.routes[0].0 == "ru";
  }

  lemma TwoLanguages(routes: seq<(string, string)>)
    requires |routes| == 2 && routes[0].0 == "ru" && routes[1].0 == "en"
    requires RouteOk("ru", routes[0].1) && RouteOk("en", routes[1].1)
    ensures RoutesOk("MKR-PD-02", routes)
  {
    hide RouteOk;
    assert Locales("MKR-PD-02") == ["ru", "en"] by { assert "MKR-PD-02"[4] == 'P' && "MKR-PD-02"[8] == '2'; }
  }

  lemma FieldsAreOk()
    ensures FieldsOk(OLD_CONSENT) && FieldsOk(NEW_CONSENT) && FieldsOk(PUBLICATION)
  {
    hide ParseRevision, IsEffectiveDate;
    ShippedRevisions();
    ShippedDates();
    assert DOCUMENT_CODES[1] == "MKR-PD-02" && DOCUMENT_CODES[5] == "MKR-PUB-01";
    assert STATUSES[1] == "active" && STATUSES[2] == "superseded";
    assert OPERATORS[0] == "operator-2026-08-15" && OPERATORS[1] == "operator-2026-10-30";
  }

  /** The consent of the shipped registry with its predecessor, and a document in Russian only, are accepted. */
  lemma ShippedReleasesAreAccepted()
    ensures Acceptable([OLD_CONSENT, NEW_CONSENT, PUBLICATION])
  {
    hide FieldsOk, RoutesOk, RouteTexts, ParseRevision, Older;
    var releases := [OLD_CONSENT, NEW_CONSENT, PUBLICATION];
    FieldsAreOk();
    OldRoutes();
    NewRoutes();
    PublicationRoutes();
    ShippedKeys();
    ShippedTexts();
    ShippedOrder();
    assert NEW_CONSENT in releases && OLD_CONSENT in releases;
    assert SupersedesOk(releases, NEW_CONSENT);
    assert HasCurrentConsent(releases);
  }

  lemma ShippedKeys()
    ensures Key(OLD_CONSENT) == "MKR-PD-02/2026.08/01" && Key(NEW_CONSENT) == CURRENT_CONSENT
    ensures KeysDistinct([OLD_CONSENT, NEW_CONSENT, PUBLICATION])
  {
    assert Key(OLD_CONSENT)[15] == '0' && Key(NEW_CONSENT)[15] == '1';
    assert Key(PUBLICATION)[5] == 'U';
  }

  lemma TextsOfThree(a: Release, b: Release, c: Release)
    ensures RouteTexts([a, b, c]) == Values(a.routes) + Values(b.routes) + Values(c.routes)
  {
    hide Values;
    assert [a, b, c][..2] == [a, b] && [a, b][..1] == [a] && [a][..0] == [];
    assert RouteTexts([a]) == [] + Values(a.routes) == Values(a.routes);
  }

  lemma ShippedTexts()
    ensures Distinct(RouteTexts([OLD_CONSENT, NEW_CONSENT, PUBLICATION]))
  {
    hide RouteTexts;
    TextsOfThree(OLD_CONSENT, NEW_CONSENT, PUBLICATION);
    RouteLengths();
    OldValues();
    NewValues();
  }

  lemma OldValues()
    ensures Values(OLD_CONSENT.routes) == ["/" + ARCHIVE, "/en/" + ARCHIVE]
  {
    hide ARCHIVE;
  }

  lemma NewValues()
    ensures Values(NEW_CONSENT.routes) == ["/personal-data-consent/", "/en/personal-data-consent/"]
    ensures Values(PUBLICATION.routes) == ["/legal/logo-and-review/"]
  {
  }

  lemma RouteLengths()
    ensures |"/" + ARCHIVE| == 36 && |"/en/" + ARCHIVE| == 39
    ensures |"/personal-data-consent/"| == 23 && |"/en/personal-data-consent/"| == 26
    ensures |"/legal/logo-and-review/"| == 23 && "/personal-data-consent/"[1] != "/legal/logo-and-review/"[1]
  {
    ArchiveText();
  }

  lemma ShippedOrder()
    ensures Older(OLD_CONSENT, NEW_CONSENT)
  {
    hide ParseRevision;
    ShippedRevisions();
  }
}
