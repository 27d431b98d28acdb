/** What it takes for a provenance attestation to pass its check, field by field. */
module ProvenanceMeaning {
  import opened Text
  import opened PlanChecks
  import EnvText
  import opened Provenance

  ghost predicate StripsAt(s: string, t: string, m: nat, n: nat) {
    && m <= n <= |s| && s[m..n] == t
    && (forall i :: 0 <= i < m ==> EnvText.IsSpace(s[i])) && (forall i :: n <= i < |s| ==> EnvText.IsSpace(s[i]))
    && (m < n ==> !EnvText.IsSpace(s[m]) && !EnvText.IsSpace(s[n - 1]))
  }

  /** `t` is `s` without the white space at both ends. */
  ghost predicate Strips(s: string, t: string) {
    exists m: nat, n: nat :: StripsAt(s, t, m, n)
  }

  lemma {:induction false} TrimStrips(s: string)
    ensures Strips(s, Provenance.Trim(s))
    decreases |s|
  {
    hide EnvText.IsSpace;
    var t := Provenance.Trim(s);
    if |s| > 0 && EnvText.IsSpace(s[0]) {
      var rest := s[1..];
      TrimStrips(rest);
      var m: nat, n: nat :| StripsAt(rest, t, m, n);
      ShiftRight(s, t, m, n);
    } else if |s| > 0 && EnvText.IsSpace(s[|s| - 1]) {
      var rest := s[..|s| - 1];
      TrimStrips(rest);
      var m: nat, n: nat :| StripsAt(rest, t, m, n);
      assert s[m..n] == rest[m..n];
      assert StripsAt(s, t, m, n);
    } else {
      assert s[0..|s|] == s;
      assert StripsAt(s, t, 0, |s|);
    }
  }

  lemma {:induction false} ShiftRight(s: string, t: string, m: nat, n: nat)
    requires |s| > 0 && EnvText.IsSpace(s[0]) && StripsAt(s[1..], t, m, n)
    ensures StripsAt(s, t, m + 1, n + 1)
  {
    hide EnvText.IsSpace;
    var rest := s[1..];
    assert s[m + 1..n + 1] == rest[m..n];
    forall i | 0 <= i < m + 1 ensures EnvText.IsSpace(s[i]) { assert i > 0 ==> s[i] == rest[i - 1]; }
    forall i | n + 1 <= i < |s| ensures EnvText.IsSpace(s[i]) { assert s[i] == rest[i - 1]; }
    if m < n { assert s[m + 1] == rest[m] && s[n] == rest[n - 1]; }
  }

  lemma {:induction false} Inside(s: string, t: string, m: nat, n: nat, u: string, h: nat, k: nat)
    requires StripsAt(s, t, m, n) && StripsAt(s, u, h, k) && m < n
    ensures h <= m && n <= k
  {
    hide EnvText.IsSpace;
    assert !EnvText.IsSpace(s[m]) && !EnvText.IsSpace(s[n - 1]);
  }

  lemma {:induction false} OneStrip(s: string, t: string, u: string)
    requires Strips(s, t) && Strips(s, u)
    ensures t == u
  {
    var m: nat, n: nat :| StripsAt(s, t, m, n);
    var h: nat, k: nat :| StripsAt(s, u, h, k);
    if m < n { Inside(s, t, m, n, u, h, k); }
    if h < k { Inside(s, u, h, k, t, m, n); }
  }

  /** A text field with its stripped text: at most 200 characters, none of them a control character. */
  ghost predicate Says(value: Json, text: string) {
    && value.Str? && |value.s| <= 200 && Strips(value.s, text)
    && (forall i :: 0 <= i < |value.s| ==> value.s[i] as int >= 32)
  }

  lemma {:induction false} TextMeans(value: Json, required: bool, text: string)
    ensures TextField(value, required) == Ok(text) <==> Says(value, text) && (required ==> text != "")
  {
    hide Strips, Provenance.Trim;
    if value.Str? {
      TrimStrips(value.s);
      if Strips(value.s, text) { OneStrip(value.s, text, Provenance.Trim(value.s)); }
    }
  }

  lemma {:induction false} TimeMeans(value: Json, required: bool, text: string)
    ensures Timestamp(value, required) == Ok(text) <==>
            Says(value, text) && (if text == "" then !required else IsTimestamp(text))
  {
    hide TextField, IsTimestamp, Says;
    TextMeans(value, required, text);
    if TextField(value, required).Ok? { TextMeans(value, required, TextField(value, required).value); }
  }

  // ---------------------------------------------------------------- time stamps

  /** A number with leading zeros to a width. */
  ghost function Padded(n: nat, width: nat): string {
    if width == 0 then "" else Padded(n / 10, width - 1) + [Digit(n % 10)]
  }

  lemma {:induction false} PaddedIs(s: string)
    requires Digits(s)
    ensures Padded(Value(s), |s|) == s
  {
    if |s| > 0 {
      assert IsDigit(s[|s| - 1]);
      var init, last := s[..|s| - 1], s[|s| - 1];
      assert Digits(init) by { forall i | 0 <= i < |init| ensures IsDigit(init[i]) { assert IsDigit(s[i]); } }
      PaddedIs(init);
      DigitOf(last);
      LastDigit(Value(init), last as int - '0' as int);
      hide Value, Digit;
      assert s == init + [last];
    }
  }

  lemma LastDigit(n: nat, d: nat)
    requires d < 10
    ensures (10 * n + d) / 10 == n && (10 * n + d) % 10 == d
  {
  }

  lemma DigitOf(c: char)
    requires IsDigit(c)
    ensures Digit(c as int - '0' as int) == c
  {
  }

  lemma {:induction false} PaddedDigits(n: nat, width: nat)
    ensures |Padded(n, width)| == width && Digits(Padded(n, width))
  {
    if width > 0 { PaddedDigits(n / 10, width - 1); }
  }

  lemma {:induction false} PaddedValue(n: nat, width: nat)
    requires 1 <= width <= 4 && n < [10, 100, 1000, 10000][width - 1]
    ensures Digits(Padded(n, width)) && Value(Padded(n, width)) == n
  {
    PaddedDigits(n, width);
    var s := Padded(n, width);
    assert s[..|s| - 1] == Padded(n / 10, width - 1);
    PaddedDigits(n / 10, width - 1);
    if width == 1 {
      assert Padded(n / 10, 0) == "";
    } else {
      PaddedValue(n / 10, width - 1);
    }
  }

  const MONTHS: seq<nat> := [31, 28, 31, 30, 31, 30, 31, 31, 30, 31, 30, 31]

  ghost predicate Leap(year: nat) {
    (year % 4 == 0 && year % 100 != 0) || year % 400 == 0
  }

  /** A day of the calendar and a second of the day. */
  ghost predicate Instant(year: nat, month: nat, day: nat, hour: nat, minute: nat, second: nat) {
    && 1 <= year <= 9999 && 1 <= month <= 12
    && 1 <= day <= MONTHS[month - 1] + (if month == 2 && Leap(year) then 1 else 0)
    && hour < 24 && minute < 60 && second < 60
  }

  ghost function Written(year: nat, month: nat, day: nat, hour: nat, minute: nat, second: nat): string {
    Padded(year, 4) + "-" + Padded(month, 2) + "-" + Padded(day, 2) + "T" + Padded(hour, 2) + ":" + Padded(minute, 2) +
    ":" + Padded(second, 2) + "Z"
  }

  lemma MonthLengths(year: nat, month: nat)
    requires 1 <= month <= 12
    ensures DaysIn(year, month) == MONTHS[month - 1] + (if month == 2 && Leap(year) then 1 else 0)
  {
    hide Leap;
    LeapMeans(year);
    var leap := year % 4 == 0 && (year % 100 != 0 || year % 400 == 0);
    assert DaysIn(year, 2) == if leap then 29 else 28;
    assert month != 2 ==> DaysIn(year, month) == MONTHS[month - 1];
  }

  lemma LeapMeans(year: nat)
    ensures Leap(year) <==> year % 4 == 0 && (year % 100 != 0 || year % 400 == 0)
  {
    if year % 400 == 0 {
      var q := year / 400;
      assert year == 400 * q == 4 * (100 * q);
      assert (4 * (100 * q)) % 4 == 0;
    }
  }

  lemma {:induction false} WrittenParts(y: string, mo: string, d: string, h: string, mi: string, sec: string)
    requires |y| == 4 && |mo| == 2 && |d| == 2 && |h| == 2 && |mi| == 2 && |sec| == 2
    ensures var s := y + "-" + mo + "-" + d + "T" + h + ":" + mi + ":" + sec + "Z";
            && |s| == 20 && s[..4] == y && s[4] == '-' && s[5..7] == mo && s[7] == '-' && s[8..10] == d && s[10] == 'T'
            && s[11..13] == h && s[13] == ':' && s[14..16] == mi && s[16] == ':' && s[17..19] == sec && s[19] == 'Z'
  {
    var a := y + "-" + mo + "-";
    var b := a + d + "T" + h + ":";
    var s := b + mi + ":" + sec + "Z";
    assert s == y + "-" + mo + "-" + d + "T" + h + ":" + mi + ":" + sec + "Z";
    assert |a| == 8 && a[..4] == y && a[4] == '-' && a[5..7] == mo && a[7] == '-';
    assert |b| == 14 && b[..8] == a && b[8..10] == d && b[10] == 'T' && b[11..13] == h && b[13] == ':';
    assert s[..14] == b && s[14..16] == mi && s[16] == ':' && s[17..19] == sec && s[19] == 'Z';
    assert s[..8] == a;
    assert s[..4] == a[..4] && s[5..7] == a[5..7] && s[8..10] == b[8..10] && s[11..13] == b[11..13];
  }

  lemma {:induction false} StampParts(s: string)
    requires |s| == 20 && s[4] == '-' && s[7] == '-' && s[10] == 'T' && s[13] == ':' && s[16] == ':' && s[19] == 'Z'
    ensures s == s[..4] + "-" + s[5..7] + "-" + s[8..10] + "T" + s[11..13] + ":" + s[14..16] + ":" + s[17..19] + "Z"
  {
  }

  lemma {:induction false} StampFound(s: string)
    requires IsTimestamp(s)
    ensures var y, mo, d, h, mi, sec := Value(s[..4]), Value(s[5..7]), Value(s[8..10]), Value(s[11..13]),
                                        Value(s[14..16]), Value(s[17..19]);
            Instant(y, mo, d, h, mi, sec) && s == Written(y, mo, d, h, mi, sec)
  {
    hide Value, DaysIn, Padded, MONTHS;
    StampParts(s);
    PaddedIs(s[..4]);
    PaddedIs(s[5..7]);
    PaddedIs(s[8..10]);
    PaddedIs(s[11..13]);
    PaddedIs(s[14..16]);
    PaddedIs(s[17..19]);
    MonthLengths(Value(s[..4]), Value(s[5..7]));
    ShortValue(s[..4]);
  }

  lemma {:induction false} ShortValue(s: string)
    requires |s| <= 4 && Digits(s)
    ensures Value(s) < [1, 10, 100, 1000, 10000][|s|]
  {
    if |s| > 0 {
      assert IsDigit(s[|s| - 1]);
      ShortValue(s[..|s| - 1]);
    }
  }

  lemma {:induction false} StampPasses(year: nat, month: nat, day: nat, hour: nat, minute: nat, second: nat)
    requires Instant(year, month, day, hour, minute, second)
    ensures IsTimestamp(Written(year, month, day, hour, minute, second))
  {
    hide Value, DaysIn, Digits, Padded;
    PaddedValue(year, 4);
    PaddedValue(month, 2);
    PaddedValue(day, 2);
    PaddedValue(hour, 2);
    PaddedValue(minute, 2);
    PaddedValue(second, 2);
    PaddedDigits(year, 4);
    PaddedDigits(month, 2);
    PaddedDigits(day, 2);
    PaddedDigits(hour, 2);
    PaddedDigits(minute, 2);
    PaddedDigits(second, 2);
    MonthLengths(year, month);
    WrittenParts(Padded(year, 4), Padded(month, 2), Padded(day, 2), Padded(hour, 2), Padded(minute, 2),
                 Padded(second, 2));
  }

  /** A time stamp names an instant of the calendar, to the second and in UTC. */
  lemma {:induction false} StampMeans(s: string)
    ensures IsTimestamp(s) <==>
            exists y, mo, d, h, mi, sec :: Instant(y, mo, d, h, mi, sec) && s == Written(y, mo, d, h, mi, sec)
  {
    hide Instant, Written, IsTimestamp;
    if IsTimestamp(s) { StampFound(s); }
    if y, mo, d, h, mi, sec :| Instant(y, mo, d, h, mi, sec) && s == Written(y, mo, d, h, mi, sec) {
      StampPasses(y, mo, d, h, mi, sec);
    }
  }

  // ---------------------------------------------------------------- the three parts

  ghost predicate HasExactly(value: Json, keys: set<string>) {
    value.Object? && value.fields.Keys == keys
  }

  /** Synthetic data needs no approval and must not claim one; sanitised data needs a complete one. */
  ghost predicate Approves(value: Json, classification: string) {
    HasExactly(value, {"status", "reference", "approved_by", "approved_at"}) &&
    var fields := value.fields;
    if classification == "synthetic" then
      && Says(fields["status"], "not_required") && Says(fields["reference"], "")
      && Says(fields["approved_by"], "") && Says(fields["approved_at"], "")
    else
      && Says(fields["status"], "approved") && (exists r :: Says(fields["reference"], r) && IsReference(r))
      && (exists b :: Says(fields["approved_by"], b) && b != "")
      && (exists t :: Says(fields["approved_at"], t) && t != "" && IsTimestamp(t))
  }

  /** The verification and the scan for personal data have passed, with a method, a checker and a time. */
  ghost predicate Verifies(value: Json) {
    HasExactly(value, {"status", "method", "checked_by", "checked_at", "pii_scan"}) &&
    var fields := value.fields;
    && Says(fields["status"], "passed") && Says(fields["pii_scan"], "passed")
    && (exists m :: Says(fields["method"], m) && m != "")
    && (exists b :: Says(fields["checked_by"], b) && b != "")
    && (exists t :: Says(fields["checked_at"], t) && t != "" && IsTimestamp(t))
  }

  /** The attestation is for this environment and of one of the two classifications. */
  ghost predicate Attests(document: Json, environment: string) {
    && (environment == "integration" || environment == "staging")
    && HasExactly(document,
                  {"schema_version", "environment", "classification", "source_ref", "approval", "verification"})
    && var fields := document.fields;
    && fields["schema_version"] == Int(1) && fields["environment"] == Str(environment)
    && (exists r :: Says(fields["source_ref"], r) && IsReference(r))
    && (exists c :: Says(fields["classification"], c) && (c == "synthetic" || c == "approved_sanitized") &&
                    Approves(fields["approval"], c))
    && Verifies(fields["verification"])
  }

  lemma {:induction false} FoundText(value: Json, required: bool)
    ensures TextField(value, required).Ok? <==> exists t :: Says(value, t) && (required ==> t != "")
    ensures TextField(value, required).Ok? ==>
              Says(value, TextField(value, required).value) && (required ==> TextField(value, required).value != "")
    ensures forall t, u :: Says(value, t) && Says(value, u) ==> t == u
  {
    hide TextField, Says;
    if TextField(value, required).Ok? { TextMeans(value, required, TextField(value, required).value); }
    if t :| Says(value, t) && (required ==> t != "") { TextMeans(value, required, t); }
    forall t, u | Says(value, t) && Says(value, u) ensures t == u {
      TextMeans(value, false, t);
      TextMeans(value, false, u);
    }
  }

  lemma {:induction false} FoundTime(value: Json, required: bool)
    ensures Timestamp(value, required).Ok? <==>
            exists t :: Says(value, t) && (if t == "" then !required else IsTimestamp(t))
    ensures Timestamp(value, required).Ok? ==> TextField(value, required) == Timestamp(value, required)
  {
    hide TextField, Says, IsTimestamp;
    if Timestamp(value, required).Ok? { TimeMeans(value, required, Timestamp(value, required).value); }
    if t :| Says(value, t) && (if t == "" then !required else IsTimestamp(t)) { TimeMeans(value, required, t); }
  }

  /** A reference: a letter or digit, then letters, digits, blanks and a few signs, at most 200 characters. */
  lemma ReferenceMeans(s: string)
    ensures IsReference(s) <==>
            && 1 <= |s| <= 200 && s[0] !in {'.', '_', ':', '/', '@', '+', ' ', '-'}
            && forall i :: 0 <= i < |s| ==>
                 || 'a' <= s[i] <= 'z' || 'A' <= s[i] <= 'Z' || '0' <= s[i] <= '9'
                 || s[i] in {'.', '_', ':', '/', '@', '+', ' ', '-'}
  {
    forall c: char ensures c in "._:/@+ -" <==> c in {'.', '_', ':', '/', '@', '+', ' ', '-'} {
      var t := "._:/@+ -";
      assert t[0] == '.' && t[1] == '_' && t[2] == ':' && t[3] == '/' && t[4] == '@' && t[5] == '+' && t[6] == ' ';
      assert t[7] == '-' && |t| == 8;
    }
  }

  lemma {:induction false} ReferenceNotEmpty(s: string)
    requires IsReference(s)
    ensures s != ""
  {
  }

  lemma {:induction false} ApprovalMeans(value: Json, classification: string)
    ensures ValidateApproval(value, classification).Ok? <==> Approves(value, classification)
  {
    hide TextField, Timestamp, Says, IsTimestamp, IsReference;
    if HasExactly(value, {"status", "reference", "approved_by", "approved_at"}) {
      FoundText(value.fields["status"], true);
      FoundText(value.fields["reference"], false);
      FoundText(value.fields["approved_by"], false);
      FoundText(value.fields["approved_at"], false);
      FoundTime(value.fields["approved_at"], false);
      forall r | IsReference(r) ensures r != "" { ReferenceNotEmpty(r); }
    }
  }

  lemma {:induction false} VerificationMeans(value: Json)
    ensures ValidateVerification(value).Ok? <==> Verifies(value)
  {
    hide TextField, Timestamp, Says, IsTimestamp, IsReference;
    if HasExactly(value, {"status", "method", "checked_by", "checked_at", "pii_scan"}) {
      FoundText(value.fields["status"], true);
      FoundText(value.fields["method"], true);
      FoundText(value.fields["checked_by"], true);
      FoundTime(value.fields["checked_at"], true);
      FoundText(value.fields["pii_scan"], true);
    }
  }

  /** The check accepts exactly the attestations for the environment. */
  lemma {:induction false} DocumentMeans(document: Json, environment: string)
    ensures ValidateDocument(document, environment).Ok? <==> Attests(document, environment)
  {
    hide TextField, Says, IsReference, ValidateApproval, ValidateVerification, Approves, Verifies;
    if HasExactly(document,
                  {"schema_version", "environment", "classification", "source_ref", "approval", "verification"}) {
      FoundText(document.fields["classification"], true);
      FoundText(document.fields["source_ref"], true);
      forall r | IsReference(r) ensures r != "" { ReferenceNotEmpty(r); }
      ApprovalMeans(document.fields["approval"], "synthetic");
      ApprovalMeans(document.fields["approval"], "approved_sanitized");
      VerificationMeans(document.fields["verification"]);
    }
  }
}
