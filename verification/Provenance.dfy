/**
 The data provenance attestation of non-production packages (scripts/data_provenance.py): the
 default document a package is given, and the check it must pass.
 */
module Provenance {
  import opened Text
  import opened PlanChecks
  import EnvText

  function Trim(s: string): string
    decreases |s|
  {
    if |s| == 0 then s
    else if EnvText.IsSpace(s[0]) then Trim(s[1..])
    else if EnvText.IsSpace(s[|s| - 1]) then Trim(s[..|s| - 1])
    else s
  }

  /** A text field: at most 200 characters, no control characters, stripped, and present if required. */
  function TextField(value: Json, required: bool): Result<string> {
    if !value.Str? || |value.s| > 200 || !All(value.s, c => c as int >= 32) then Refused("text is invalid")
    else if required && Trim(value.s) == "" then Refused("text is required")
    else Ok(Trim(value.s))
  }

  function DaysIn(year: nat, month: nat): nat {
    if month == 2 then (if year % 4 == 0 && (year % 100 != 0 || year % 400 == 0) then 29 else 28)
    else if month in {4, 6, 9, 11} then 30
    else 31
  }

  predicate Digits(s: string) {
    All(s, IsDigit)
  }

  /** YYYY-MM-DDThh:mm:ssZ naming an existing instant. */
  predicate IsTimestamp(s: string) {
    && |s| == 20 && s[4] == '-' && s[7] == '-' && s[10] == 'T' && s[13] == ':' && s[16] == ':' && s[19] == 'Z'
    && Digits(s[..4]) && Digits(s[5..7]) && Digits(s[8..10]) && Digits(s[11..13]) && Digits(s[14..16])
    && Digits(s[17..19])
    && 1 <= Value(s[..4]) && 1 <= Value(s[5..7]) <= 12 && 1 <= Value(s[8..10]) <= DaysIn(Value(s[..4]), Value(s[5..7]))
    && Value(s[11..13]) <= 23 && Value(s[14..16]) <= 59 && Value(s[17..19]) <= 59
  }

  function Timestamp(value: Json, required: bool): Result<string> {
    var text :- TextField(value, required);
    if text == "" || IsTimestamp(text) then Ok(text) else Refused("must be a UTC timestamp")
  }

  predicate IsReference(s: string) {
    0 < |s| <= 200 && Alnum(s[0]) && All(s, c => Alnum(c) || c in "._:/@+ -")
  }

  predicate NonProduction(environment: string) {
    environment == "integration" || environment == "staging"
  }

  function ValidateDocument(document: Json, environment: string): Result<()> {
    var _ :- Require(NonProduction(environment), "only required for non-production environments");
    var top :- ObjectKeys(
      document, {"schema_version", "environment", "classification", "source_ref", "approval", "verification"});
    var _ :- Require(top["schema_version"] == Int(1) && top["environment"] == Str(environment),
                     "does not match the target");
    var classification :- TextField(top["classification"], true);
    var _ :- Require(classification == "synthetic" || classification == "approved_sanitized", "unknown classification");
    var source :- TextField(top["source_ref"], true);
    var _ :- Require(IsReference(source), "source_ref is invalid");
    var _ :- ValidateApproval(top["approval"], classification);
    ValidateVerification(top["verification"])
  }

  const ATTESTATION_LIMIT: nat := 32 * 1024

  /** read: a file beyond the limit is refused. */
  function ReadAttestation(file: Document, environment: string): Result<()> {
    var document :- ReadJson(file, ATTESTATION_LIMIT);
    ValidateDocument(document, environment)
  }

  function ValidateApproval(value: Json, classification: string): Result<()> {
    var approval :- ObjectKeys(value, {"status", "reference", "approved_by", "approved_at"});
    var status :- TextField(approval["status"], true);
    var reference :- TextField(approval["reference"], false);
    var approver :- TextField(approval["approved_by"], false);
    var at :- Timestamp(approval["approved_at"], false);
    if classification == "synthetic" then
      Require(status == "not_required" && reference == "" && approver == "" && at == "",
              "synthetic data must use not_required approval")
    else
      Require(status == "approved" && approver != "" && at != "" && IsReference(reference), "an approval is required")
  }

  function ValidateVerification(value: Json): Result<()> {
    var verification :- ObjectKeys(value, {"status", "method", "checked_by", "checked_at", "pii_scan"});
    var status :- TextField(verification["status"], true);
    var _ :- TextField(verification["method"], true);
    var _ :- TextField(verification["checked_by"], true);
    var _ :- Timestamp(verification["checked_at"], true);
    var scan :- TextField(verification["pii_scan"], true);
    Require(status == "passed" && scan == "passed", "verification must pass")
  }

  const METHOD: string := "package contains no " + "business data; " + "synthetic fixtures " + "only"

  function SyntheticApproval(): Json {
    Object(map["status" := Str("not_required"), "reference" := Str(""), "approved_by" := Str(""),
               "approved_at" := Str("")])
  }

  function SyntheticVerification(checkedAt: string): Json {
    Object(map["status" := Str("passed"), "method" := Str(METHOD), "checked_by" := Str("environmentctl"),
               "checked_at" := Str(checkedAt), "pii_scan" := Str("passed")])
  }

  /** The package's default attestation. */
  function DefaultSynthetic(environment: string, checkedAt: string): Result<Json> {
    var _ :- Require(NonProduction(environment), "unsupported non-production environment");
    var _ :- Timestamp(Str(checkedAt), true);
    Ok(Object(map["schema_version" := Int(1), "environment" := Str(environment), "classification" := Str("synthetic"),
                  "source_ref" := Str("generated-fixtures"), "approval" := SyntheticApproval(),
                  "verification" := SyntheticVerification(checkedAt)]))
  }

  lemma {:induction false} PlainText(s: string)
    requires 0 < |s| <= 200 && All(s, c => c as int >= 32)
    requires !EnvText.IsSpace(s[0]) && !EnvText.IsSpace(s[|s| - 1])
    ensures TextField(Str(s), true) == Ok(s)
  {
  }

  lemma {:induction false} MethodIsText()
    ensures TextField(Str(METHOD), true) == Ok(METHOD)
  {
    hide TextField;
    var a, b, c, d := "package contains no ", "business data; ", "synthetic fixtures ", "only";
    assert All(a, c => c as int >= 32);
    assert All(b, c => c as int >= 32);
    assert All(c, c => c as int >= 32);
    assert All(d, c => c as int >= 32);
    assert METHOD == a + b + c + d;
    assert METHOD[0] == a[0] == 'p';
    assert METHOD[|METHOD| - 1] == d[3] == 'y';
    PlainText(METHOD);
  }

  lemma {:induction false} FixedTexts()
    ensures TextField(Str("passed"), true) == Ok("passed")
    ensures TextField(Str("environmentctl"), true) == Ok("environmentctl")
    ensures TextField(Str("not_required"), true) == Ok("not_required")
    ensures TextField(Str("synthetic"), true) == Ok("synthetic")
    ensures TextField(Str("generated-fixtures"), true) == Ok("generated-fixtures")
    ensures TextField(Str(""), false) == Ok("")
  {
    PlainText("passed");
    PlainText("environmentctl");
    PlainText("not_required");
    PlainText("synthetic");
    PlainText("generated-fixtures");
  }

  lemma {:induction false} SourceIsReference()
    ensures IsReference("generated-fixtures")
  {
  }

  lemma {:induction false} SyntheticVerificationPasses(checkedAt: string)
    requires Timestamp(Str(checkedAt), true).Ok?
    ensures ValidateVerification(SyntheticVerification(checkedAt)) == Ok(())
  {
    hide TextField, Timestamp;
    MethodIsText();
    FixedTexts();
    var value := SyntheticVerification(checkedAt);
    assert value.fields.Keys == {"status", "method", "checked_by", "checked_at", "pii_scan"};
  }

  lemma {:induction false} SyntheticApprovalPasses()
    ensures ValidateApproval(SyntheticApproval(), "synthetic") == Ok(())
  {
    hide TextField;
    FixedTexts();
    var value := SyntheticApproval();
    assert value.fields.Keys == {"status", "reference", "approved_by", "approved_at"};
  }

  /** Whatever the writer is willing to write, the checker accepts. */
  lemma {:induction false} DefaultSyntheticPasses(environment: string, checkedAt: string)
    requires DefaultSynthetic(environment, checkedAt).Ok?
    ensures ValidateDocument(DefaultSynthetic(environment, checkedAt).value, environment) == Ok(())
  {
    hide TextField, Timestamp, ValidateApproval, ValidateVerification, IsReference, SyntheticApproval,
         SyntheticVerification;
    FixedTexts();
    SourceIsReference();
    SyntheticApprovalPasses();
    SyntheticVerificationPasses(checkedAt);
    var value := DefaultSynthetic(environment, checkedAt).value;
    assert value.fields.Keys ==
             {"schema_version", "environment", "classification", "source_ref", "approval", "verification"};
  }
}
