/** The default attestation is far below the limit for attestations. */
module AttestationSize {
  import opened Text
  import opened PlanChecks
  import opened JsonSize
  import opened Provenance

  ghost predicate ShortText(j: Json, k: string)
    requires j.Object? && k in j.fields
  {
    |k| <= 29 && j.fields[k].Str? && |j.fields[k].s| <= 200
  }

  lemma {:induction false} ShortTextSize(j: Json, k: string, level: nat)
    requires j.Object? && k in j.fields && ShortText(j, k)
    ensures PrintedField(j, k, level) <= 930
  {
    hide Utf8Size;
    Utf8Quad(k);
    Utf8Quad(j.fields[k].s);
  }

  lemma {:induction false} ShortTexts(j: Json, level: nat, count: nat)
    requires j.Object? && |j.fields| <= count && forall k :: k in j.fields ==> ShortText(j, k)
    ensures PrintedSize(j, level) <= count * 930 + Frame(count, level)
  {
    hide ShortText, PrintedField, PrintedSize;
    forall k | k in j.fields ensures PrintedField(j, k, level) <= 930 { ShortTextSize(j, k, level); }
    ObjectAtMost(j, level, count, 930);
  }

  lemma {:induction false} ApprovalShort()
    ensures PrintedSize(SyntheticApproval(), 1) <= 3800
  {
    hide PrintedSize;
    var j := SyntheticApproval();
    KeysAtMost(j.fields.Keys, ["status", "reference", "approved_by", "approved_at"]);
    ShortTexts(j, 1, 4);
  }

  lemma {:induction false} VerificationShort(checkedAt: string)
    requires |checkedAt| <= 200
    ensures PrintedSize(SyntheticVerification(checkedAt), 1) <= 4700
  {
    hide PrintedSize;
    var j := SyntheticVerification(checkedAt);
    assert |METHOD| == 58;
    KeysAtMost(j.fields.Keys, ["status", "method", "checked_by", "checked_at", "pii_scan"]);
    ShortTexts(j, 1, 5);
  }

  /** Every field of the default attestation is printed in less than five thousand bytes. */
  lemma {:induction false} DefaultField(environment: string, checkedAt: string, k: string)
    requires DefaultSynthetic(environment, checkedAt).Ok? && k in DefaultSynthetic(environment, checkedAt).value.fields
    ensures k in ["schema_version", "environment", "classification", "source_ref", "approval", "verification"]
    ensures PrintedField(DefaultSynthetic(environment, checkedAt).value, k, 0) <= 4900
  {
    hide Utf8Size, SyntheticApproval, SyntheticVerification, Timestamp;
    var j := DefaultSynthetic(environment, checkedAt).value;
    Utf8Quad(k);
    ApprovalShort();
    StampShort(checkedAt);
    VerificationShort(checkedAt);
    Utf8Quad(environment);
    Utf8Quad("synthetic");
    Utf8Quad("generated-fixtures");
    assert |"generated-fixtures"| == 18 && |"synthetic"| == 9 && |environment| <= 11;
    assert LeastSize(Int(1)) == 1 by { OneDigit(); }
  }

  lemma OneDigit()
    ensures LeastSize(Int(1)) == 1
  {
  }

  lemma {:induction false} StampShort(checkedAt: string)
    requires Timestamp(Str(checkedAt), true).Ok?
    ensures |checkedAt| <= 200
  {
    hide IsTimestamp;
  }

  lemma {:induction false} AttestationFits(environment: string, checkedAt: string)
    requires DefaultSynthetic(environment, checkedAt).Ok?
    ensures PrintedSize(DefaultSynthetic(environment, checkedAt).value, 0) + 1 <= ATTESTATION_LIMIT
  {
    var j := DefaultSynthetic(environment, checkedAt).value;
    hide DefaultSynthetic, PrintedField, PrintedSize;
    forall k | k in j.fields
      ensures k in ["schema_version", "environment", "classification", "source_ref", "approval", "verification"]
      ensures PrintedField(j, k, 0) <= 4900
    {
      DefaultField(environment, checkedAt, k);
    }
    KeysAtMost(j.fields.Keys,
               ["schema_version", "environment", "classification", "source_ref", "approval", "verification"]);
    ObjectAtMost(j, 0, 6, 4900);
  }
}
