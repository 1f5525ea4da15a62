/** The domain business rule (app/domain/business_rules_domain.py): an account GUID becomes a
    partner-purchased-plan ID by keeping its letters and digits, which must number 32. */
module DomainRules {

  import opened Wrappers
  import opened Seqs
  import opened Frames
  import opened Strings

  /** The number of letters and digits a plan ID has: those of a GUID without its hyphens. */
  const PlanIdLength: int := 32

  /** The plan ID of an account GUID: its letters and digits, in order, when there are exactly
      32 of them. */
  function MapPartnerPurchasedPlanId(guid: string): (r: Result<string, Error>)
    ensures r.Success? <==> |KeepAlnum(guid)| == PlanIdLength
    ensures r.Success? ==> |r.value| == PlanIdLength && r.value == KeepAlnum(guid)
    ensures r.Success? ==> forall i :: 0 <= i < |r.value| ==> IsAlnum(r.value[i])
    ensures r.Failure? ==> r.error == LengthMismatch(PlanIdLength, KeepAlnum(guid))
  {
    Normalize(guid, Some(PlanIdLength))
  }

  /** A GUID already made of 32 letters and digits is its own plan ID. */
  lemma CanonicalGuidIsPlanId(guid: string)
    requires |guid| == PlanIdLength
    requires forall i :: 0 <= i < |guid| ==> IsAlnum(guid[i])
    ensures MapPartnerPurchasedPlanId(guid) == Success(guid)
  {
    KeepAlnumFixpoint(guid);
  }

  /** Mapping a plan ID again gives it back: the rule is idempotent. */
  lemma PlanIdIdempotent(guid: string)
    requires MapPartnerPurchasedPlanId(guid).Success?
    ensures MapPartnerPurchasedPlanId(MapPartnerPurchasedPlanId(guid).value)
            == MapPartnerPurchasedPlanId(guid)
  {
    KeepAlnumIdempotent(guid);
  }

  /** A punctuation character anywhere in the GUID (a hyphen, a brace) does not change the
      outcome, success or error. */
  lemma PunctuationIgnored(a: string, c: char, b: string)
    requires !IsAlnum(c)
    ensures MapPartnerPurchasedPlanId(a + [c] + b) == MapPartnerPurchasedPlanId(a + b)
  {
    KeepAlnumSkipsPunctuation(a, c, b);
  }

  /** The table with a partnerPurchasedPlanID column mapped from accountGuid. The column must
      be present; the first GUID that does not map aborts the whole table. */
  function AddPartnerPurchasedPlanIdColumn(t: Table): (r: Result<Table, Error>)
    ensures AccountGuid !in t.columns ==> r == Failure(MissingColumns([AccountGuid]))
    ensures AccountGuid in t.columns ==>
      (r.Success? <==> forall i :: 0 <= i < |t.rows| ==> |KeepAlnum(t.rows[i].accountGuid)| == PlanIdLength)
    ensures r.Success? ==>
      && r.value.columns == t.columns + {PartnerPurchasedPlanID}
      && |r.value.rows| == |t.rows|
      && forall i :: 0 <= i < |t.rows| ==>
           r.value.rows[i] == t.rows[i].(planId := Some(KeepAlnum(t.rows[i].accountGuid)))
    ensures r.Failure? && AccountGuid in t.columns ==>
      exists i :: 0 <= i < |t.rows|
        && |KeepAlnum(t.rows[i].accountGuid)| != PlanIdLength
        && r.error == LengthMismatch(PlanIdLength, KeepAlnum(t.rows[i].accountGuid))
        && forall j :: 0 <= j < i ==> |KeepAlnum(t.rows[j].accountGuid)| == PlanIdLength
  {
    if AccountGuid !in t.columns then Failure(MissingColumns([AccountGuid]))
    else
      var ids :- MapResult((x: Row) => MapPartnerPurchasedPlanId(x.accountGuid), t.rows);
      Success(Table(t.columns + {PartnerPurchasedPlanID},
                    seq(|t.rows|, i requires 0 <= i < |t.rows| => t.rows[i].(planId := Some(ids[i])))))
  }
}
