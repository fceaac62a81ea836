/**
 The deterministic entry gate
 (services/asco/src/ubunturemit_asco/guardrails/entry.py:210-324), together with
 the amount path of building and parsing the message it looks at
 (services/messaging/src/ubunturemit_messaging/pain001.py).

 Sanctions screening is a given predicate on a name and a BIC.
 */
module EntryGate {
  import opened Wrappers
  import opened Text
  import opened AmountCodec
  import opened DomainMoney
  import opened Lifecycle
  import opened MessageValidation

  // ---------------------------------------------------------------------
  // Building and parsing the message
  // ---------------------------------------------------------------------

  /** What `build_pain001` writes of a transfer, as far as a gate looks at it. */
  function BuildPain001(t: Transfer, schemaAccepts: bool): Pain001 {
    Pain001(
      schemaAccepts,
      Some(t.reference), Some(t.reference),
      Some(InstdAmt(Some(CurrencyName(t.quote.send.currency)), PrintAmount(t.quote.send.minorUnits))),
      Some("SLEV"),
      Some(IsoPurpose(t.declaration.purpose)),
      Some(t.sender.fullName), Some(t.sender.bic), Some(t.recipient.fullName), Some(t.recipient.bic))
  }

  datatype Parsed = Parsed(
    reference: string,
    senderName: string,
    senderBic: string,
    recipientName: string,
    recipientBic: string,
    send: Money,
    purpose: PaymentPurpose)

  function StrippedText(element: Option<string>): string {
    if element.Some? then Strip(element.value) else ""
  }

  /** The currency of an amount; a missing or unknown one is taken for ZAR. */
  function SendCurrency(amount: InstdAmt): CurrencyCode {
    var name := if amount.ccy.Some? then amount.ccy.value else "ZAR";
    if ParseCurrency(name).Some? then ParseCurrency(name).value else ZAR
  }

  /** `parse_pain001`; `restParses` says that dates, countries and parties do not raise. */
  function ParsePain001(doc: Pain001, restParses: bool): Option<Parsed> {
    var reference :=
      if StrippedText(doc.pmtInfId) != "" then StrippedText(doc.pmtInfId) else StrippedText(doc.endToEndId);
    if reference == "" || !restParses || doc.instdAmt.None? || doc.instdAmt.value.text == "" then None
    else
      var minorUnits := ParseAmount(doc.instdAmt.value.text);
      var purpose := PurposeOfIso(StrippedText(doc.purpose));
      if minorUnits.None? || purpose.None? then None
      else Some(Parsed(reference, StrippedText(doc.debtorName), StrippedText(doc.debtorBic),
                       StrippedText(doc.creditorName), StrippedText(doc.creditorBic),
                       Money(minorUnits.value, SendCurrency(doc.instdAmt.value)), purpose.value))
  }

  /** The message carries the very minor units, currency and purpose of the transfer it was built from. */
  lemma MessageCarriesQuotedAmount(t: Transfer, schemaAccepts: bool)
    requires Strip(t.reference) != ""
    ensures ParsePain001(BuildPain001(t, schemaAccepts), true)
         == Some(Parsed(Strip(t.reference), Strip(t.sender.fullName), Strip(t.sender.bic),
                        Strip(t.recipient.fullName), Strip(t.recipient.bic),
                        t.quote.send, t.declaration.purpose))
  {
    hide ParseAmount, PrintInt, PurposeOfIso, ParseCurrency, IsoPurpose, Strip;
    AmountRoundTrip(t.quote.send.minorUnits);
    CurrencyRoundTrip(t.quote.send.currency);
    PurposeRoundTrip(t.declaration.purpose);
  }

  /** The message passes the field and amount gates exactly when the transfer has a reference and a positive amount. */
  lemma BuiltMessageIsValidExactlyWhen(t: Transfer, schemaAccepts: bool)
    ensures Objection(Message(BuildPain001(t, schemaAccepts))).None?
       <==> schemaAccepts && Strip(t.reference) != "" && t.quote.send.minorUnits > 0
  {
    hide ParseAmount, PrintInt, PurposeOfIso, ParseCurrency, IsoPurpose, Strip;
    AmountRoundTrip(t.quote.send.minorUnits);
    CurrencyRoundTrip(t.quote.send.currency);
    PurposeRoundTrip(t.declaration.purpose);
  }

  // ---------------------------------------------------------------------
  // The gate
  // ---------------------------------------------------------------------

  datatype GuardrailOutcome = Passes | Escalates | Refuses

  datatype GateStage = CLEAR | SCHEMA | SANCTIONS | PEP_SCREEN | LIMITS

  datatype Rule =
    | ISO_20022_PAIN001_SCHEMA
    | ISO_20022_PARSER_ERROR
    | FIC_ACT_S28A
    | FIC_ACT_S21H_PEP
    | FICA_TIER_LIMIT
    | SARB_EXCON_LIMIT_EXCEEDED
    | SARB_EXCON_SDA_CAP_EXCEEDED
    | LIMIT_TABLE_UNAVAILABLE
    | SourceCitation

  datatype SenderProfile = SenderProfile(kycTier: string, isPep: bool, priorMinorUnits: int)

  datatype LimitTable = LimitTable(
    currency: CurrencyCode,
    singleTransferLimits: map<string, int>,
    cumulativeLimit: int,
    pepReviewThreshold: int)

  datatype EntryResult = EntryResult(outcome: GuardrailOutcome, stage: GateStage, citedRules: seq<Rule>)

  datatype Screening = Screening(sanctioned: (string, string) -> bool, limits: LimitTable)

  /** The limit checks on an amount, in the table's currency. */
  function CheckLimits(send: Money, profile: SenderProfile, limits: LimitTable): EntryResult {
    if send.currency != limits.currency || profile.kycTier !in limits.singleTransferLimits then
      EntryResult(Refuses, LIMITS, [LIMIT_TABLE_UNAVAILABLE, SourceCitation])
    else if profile.isPep && send.minorUnits > limits.pepReviewThreshold then
      EntryResult(Escalates, PEP_SCREEN, [FIC_ACT_S21H_PEP, SourceCitation])
    else if send.minorUnits > limits.singleTransferLimits[profile.kycTier] then
      EntryResult(Refuses, LIMITS, [FICA_TIER_LIMIT, SARB_EXCON_LIMIT_EXCEEDED, SourceCitation])
    else if profile.priorMinorUnits + send.minorUnits > limits.cumulativeLimit then
      EntryResult(Refuses, LIMITS, [SARB_EXCON_SDA_CAP_EXCEEDED, SourceCitation])
    else EntryResult(Passes, CLEAR, [])
  }

  /** `evaluate`: schema, parse, sanctions, limits, in this order. */
  function Evaluate(input: Input, restParses: bool, screening: Screening, profile: SenderProfile): EntryResult {
    if !Validate(input, None).valid then EntryResult(Refuses, SCHEMA, [ISO_20022_PAIN001_SCHEMA])
    else
      match ParsePain001(input.doc, restParses)
      case None => EntryResult(Refuses, SCHEMA, [ISO_20022_PARSER_ERROR])
      case Some(parsed) =>
        if (screening.sanctioned)(parsed.senderName, parsed.senderBic)
           || (screening.sanctioned)(parsed.recipientName, parsed.recipientBic)
        then EntryResult(Refuses, SANCTIONS, [FIC_ACT_S28A, SourceCitation])
        else CheckLimits(parsed.send, profile, screening.limits)
  }

  /** Neither party is on the list. */
  predicate Screened(t: Transfer, screening: Screening) {
    !(screening.sanctioned)(Strip(t.sender.fullName), Strip(t.sender.bic))
    && !(screening.sanctioned)(Strip(t.recipient.fullName), Strip(t.recipient.bic))
  }

  /** The limits apply to this amount at all. */
  predicate HasLimit(send: Money, profile: SenderProfile, limits: LimitTable) {
    send.currency == limits.currency && profile.kycTier in limits.singleTransferLimits
  }

  /** Everything before the limits lets the transfer through. */
  predicate ReachesLimits(t: Transfer, schemaAccepts: bool, restParses: bool, screening: Screening) {
    schemaAccepts && Strip(t.reference) != "" && t.quote.send.minorUnits > 0 && restParses && Screened(t, screening)
  }

  lemma GateOfTransfer(
      t: Transfer, schemaAccepts: bool, restParses: bool, screening: Screening, profile: SenderProfile)
    ensures var result := Evaluate(Message(BuildPain001(t, schemaAccepts)), restParses, screening, profile);
            if ReachesLimits(t, schemaAccepts, restParses, screening)
            then result == CheckLimits(t.quote.send, profile, screening.limits)
            else result.outcome == Refuses && result.stage != LIMITS
  {
    hide BuildPain001, Objection, CheckLimits, Strip;
    BuiltMessageIsValidExactlyWhen(t, schemaAccepts);
    if Strip(t.reference) != "" {
      MessageCarriesQuotedAmount(t, schemaAccepts);
      RestMustParse(BuildPain001(t, schemaAccepts), restParses);
    }
  }

  lemma RestMustParse(doc: Pain001, restParses: bool)
    ensures ParsePain001(doc, restParses) == if restParses then ParsePain001(doc, true) else None
  {
    hide ParseAmount, PurposeOfIso;
  }

  /**
   For the message built from a transfer, the gate compares the limits with
   the very minor units of its quote: it passes exactly within every limit, and
   escalates exactly for a politically exposed sender above the threshold.
   */
  lemma GateComparesQuotedUnits(
      t: Transfer, schemaAccepts: bool, restParses: bool, screening: Screening, profile: SenderProfile)
    ensures var result := Evaluate(Message(BuildPain001(t, schemaAccepts)), restParses, screening, profile);
            var send, limits := t.quote.send, screening.limits;
            var reaches := ReachesLimits(t, schemaAccepts, restParses, screening) && HasLimit(send, profile, limits);
            && (result.outcome == Passes <==>
                  && reaches
                  && 0 < send.minorUnits <= limits.singleTransferLimits[profile.kycTier]
                  && profile.priorMinorUnits + send.minorUnits <= limits.cumulativeLimit
                  && (profile.isPep ==> send.minorUnits <= limits.pepReviewThreshold))
            && (result.outcome == Escalates <==>
                  reaches && profile.isPep && send.minorUnits > limits.pepReviewThreshold)
            && (result.outcome != Passes <==> result.citedRules != [])
  {
    hide BuildPain001, Objection, Strip;
    GateOfTransfer(t, schemaAccepts, restParses, screening, profile);
    RefusalsCite(Message(BuildPain001(t, schemaAccepts)), restParses, screening, profile);
  }

  /** A refusal or an escalation always cites a rule; a pass cites none. */
  lemma RefusalsCite(input: Input, restParses: bool, screening: Screening, profile: SenderProfile)
    ensures var result := Evaluate(input, restParses, screening, profile);
            result.outcome == Passes <==> result.citedRules == []
  {
    hide Validate, ParsePain001;
  }
}
