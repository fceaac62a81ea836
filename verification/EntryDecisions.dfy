/**
 What the entry gate decides about any message, in the fields of the document,
 of the sender's profile and of the limit table
 (services/asco/src/ubunturemit_asco/guardrails/entry.py:210-324 and
 services/messaging/src/ubunturemit_messaging/pain001.py:183-325).
 */
module EntryDecisions {
  import opened Wrappers
  import opened Text
  import opened AmountCodec
  import opened AmountGrammar
  import opened DomainMoney
  import opened Lifecycle
  import opened MessageValidation
  import opened EntryGate

  // ---------------------------------------------------------------------
  // Reading the message
  // ---------------------------------------------------------------------

  /** The text of an element without the spaces around it; none if there is no element. */
  ghost predicate HasText(element: Option<string>, text: string) {
    match element
    case None => text == ""
    case Some(s) => IsStripped(s, text)
  }

  predicate IsCodeOf(code: string, purpose: PaymentPurpose) {
    match purpose
    case FAMILY_SUPPORT => code == "FAMI"
    case BUSINESS_INVESTMENT => code == "BEXP"
    case GOODS_OR_SERVICES => code == "GDDS"
    case EDUCATION => code == "EDUC"
    case MEDICAL => code == "HLTI"
  }

  /** The currency an amount names; a missing or an unknown name is taken for ZAR. */
  predicate IsCurrencyOf(name: Option<string>, currency: CurrencyCode) {
    match currency
    case KES => name == Some("KES")
    case NGN => name == Some("NGN")
    case GHS => name == Some("GHS")
    case USD => name == Some("USD")
    case ZAR => name != Some("KES") && name != Some("NGN") && name != Some("GHS") && name != Some("USD")
  }

  /** The reference is the payment's, or else the transaction's. */
  ghost predicate RefersBy(doc: Pain001, reference: string) {
    reference != ""
    && (HasText(doc.pmtInfId, reference) || (HasText(doc.pmtInfId, "") && HasText(doc.endToEndId, reference)))
  }

  ghost predicate Says(doc: Pain001, p: Parsed) {
    && RefersBy(doc, p.reference)
    && HasText(doc.debtorName, p.senderName) && HasText(doc.debtorBic, p.senderBic)
    && HasText(doc.creditorName, p.recipientName) && HasText(doc.creditorBic, p.recipientBic)
    && doc.instdAmt.Some? && IsAmount(doc.instdAmt.value.text, p.send.minorUnits)
    && IsCurrencyOf(doc.instdAmt.value.ccy, p.send.currency)
    && exists code :: HasText(doc.purpose, code) && IsCodeOf(code, p.purpose)
  }

  lemma TextIs(element: Option<string>, text: string)
    ensures HasText(element, text) <==> text == StrippedText(element)
  {
    if element.Some? {
      StripIs(element.value, text);
    }
  }

  lemma ReferenceIs(doc: Pain001, reference: string)
    ensures RefersBy(doc, reference) <==>
              reference == (if StrippedText(doc.pmtInfId) != "" then StrippedText(doc.pmtInfId)
                            else StrippedText(doc.endToEndId))
              && reference != ""
  {
    hide HasText, StrippedText;
    TextIs(doc.pmtInfId, reference);
    TextIs(doc.pmtInfId, "");
    TextIs(doc.endToEndId, reference);
  }

  lemma AmountIs(amount: InstdAmt, send: Money)
    ensures IsAmount(amount.text, send.minorUnits) && IsCurrencyOf(amount.ccy, send.currency)
       <==> ParseAmount(amount.text) == Some(send.minorUnits) && SendCurrency(amount) == send.currency
  {
    hide IsAmount, ParseAmount;
    ParsesExactlyTheAmounts(amount.text, send.minorUnits);
  }

  lemma PurposeIs(code: string, purpose: PaymentPurpose)
    ensures PurposeOfIso(code) == Some(purpose) <==> IsCodeOf(code, purpose)
  {
  }

  /** A document is read exactly as what it says, if the rest of it can be read. */
  lemma ReadExactlyWhen(doc: Pain001, restParses: bool, p: Parsed)
    ensures ParsePain001(doc, restParses) == Some(p) <==> restParses && Says(doc, p)
  {
    hide HasText, StrippedText, IsAmount, ParseAmount, PurposeOfIso, IsCodeOf, SendCurrency, IsCurrencyOf, RefersBy;
    ReferenceIs(doc, p.reference);
    TextIs(doc.debtorName, p.senderName);
    TextIs(doc.debtorBic, p.senderBic);
    TextIs(doc.creditorName, p.recipientName);
    TextIs(doc.creditorBic, p.recipientBic);
    TextIs(doc.purpose, StrippedText(doc.purpose));
    PurposeIs(StrippedText(doc.purpose), p.purpose);
    forall code ensures HasText(doc.purpose, code) <==> code == StrippedText(doc.purpose) {
      TextIs(doc.purpose, code);
    }
    if doc.instdAmt.Some? {
      AmountIs(doc.instdAmt.value, p.send);
      if doc.instdAmt.value.text == "" {
        EmptyIsNoAmount(p.send.minorUnits);
      }
    }
  }

  // ---------------------------------------------------------------------
  // The gate
  // ---------------------------------------------------------------------

  ghost predicate PassesValidation(input: Input) {
    input.Message? && input.doc.schemaAccepts && HasFields(input.doc) && PaysSomething(input.doc)
  }

  /** The limits on an amount, each with what it is cited as; the first one that applies decides. */
  ghost predicate IsLimitedBy(send: Money, profile: SenderProfile, limits: LimitTable, result: EntryResult) {
    var units, tier := send.minorUnits, profile.kycTier;
    var applies := send.currency == limits.currency && tier in limits.singleTransferLimits;
    var exposed := profile.isPep && units > limits.pepReviewThreshold;
    && (result == EntryResult(Refuses, LIMITS, [LIMIT_TABLE_UNAVAILABLE, SourceCitation]) <==> !applies)
    && (result == EntryResult(Escalates, PEP_SCREEN, [FIC_ACT_S21H_PEP, SourceCitation]) <==> applies && exposed)
    && (result == EntryResult(Refuses, LIMITS, [FICA_TIER_LIMIT, SARB_EXCON_LIMIT_EXCEEDED, SourceCitation]) <==>
          applies && !exposed && units > limits.singleTransferLimits[tier])
    && (result == EntryResult(Refuses, LIMITS, [SARB_EXCON_SDA_CAP_EXCEEDED, SourceCitation]) <==>
          applies && !exposed && units <= limits.singleTransferLimits[tier]
          && profile.priorMinorUnits + units > limits.cumulativeLimit)
    && (result == EntryResult(Passes, CLEAR, []) <==>
          applies && !exposed && units <= limits.singleTransferLimits[tier]
          && profile.priorMinorUnits + units <= limits.cumulativeLimit)
  }

  /**
   The gate on every message: which stage refuses, escalates or passes it, and
   the rules it cites, each exactly when its condition is the first to hold.
   */
  lemma GateDecidesExactlyWhen(input: Input, restParses: bool, screening: Screening, profile: SenderProfile)
    ensures var result := Evaluate(input, restParses, screening, profile);
            && (!PassesValidation(input) ==> result == EntryResult(Refuses, SCHEMA, [ISO_20022_PAIN001_SCHEMA]))
            && (PassesValidation(input) ==>
                  && ((!restParses || forall p :: !Says(input.doc, p)) ==>
                        result == EntryResult(Refuses, SCHEMA, [ISO_20022_PARSER_ERROR]))
                  && (forall p :: restParses && Says(input.doc, p) ==>
                        if (screening.sanctioned)(p.senderName, p.senderBic)
                           || (screening.sanctioned)(p.recipientName, p.recipientBic)
                        then result == EntryResult(Refuses, SANCTIONS, [FIC_ACT_S28A, SourceCitation])
                        else IsLimitedBy(p.send, profile, screening.limits, result)))
  {
    hide Says, ParsePain001, HasFields, PaysSomething, CheckLimits, IsLimitedBy;
    RefusedExactlyWhen(input);
    if PassesValidation(input) {
      forall p ensures ParsePain001(input.doc, restParses) == Some(p) <==> restParses && Says(input.doc, p) {
        ReadExactlyWhen(input.doc, restParses, p);
      }
      var read := ParsePain001(input.doc, restParses);
      if read.Some? {
        assert Says(input.doc, read.value);
        LimitsDecide(read.value.send, profile, screening.limits);
      }
    }
  }

  lemma LimitsDecide(send: Money, profile: SenderProfile, limits: LimitTable)
    ensures IsLimitedBy(send, profile, limits, CheckLimits(send, profile, limits))
  {
  }
}
