/**
 The runtime gates of an incoming pain.001 message
 (services/messaging/src/ubunturemit_messaging/validate.py): schema, field
 rules, business rules, and an EndToEndId that was never used before.

 A message is the tree of the texts the gates look at; whether it is well
 formed and what the schema says of it are given.
 */
module MessageValidation {
  import opened Wrappers
  import opened Text
  import opened AmountCodec
  import opened AmountGrammar
  import opened DomainMoney
  import opened Lifecycle

  datatype InstdAmt = InstdAmt(ccy: Option<string>, text: string)

  /** An element without a text has the empty one. */
  datatype Pain001 = Pain001(
    schemaAccepts: bool,
    endToEndId: Option<string>,
    pmtInfId: Option<string>,
    instdAmt: Option<InstdAmt>,
    chrgBr: Option<string>,
    purpose: Option<string>,
    debtorName: Option<string>,
    debtorBic: Option<string>,
    creditorName: Option<string>,
    creditorBic: Option<string>)

  datatype Input = NotXml | Message(doc: Pain001)

  datatype Stage = XSD | FIELD_RULES | BUSINESS_RULES | ACCEPTED

  datatype Verdict = Verdict(valid: bool, stage: Stage)

  function IsoPurpose(p: PaymentPurpose): string {
    match p
    case FAMILY_SUPPORT => "FAMI"
    case BUSINESS_INVESTMENT => "BEXP"
    case GOODS_OR_SERVICES => "GDDS"
    case EDUCATION => "EDUC"
    case MEDICAL => "HLTI"
  }

  function PurposeOfIso(code: string): Option<PaymentPurpose> {
    if code == "FAMI" then Some(FAMILY_SUPPORT)
    else if code == "BEXP" then Some(BUSINESS_INVESTMENT)
    else if code == "GDDS" then Some(GOODS_OR_SERVICES)
    else if code == "EDUC" then Some(EDUCATION)
    else if code == "HLTI" then Some(MEDICAL)
    else None
  }

  lemma PurposeRoundTrip(p: PaymentPurpose)
    ensures PurposeOfIso(IsoPurpose(p)) == Some(p)
    ensures Strip(IsoPurpose(p)) == IsoPurpose(p) != ""
  {
  }

  /** The stripped identifier; empty if it is missing or blank. */
  function EndToEndId(doc: Pain001): string {
    if doc.endToEndId.Some? then Strip(doc.endToEndId.value) else ""
  }

  /** The identifier of an input, empty if it has none. */
  function IdOf(input: Input): string {
    if input.NotXml? then "" else EndToEndId(input.doc)
  }

  predicate FieldsAreValid(doc: Pain001) {
    && EndToEndId(doc) != ""
    && doc.instdAmt.Some?
    && doc.instdAmt.value.ccy.Some? && ParseCurrency(doc.instdAmt.value.ccy.value).Some?
    && doc.chrgBr == Some("SLEV")
    && (doc.purpose.Some? && doc.purpose.value != "" ==> PurposeOfIso(Strip(doc.purpose.value)).Some?)
  }

  /** The text of the amount, or a zero that the next check refuses. */
  function AmountText(doc: Pain001): string
    requires doc.instdAmt.Some?
  {
    if doc.instdAmt.value.text == "" then "0" else doc.instdAmt.value.text
  }

  predicate AmountIsPositive(doc: Pain001)
    requires doc.instdAmt.Some?
  {
    ParseAmount(AmountText(doc)).Some? && ParseAmount(AmountText(doc)).value > 0
  }

  /** The gates before the one that remembers: the verdict they refuse with. */
  function Objection(input: Input): Option<Stage> {
    if input.NotXml? || !input.doc.schemaAccepts then Some(XSD)
    else if !FieldsAreValid(input.doc) then Some(FIELD_RULES)
    else if !AmountIsPositive(input.doc) then Some(BUSINESS_RULES)
    else None
  }

  /** The verdict given what the store has seen; no store, no reuse check. */
  function Validate(input: Input, seen: Option<set<string>>): Verdict {
    if Objection(input).Some? then Verdict(false, Objection(input).value)
    else if seen.Some? && IdOf(input) in seen.value then Verdict(false, BUSINESS_RULES)
    else Verdict(true, ACCEPTED)
  }

  /** Only an accepted message leaves its identifier behind. */
  function SeenAfter(input: Input, seen: set<string>): set<string> {
    if Validate(input, Some(seen)).valid then seen + {IdOf(input)} else seen
  }

  // ---------------------------------------------------------------------
  // What the gates ask, in the fields of the document
  // ---------------------------------------------------------------------

  /** The identifier of a document, the spaces around it aside; a blank one is none. */
  ghost predicate Identifies(doc: Pain001, id: string) {
    doc.endToEndId.Some? && IsStripped(doc.endToEndId.value, id) && id != ""
  }

  predicate NamesCurrency(doc: Pain001) {
    doc.instdAmt.Some? && doc.instdAmt.value.ccy.Some?
    && doc.instdAmt.value.ccy.value in {"ZAR", "KES", "NGN", "GHS", "USD"}
  }

  /** The purpose may be left out; one that is given is a code of the table. */
  ghost predicate NamesPurpose(doc: Pain001) {
    doc.purpose == None || doc.purpose == Some("")
    || exists code ::
         IsStripped(doc.purpose.value, code) && code in {"FAMI", "BEXP", "GDDS", "EDUC", "HLTI"}
  }

  ghost predicate HasFields(doc: Pain001) {
    (exists id :: Identifies(doc, id)) && NamesCurrency(doc) && doc.chrgBr == Some("SLEV") && NamesPurpose(doc)
  }

  ghost predicate PaysSomething(doc: Pain001) {
    doc.instdAmt.Some? && exists n :: n > 0 && IsAmount(doc.instdAmt.value.text, n)
  }

  lemma IdentifierIs(doc: Pain001, id: string)
    ensures Identifies(doc, id) <==> id == EndToEndId(doc) && id != ""
  {
    if doc.endToEndId.Some? {
      StripIs(doc.endToEndId.value, id);
    }
  }

  lemma FieldsAreAsked(doc: Pain001)
    ensures HasFields(doc) <==> FieldsAreValid(doc)
  {
    hide IsStripped, Strip;
    IdentifierIs(doc, EndToEndId(doc));
    if id :| Identifies(doc, id) {
      IdentifierIs(doc, id);
    }
    if doc.purpose.Some? {
      StripIs(doc.purpose.value, Strip(doc.purpose.value));
      if code :| IsStripped(doc.purpose.value, code) && code in {"FAMI", "BEXP", "GDDS", "EDUC", "HLTI"} {
        StripIs(doc.purpose.value, code);
      }
    }
  }

  lemma EmptyIsNoAmount(n: int)
    ensures !IsAmount("", n)
  {
    ParsesExactlyTheAmounts("", n);
    assert Split("")[0] == "";
  }

  lemma ZeroIsNothing()
    ensures ParseAmount("0") == Some(0)
  {
    ParsedWhole("0");
    ParsedDigits("0");
    assert "0"[..0] == "";
  }

  lemma AmountIsAsked(doc: Pain001)
    requires doc.instdAmt.Some?
    ensures PaysSomething(doc) <==> AmountIsPositive(doc)
  {
    hide IsAmount, ParseAmount;
    var text := doc.instdAmt.value.text;
    forall n ensures ParseAmount(text) == Some(n) <==> IsAmount(text, n) {
      ParsesExactlyTheAmounts(text, n);
    }
    ZeroIsNothing();
    if text == "" {
      forall n ensures !IsAmount("", n) {
        EmptyIsNoAmount(n);
      }
    } else if AmountIsPositive(doc) {
      assert IsAmount(text, ParseAmount(text).value);
    }
  }

  /** What each gate asks of every document, and which of them refuses. */
  lemma RefusedExactlyWhen(input: Input)
    ensures Objection(input) == Some(XSD) <==> input.NotXml? || !input.doc.schemaAccepts
    ensures Objection(input) == Some(FIELD_RULES) <==>
              input.Message? && input.doc.schemaAccepts && !HasFields(input.doc)
    ensures Objection(input) == Some(BUSINESS_RULES) <==>
              input.Message? && input.doc.schemaAccepts && HasFields(input.doc) && !PaysSomething(input.doc)
    ensures Objection(input).None? <==>
              input.Message? && input.doc.schemaAccepts && HasFields(input.doc) && PaysSomething(input.doc)
  {
    hide PaysSomething, AmountIsPositive;
    if input.Message? {
      FieldsAreAsked(input.doc);
      if input.doc.instdAmt.Some? {
        AmountIsAsked(input.doc);
      }
    }
  }

  // ---------------------------------------------------------------------
  // The gates in order
  // ---------------------------------------------------------------------

  class InMemoryEndToEndIdStore {
    var seen: set<string>

    constructor ()
      ensures seen == {}
    {
      seen := {};
    }

    predicate IsSeen(id: string)
      reads this
    {
      id in seen
    }

    method Record(id: string)
      modifies this
      ensures seen == old(seen) + {id}
    {
      seen := seen + {id};
    }
  }

  /** The gates one after the other, with a store to consult and extend. */
  method ValidatePain001Message(input: Input, store: InMemoryEndToEndIdStore) returns (verdict: Verdict)
    modifies store
    ensures verdict == Validate(input, Some(old(store.seen)))
    ensures store.seen == SeenAfter(input, old(store.seen))
    ensures verdict.valid <==>
              input.Message? && input.doc.schemaAccepts && HasFields(input.doc) && PaysSomething(input.doc)
              && exists id :: Identifies(input.doc, id) && id !in old(store.seen)
    ensures verdict.valid ==> verdict.stage == ACCEPTED && forall id ::
              Identifies(input.doc, id) ==> store.seen == old(store.seen) + {id}
    ensures !verdict.valid ==>
              store.seen == old(store.seen)
              && verdict.stage == if input.NotXml? || !input.doc.schemaAccepts then XSD
                                  else if !HasFields(input.doc) then FIELD_RULES
                                  else BUSINESS_RULES
  {
    hide PurposeOfIso, ParseAmount, HasFields, PaysSomething, IsStripped;
    RefusedExactlyWhen(input);
    if input.Message? {
      forall id ensures Identifies(input.doc, id) <==> id == EndToEndId(input.doc) && id != "" {
        IdentifierIs(input.doc, id);
      }
    }
    if input.NotXml? || !input.doc.schemaAccepts {
      return Verdict(false, XSD);
    }
    var doc := input.doc;
    if doc.endToEndId.None? || Strip(doc.endToEndId.value) == "" {
      return Verdict(false, FIELD_RULES);
    }
    var id := Strip(doc.endToEndId.value);
    if doc.instdAmt.None? {
      return Verdict(false, FIELD_RULES);
    }
    var ccy := if doc.instdAmt.value.ccy.Some? then doc.instdAmt.value.ccy.value else "";
    if ParseCurrency(ccy).None? {
      return Verdict(false, FIELD_RULES);
    }
    if doc.chrgBr != Some("SLEV") {
      return Verdict(false, FIELD_RULES);
    }
    if doc.purpose.Some? && doc.purpose.value != "" {
      if PurposeOfIso(Strip(doc.purpose.value)).None? {
        return Verdict(false, FIELD_RULES);
      }
    }
    var amount := ParseAmount(AmountText(doc));
    if amount.None? || amount.value <= 0 {
      return Verdict(false, BUSINESS_RULES);
    }
    if store.IsSeen(id) {
      return Verdict(false, BUSINESS_RULES);
    }
    store.Record(id);
    return Verdict(true, ACCEPTED);
  }

  // ---------------------------------------------------------------------
  // Any sequence of messages
  // ---------------------------------------------------------------------

  /** The store after the first `n` of a sequence of messages. */
  function SeenAfterAll(inputs: seq<Input>, seen: set<string>, n: nat): set<string>
    requires n <= |inputs|
  {
    if n == 0 then seen else SeenAfter(inputs[n - 1], SeenAfterAll(inputs, seen, n - 1))
  }

  predicate IsAccepted(inputs: seq<Input>, seen: set<string>, i: nat)
    requires i < |inputs|
  {
    Validate(inputs[i], Some(SeenAfterAll(inputs, seen, i))).valid
  }

  /** The store holds what it held before and exactly the identifiers of the accepted messages. */
  lemma {:induction false} StoreHoldsAcceptedIds(inputs: seq<Input>, seen: set<string>, n: nat, id: string)
    requires n <= |inputs|
    ensures id in SeenAfterAll(inputs, seen, n)
       <==> id in seen || exists i :: 0 <= i < n && IsAccepted(inputs, seen, i) && IdOf(inputs[i]) == id
  {
    hide Objection, IdOf;
    if n > 0 {
      StoreHoldsAcceptedIds(inputs, seen, n - 1, id);
      assert IsAccepted(inputs, seen, n - 1) && IdOf(inputs[n - 1]) == id ==> id in SeenAfterAll(inputs, seen, n);
    }
  }

  /**
   A message is accepted exactly when it passes the other gates and is the
   first to do so with its identifier: no identifier is accepted twice, and a
   rejected message does not use up its own.
   */
  lemma {:induction false} AcceptedExactlyWhenFirst(inputs: seq<Input>, seen: set<string>, n: nat)
    requires n < |inputs|
    ensures IsAccepted(inputs, seen, n)
       <==> && Objection(inputs[n]).None?
            && IdOf(inputs[n]) !in seen
            && forall i :: 0 <= i < n && Objection(inputs[i]).None? ==> IdOf(inputs[i]) != IdOf(inputs[n])
    decreases n
  {
    hide Objection, SeenAfterAll, IdOf;
    var id := IdOf(inputs[n]);
    StoreHoldsAcceptedIds(inputs, seen, n, id);
    if Objection(inputs[n]).None? {
      if i :| 0 <= i < n && Objection(inputs[i]).None? && IdOf(inputs[i]) == id {
        // The identifier is in the store by then: message `i` was accepted, or found it there.
        StoreHoldsAcceptedIds(inputs, seen, i, id);
        assert IsAccepted(inputs, seen, i) || id in SeenAfterAll(inputs, seen, i);
      }
    }
  }

  lemma AcceptedAtMostOnce(inputs: seq<Input>, seen: set<string>, i: nat, j: nat)
    requires i < j < |inputs|
    ensures IsAccepted(inputs, seen, i) && IsAccepted(inputs, seen, j) ==> IdOf(inputs[i]) != IdOf(inputs[j])
  {
    hide SeenAfterAll;
    AcceptedExactlyWhenFirst(inputs, seen, i);
    AcceptedExactlyWhenFirst(inputs, seen, j);
  }
}
