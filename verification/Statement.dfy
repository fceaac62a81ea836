/**
 Bank statements (services/messaging/src/ubunturemit_messaging/camt053.py):
 building a camt.053 statement, parsing one, and reconciling a transfer.

 An `Ntry` element is a tree of texts.  An element with an empty text comes
 back from XML without a text, which the parser treats like a missing element.
 */
module Statement {
  import opened Wrappers
  import opened Text
  import opened AmountCodec
  import opened AmountGrammar
  import opened DomainMoney
  import opened Lifecycle

  datatype StatementEntry = StatementEntry(
    entryReference: string,
    amountMinor: int,
    currency: CurrencyCode,
    creditDebit: string,
    status: string,
    bookingDate: string,
    endToEndId: Option<string>)

  datatype Amt = Amt(ccy: Option<string>, text: string)

  datatype Ntry = Ntry(
    ntryRef: Option<string>,
    amt: Option<Amt>,
    cdtDbtInd: Option<string>,
    sts: Option<string>,
    bookgDt: Option<string>,
    endToEndId: Option<string>)

  datatype ParseError = InvalidAmount

  /** The stripped text of an element, or a default if it is missing or empty. */
  function TextOr(element: Option<string>, default: string): string {
    if element.Some? && element.value != "" then Strip(element.value) else default
  }

  /** A currency that is missing or unknown is taken for ZAR. */
  function EntryCurrency(amt: Amt): CurrencyCode {
    var name := if amt.ccy.Some? then amt.ccy.value else "ZAR";
    if ParseCurrency(name).Some? then ParseCurrency(name).value else ZAR
  }

  predicate HasAmount(n: Ntry) {
    n.amt.Some? && n.amt.value.text != ""
  }

  function ParseEntry(n: Ntry, amountMinor: int): StatementEntry
    requires HasAmount(n)
  {
    var ntryRef, endToEndId := TextOr(n.ntryRef, ""), TextOr(n.endToEndId, "");
    StatementEntry(
      ntryRef, amountMinor, EntryCurrency(n.amt.value), TextOr(n.cdtDbtInd, "CRDT"), TextOr(n.sts, "BOOK"),
      TextOr(n.bookgDt, ""), Some(if endToEndId != "" then endToEndId else ntryRef))
  }

  /** The entries of the first `n` elements: one without an amount is skipped, a malformed amount raises. */
  function ParseFirst(ntries: seq<Ntry>, n: nat): Result<seq<StatementEntry>, ParseError>
    requires n <= |ntries|
  {
    if n == 0 then Ok([])
    else
      match ParseFirst(ntries, n - 1)
      case Err(e) => Err(e)
      case Ok(before) =>
        var ntry := ntries[n - 1];
        if !HasAmount(ntry) then Ok(before)
        else
          match ParseAmount(ntry.amt.value.text)
          case None => Err(InvalidAmount)
          case Some(minor) => Ok(before + [ParseEntry(ntry, minor)])
  }

  method ParseCamt053(ntries: seq<Ntry>) returns (answer: Result<seq<StatementEntry>, ParseError>)
    ensures answer == ParseFirst(ntries, |ntries|)
    ensures answer.Ok? ==> AllStandFor(WithAmount(ntries), answer.value)
    ensures answer.Err? <==> exists i :: 0 <= i < |ntries| && IsMalformed(ntries[i])
  {
    hide AllStandFor, IsMalformed, ParseAmount, ParseEntry;
    ParsedStandFor(ntries, |ntries|);
    assert ntries[..|ntries|] == ntries;
    var entries: seq<StatementEntry> := [];
    for i := 0 to |ntries|
      invariant ParseFirst(ntries, i) == Ok(entries)
    {
      if !HasAmount(ntries[i]) {
        continue;
      }
      var minor := ParseAmount(ntries[i].amt.value.text);
      if minor.None? {
        StaysRefused(ntries, i + 1, |ntries|);
        return Err(InvalidAmount);
      }
      entries := entries + [ParseEntry(ntries[i], minor.value)];
    }
    return Ok(entries);
  }

  lemma {:induction false} StaysRefused(ntries: seq<Ntry>, i: nat, n: nat)
    requires i <= n <= |ntries| && ParseFirst(ntries, i).Err?
    ensures ParseFirst(ntries, n) == ParseFirst(ntries, i)
  {
    if i < n {
      StaysRefused(ntries, i, n - 1);
    }
  }

  /** The text an element gives: its own without the spaces around it, or a default without an element or a text. */
  ghost predicate GivesText(element: Option<string>, default: string, text: string) {
    if element == None || element == Some("") then text == default else IsStripped(element.value, text)
  }

  /** An amount says its currency by name; anything else, or nothing, is taken for ZAR. */
  predicate GivesCurrency(amt: Amt, currency: CurrencyCode) {
    match amt.ccy
    case None => currency == ZAR
    case Some(name) =>
      match currency
      case KES => name == "KES"
      case NGN => name == "NGN"
      case GHS => name == "GHS"
      case USD => name == "USD"
      case ZAR => name != "KES" && name != "NGN" && name != "GHS" && name != "USD"
  }

  /** The entry an element stands for, field by field; a missing identifier is taken from the bank's reference. */
  ghost predicate StandsFor(n: Ntry, e: StatementEntry) {
    && n.amt.Some? && n.amt.value.text != "" && IsAmount(n.amt.value.text, e.amountMinor)
    && GivesCurrency(n.amt.value, e.currency)
    && GivesText(n.ntryRef, "", e.entryReference)
    && GivesText(n.cdtDbtInd, "CRDT", e.creditDebit)
    && GivesText(n.sts, "BOOK", e.status)
    && GivesText(n.bookgDt, "", e.bookingDate)
    && exists id :: GivesText(n.endToEndId, "", id)
                    && e.endToEndId == Some(if id == "" then e.entryReference else id)
  }

  /** The elements with an amount, in order. */
  function WithAmount(ntries: seq<Ntry>): (given: seq<Ntry>)
    ensures forall i :: 0 <= i < |given| ==> given[i].amt.Some? && given[i].amt.value.text != ""
  {
    if ntries == [] then []
    else
      var last := ntries[|ntries| - 1];
      WithAmount(ntries[..|ntries| - 1]) + if last.amt.Some? && last.amt.value.text != "" then [last] else []
  }

  lemma TextIs(element: Option<string>, default: string, text: string)
    ensures GivesText(element, default, text) <==> text == TextOr(element, default)
  {
    if element.Some? {
      StripIs(element.value, text);
    }
  }

  lemma EntryStandsFor(n: Ntry, minor: int)
    requires HasAmount(n) && ParseAmount(n.amt.value.text) == Some(minor)
    ensures StandsFor(n, ParseEntry(n, minor))
  {
    hide ParseAmount, IsAmount, TextOr, GivesText;
    ParsesExactlyTheAmounts(n.amt.value.text, minor);
    var e := ParseEntry(n, minor);
    TextIs(n.ntryRef, "", e.entryReference);
    TextIs(n.cdtDbtInd, "CRDT", e.creditDebit);
    TextIs(n.sts, "BOOK", e.status);
    TextIs(n.bookgDt, "", e.bookingDate);
    TextIs(n.endToEndId, "", TextOr(n.endToEndId, ""));
    assert GivesCurrency(n.amt.value, e.currency);
  }

  /** The element has an amount that is not one. */
  ghost predicate IsMalformed(n: Ntry) {
    n.amt.Some? && n.amt.value.text != "" && forall m :: !IsAmount(n.amt.value.text, m)
  }

  lemma MalformedIs(n: Ntry)
    requires HasAmount(n)
    ensures IsMalformed(n) <==> ParseAmount(n.amt.value.text).None?
  {
    hide ParseAmount, IsAmount;
    var parsed := ParseAmount(n.amt.value.text);
    forall m ensures parsed == Some(m) <==> IsAmount(n.amt.value.text, m) {
      ParsesExactlyTheAmounts(n.amt.value.text, m);
    }
    if parsed.Some? {
      assert IsAmount(n.amt.value.text, parsed.value);
    }
  }

  ghost predicate AllStandFor(given: seq<Ntry>, entries: seq<StatementEntry>) {
    |entries| == |given| && forall i :: 0 <= i < |given| ==> StandsFor(given[i], entries[i])
  }

  lemma OneMoreStandsFor(given: seq<Ntry>, entries: seq<StatementEntry>, n: Ntry, e: StatementEntry)
    requires AllStandFor(given, entries) && StandsFor(n, e)
    ensures AllStandFor(given + [n], entries + [e])
  {
    hide StandsFor;
  }

  /**
   Parsing in the fields of the elements: it raises exactly when some element
   has an amount that is not one, and otherwise gives the entries the elements
   with an amount stand for, in order.
   */
  lemma {:induction false} ParsedStandFor(ntries: seq<Ntry>, n: nat)
    requires n <= |ntries|
    ensures var answer := ParseFirst(ntries, n);
            && (answer.Ok? ==> AllStandFor(WithAmount(ntries[..n]), answer.value))
            && (answer.Err? <==> exists i :: 0 <= i < n && IsMalformed(ntries[i]))
  {
    hide ParseAmount, ParseEntry, StandsFor, IsMalformed;
    if n > 0 {
      ParsedStandFor(ntries, n - 1);
      assert ntries[..n][..n - 1] == ntries[..n - 1];
      var last := ntries[n - 1];
      if HasAmount(last) {
        MalformedIs(last);
        var before := ParseFirst(ntries, n - 1);
        if before.Ok? && ParseAmount(last.amt.value.text).Some? {
          var minor := ParseAmount(last.amt.value.text).value;
          EntryStandsFor(last, minor);
          OneMoreStandsFor(WithAmount(ntries[..n - 1]), before.value, last, ParseEntry(last, minor));
        }
      } else {
        NothingGiven(last);
      }
    }
  }

  lemma NothingGiven(n: Ntry)
    requires !HasAmount(n)
    ensures !IsMalformed(n)
  {
  }

  // ---------------------------------------------------------------------
  // Building
  // ---------------------------------------------------------------------

  function NonEmpty(s: string): Option<string> {
    if s != "" then Some(s) else None
  }

  function BuildEntry(e: StatementEntry): Ntry {
    Ntry(NonEmpty(e.entryReference), Some(Amt(Some(CurrencyName(e.currency)), PrintAmount(e.amountMinor))),
         Some(e.creditDebit), Some(e.status), Some(e.bookingDate),
         if e.endToEndId.Some? then NonEmpty(e.endToEndId.value) else None)
  }

  /** The entry elements of `build_camt053`, appended one by one. */
  method BuildCamt053(entries: seq<StatementEntry>) returns (ntries: seq<Ntry>)
    ensures ntries == Build(entries)
  {
    ntries := [];
    for i := 0 to |entries|
      invariant ntries == Build(entries)[..i]
    {
      ntries := ntries + [BuildEntry(entries[i])];
    }
  }

  function Build(entries: seq<StatementEntry>): (ntries: seq<Ntry>)
    ensures |ntries| == |entries|
  {
    seq(|entries|, i requires 0 <= i < |entries| => BuildEntry(entries[i]))
  }

  // ---------------------------------------------------------------------
  // The round trip
  // ---------------------------------------------------------------------

  /** What an entry becomes on its way through a statement. */
  function Normalised(e: StatementEntry): StatementEntry {
    var reference := Strip(e.entryReference);
    var endToEndId := if e.endToEndId.Some? then Strip(e.endToEndId.value) else "";
    e.(entryReference := reference,
       creditDebit := if e.creditDebit == "" then "CRDT" else Strip(e.creditDebit),
       status := if e.status == "" then "BOOK" else Strip(e.status),
       bookingDate := Strip(e.bookingDate),
       endToEndId := Some(if endToEndId != "" then endToEndId else reference))
  }

  function AllNormalised(entries: seq<StatementEntry>): (normalised: seq<StatementEntry>)
    ensures |normalised| == |entries|
  {
    seq(|entries|, i requires 0 <= i < |entries| => Normalised(entries[i]))
  }

  lemma EntryRoundTrip(e: StatementEntry)
    ensures HasAmount(BuildEntry(e))
    ensures ParseAmount(BuildEntry(e).amt.value.text) == Some(e.amountMinor)
    ensures ParseEntry(BuildEntry(e), e.amountMinor) == Normalised(e)
  {
    hide ParseAmount, PrintInt;
    AmountRoundTrip(e.amountMinor);
    CurrencyRoundTrip(e.currency);
    assert Strip("") == "";
  }

  lemma {:induction false} PrefixRoundTrip(entries: seq<StatementEntry>, n: nat)
    requires n <= |entries|
    ensures ParseFirst(Build(entries), n) == Ok(AllNormalised(entries)[..n])
  {
    hide BuildEntry, ParseEntry, Normalised, HasAmount, ParseAmount;
    if n > 0 {
      PrefixRoundTrip(entries, n - 1);
      EntryRoundTrip(entries[n - 1]);
      assert AllNormalised(entries)[..n] == AllNormalised(entries)[..n - 1] + [Normalised(entries[n - 1])];
    }
  }

  /** Parsing a built statement gives every entry back in its normal form, in order, and refuses none. */
  lemma StatementRoundTrip(entries: seq<StatementEntry>)
    ensures ParseFirst(Build(entries), |entries|) == Ok(AllNormalised(entries))
  {
    PrefixRoundTrip(entries, |entries|);
    assert AllNormalised(entries)[..|entries|] == AllNormalised(entries);
  }

  /** An entry with its absent identifier filled from its reference. */
  function Filled(e: StatementEntry): StatementEntry {
    if e.endToEndId.Some? && e.endToEndId.value != "" then e
    else e.(endToEndId := Some(e.entryReference))
  }

  predicate IsTrimmedEntry(e: StatementEntry) {
    && Strip(e.entryReference) == e.entryReference
    && Strip(e.creditDebit) == e.creditDebit != ""
    && Strip(e.status) == e.status != ""
    && Strip(e.bookingDate) == e.bookingDate
    && (e.endToEndId.Some? ==> Strip(e.endToEndId.value) == e.endToEndId.value)
  }

  /** The statement restores an entry up to filling its identifier exactly when its fields are trimmed and named. */
  lemma RestoredExactlyWhen(e: StatementEntry)
    ensures Normalised(e) == Filled(e) <==> IsTrimmedEntry(e)
  {
    assert Strip("") == "";
  }

  // ---------------------------------------------------------------------
  // Reconciling
  // ---------------------------------------------------------------------

  datatype Unreconciled = NoEntry | CurrencyMismatch | AmountMismatch | UnsupportedStatus

  predicate Matches(e: StatementEntry, reference: string) {
    e.endToEndId == Some(reference) || e.entryReference == reference
  }

  /** The position of the first entry that matches. */
  function FirstMatch(entries: seq<StatementEntry>, reference: string, n: nat): (i: nat)
    requires n <= |entries|
    ensures i <= n
    ensures i < n ==> Matches(entries[i], reference)
    ensures forall j :: 0 <= j < i ==> !Matches(entries[j], reference)
  {
    if n == 0 then 0
    else
      var i := FirstMatch(entries, reference, n - 1);
      if i < n - 1 then i
      else if Matches(entries[n - 1], reference) then n - 1
      else n
  }

  /** The decision about the matching entry; which way the money went is not looked at. */
  function Decide(t: Transfer, e: StatementEntry): Result<Transfer, Unreconciled> {
    if e.currency != t.quote.recipientReceives.currency then Err(Unreconciled.CurrencyMismatch)
    else if e.amountMinor != t.quote.recipientReceives.minorUnits then Err(AmountMismatch)
    else if e.status == "BOOK" then Ok(if t.state == SETTLING then t.(state := DELIVERED) else t)
    else if e.status == "PDNG" then Ok(t)
    else Err(UnsupportedStatus)
  }

  function Reconcile(t: Transfer, entries: seq<StatementEntry>): Result<Transfer, Unreconciled> {
    var i := FirstMatch(entries, t.reference, |entries|);
    if i == |entries| then Err(NoEntry) else Decide(t, entries[i])
  }

  /** Entry `i` carries the reference, as its identifier or as the bank's own, and no earlier entry does. */
  predicate IsFirstFor(entries: seq<StatementEntry>, reference: string, i: nat)
    requires i < |entries|
  {
    && (entries[i].endToEndId == Some(reference) || entries[i].entryReference == reference)
    && forall j :: 0 <= j < i ==> entries[j].endToEndId != Some(reference) && entries[j].entryReference != reference
  }

  /** What the entry decides: its currency first, then its amount, then its status. */
  predicate IsDecidedBy(t: Transfer, e: StatementEntry, answer: Result<Transfer, Unreconciled>) {
    var received := t.quote.recipientReceives;
    && (answer == Err(Unreconciled.CurrencyMismatch) <==> e.currency != received.currency)
    && (answer == Err(AmountMismatch) <==> e.currency == received.currency && e.amountMinor != received.minorUnits)
    && (answer == Err(UnsupportedStatus) <==>
          Money(e.amountMinor, e.currency) == received && e.status != "BOOK" && e.status != "PDNG")
    && (answer == Ok(t.(state := if e.status == "BOOK" && t.state == SETTLING then DELIVERED else t.state)) <==>
          Money(e.amountMinor, e.currency) == received && (e.status == "BOOK" || e.status == "PDNG"))
    && answer != Err(NoEntry)
  }

  method ReconcileTransfer(t: Transfer, entries: seq<StatementEntry>) returns (answer: Result<Transfer, Unreconciled>)
    ensures answer == Reconcile(t, entries)
    ensures answer == Err(NoEntry) <==>
              forall j :: 0 <= j < |entries| ==>
                entries[j].endToEndId != Some(t.reference) && entries[j].entryReference != t.reference
    ensures forall i :: 0 <= i < |entries| && IsFirstFor(entries, t.reference, i) ==>
              IsDecidedBy(t, entries[i], answer)
  {
    ReconciledByTheFirst(t, entries);
    var matching: Option<StatementEntry> := None;
    var i := 0;
    while i < |entries| && matching.None?
      invariant i <= |entries|
      invariant matching.None? ==> forall j :: 0 <= j < i ==> !Matches(entries[j], t.reference)
      invariant matching.Some? ==> i > 0 && matching == Some(entries[i - 1]) && Matches(entries[i - 1], t.reference)
      invariant matching.Some? ==> forall j :: 0 <= j < i - 1 ==> !Matches(entries[j], t.reference)
    {
      if Matches(entries[i], t.reference) {
        matching := Some(entries[i]);
      }
      i := i + 1;
    }
    if matching.None? {
      return Err(NoEntry);
    }
    answer := Decide(t, matching.value);
  }

  /** A booked entry for exactly the amount delivers, a pending one changes nothing, anything else is refused. */
  lemma DeliversExactlyWhen(t: Transfer, entries: seq<StatementEntry>)
    ensures var i, answer := FirstMatch(entries, t.reference, |entries|), Reconcile(t, entries);
            && (answer.Ok? && answer.value != t <==>
                  t.state == SETTLING && i < |entries| && entries[i].status == "BOOK"
                  && Money(entries[i].amountMinor, entries[i].currency) == t.quote.recipientReceives)
            && (answer.Ok? && answer.value != t ==> TransitionTo(t, DELIVERED) == Ok(answer.value))
            && (answer.Ok? <==>
                  i < |entries| && (entries[i].status == "BOOK" || entries[i].status == "PDNG")
                  && Money(entries[i].amountMinor, entries[i].currency) == t.quote.recipientReceives)
            && (answer == Err(NoEntry) <==> forall j :: 0 <= j < |entries| ==> !Matches(entries[j], t.reference))
  {
  }

  /** Reconciling in the fields of the entries: the first one that carries the reference decides. */
  lemma ReconciledByTheFirst(t: Transfer, entries: seq<StatementEntry>)
    ensures var answer := Reconcile(t, entries);
            && (answer == Err(NoEntry) <==>
                  forall j :: 0 <= j < |entries| ==>
                    entries[j].endToEndId != Some(t.reference) && entries[j].entryReference != t.reference)
            && (forall i :: 0 <= i < |entries| && IsFirstFor(entries, t.reference, i) ==>
                  IsDecidedBy(t, entries[i], answer))
            && (answer != Err(NoEntry) ==> exists i :: 0 <= i < |entries| && IsFirstFor(entries, t.reference, i))
  {
    var i := FirstMatch(entries, t.reference, |entries|);
    if i < |entries| {
      assert IsFirstFor(entries, t.reference, i);
    }
    forall k | 0 <= k < |entries| && IsFirstFor(entries, t.reference, k)
      ensures IsDecidedBy(t, entries[k], Reconcile(t, entries))
    {
      assert Matches(entries[k], t.reference) && k == i;
    }
  }

  lemma MatchesAlike(e: StatementEntry, reference: string)
    requires IsTrimmedEntry(e) && reference != ""
    ensures Matches(Normalised(e), reference) <==> Matches(e, reference)
  {
    RestoredExactlyWhen(e);
  }

  lemma DecidesAlike(t: Transfer, e: StatementEntry)
    requires IsTrimmedEntry(e)
    ensures Decide(t, Normalised(e)) == Decide(t, e)
  {
    RestoredExactlyWhen(e);
  }

  /**
   For trimmed entries a transfer reconciles against the parsed statement with
   the same result, or the same refusal, as against the entries themselves.
   A transfer never has a blank reference.
   */
  lemma ReconcilesAlike(t: Transfer, entries: seq<StatementEntry>)
    requires t.reference != "" && forall i :: 0 <= i < |entries| ==> IsTrimmedEntry(entries[i])
    ensures ParseFirst(Build(entries), |entries|).Ok?
    ensures Reconcile(t, ParseFirst(Build(entries), |entries|).value) == Reconcile(t, entries)
  {
    hide Normalised, IsTrimmedEntry, Matches, Decide, ParseFirst;
    StatementRoundTrip(entries);
    var parsed := AllNormalised(entries);
    forall i | 0 <= i < |entries|
      ensures Matches(parsed[i], t.reference) <==> Matches(entries[i], t.reference)
      ensures Decide(t, parsed[i]) == Decide(t, entries[i])
    {
      MatchesAlike(entries[i], t.reference);
      DecidesAlike(t, entries[i]);
    }
    var i, j := FirstMatch(parsed, t.reference, |entries|), FirstMatch(entries, t.reference, |entries|);
    assert i == j;
  }
}
