# UbuntuRemit: a verified model

UbuntuRemit moves money across borders. A request passes a deterministic entry
gate, two agents that ask a language model, a deterministic exit gate, and a
router that submits the payment to a rail and falls back to another. Every
decision is recorded on an audit topic and copied into an append-only table.
Around this stand a message codec, statement reconciliation, a verifier for
XML schemas and a structural checker for the web pages.

This project models that logic and proves what it keeps. Code that changes
objects in place is modelled by classes and methods, each proved equal to a
specification function or to steps of a protocol; code made of expressions is
modelled by functions. The lemmas are about every input, every run, or every
reachable state. Laws named `…ExactlyWhen` are if and only if; those about parsing
and deciding speak of the fields of the data, not of the functions that compute
them.

| file | about |
|---|---|
| `Markup`, `MarkupReports`, `MarkupLedger` | the markup checker, what it reports for each event, and what happens to each element |
| `MarkupStrategies`, `MarkupGrammar`, `MarkupEarly` | the checker with a choice of what a start tag pops, an independent grammar it decides under every choice, and popping early against popping late |
| `SchemaVerifier`, `SchemaAcceptance` | the schema pipeline as a depth-first search, against reachability, and what it accepts in the fields of the files |
| `Decimals`, `Money` | decimal rounding and currency conversion |
| `AmountCodec`, `AmountGrammar` | the amount codec, and a grammar of the strings it takes |
| `Statement`, `MessageValidation`, `EntryGate`, `EntryDecisions` | statements and reconciliation, the gates of a message, and the entry gate in the fields of any message |
| `AuditStore`, `AuditPipeline`, `AuditGuarantees` | the audit table, the step protocol over it, and its guarantees |
| `AuditResume`, `AuditConsumer` | polling a consumer again after it raised, and the classes that take the steps |
| `Lifecycle`, `Agents`, `AgentReplies` | the transfer's life, the agents with the exit gate, and what they make of a model's replies |
| `Negotiation`, `RailRouter`, `AuditVerifier` | the coordinator, the fallback router, the completeness check |
| `Gateway`, `SettlementTerms`, `SampleRequests`, `EndToEnd` | one request from the entry gate to the router, what binds a submission, two requests that go wrong, and on to the audit table |
| `Text`, `Wrappers` | string operations and value types |

## What the model settles

Some promises of the code and its documentation do not hold as written. Each is
answered by a lemma that shows it and one that says exactly when it holds.

- The comment at `scripts/check_markup.py:101-108` says that it cannot be
  observed whether an element with an optional end tag is popped early or late.
  It can, for each of them but the paragraph (`EarlyClosingIsObservable`,
  `ListItemsTellThemApart`). No page accepted by early popping is refused by the
  checker (`CheckerAcceptsWhatAnyStrategyDoes`); a page it accepts is accepted
  early exactly when each written end tag whose element is gone finds another
  to close (`EarlyAgreesExactlyWhen`). And the checker is silent exactly when
  some placement of the omitted end tags balances the page
  (`SilentExactlyWhenCompletable`).
- `apply_rate` is documented to round exactly once. The 60-digit product is a
  rounding of its own: `OneMinorUnitDoubleRounds` gives a conversion that is
  off, `RoundsOnceExactlyWhen` the condition, `WithinElevenTwentieths` the bound.
- The namespace check of `verify_schema` covers an edge only when its target is
  visited for the first time: a schema is accepted with an edge that contradicts
  its target exactly when such an edge leads to a file met before
  (`ContradictionIsHiddenExactlyWhen`, `RevisitedEdgeIsNotChecked`,
  `AcceptedFilesAreImportedRightly`).
- A consumer polled again after an exception may skip a message and commit past
  it (`PollingAfterRaisingSkips`). Doing so is safe, whatever follows, exactly
  when each of its positions is within the stored rows or can only raise again
  (`ResumeIsSafeExactlyWhen`), and the guarantees survive any number of such
  resumptions (`SafelyResumedRunsKeepGuarantees`). The other theorems about the
  pipeline assume that an exception out of `poll_once` ends that consumer.
- The sentinel is documented to escalate on a second unusable reply. It raises
  instead when the complaint about that reply is too long for the rationale it
  is quoted in (`AssessRaisesExactlyWhen`, `LongOutcomeRaises`).
- Python takes a string or an object for a list as long as only its items are
  looked at, and so does a verdict with its cited rules; the gateway's response
  does not. A payment can therefore be delivered and leave no answer
  (`TextRulesLoseTheAnswer`), exactly when a rail delivers and the rules are not
  a list (`PaidUnansweredExactlyWhen`); `AnsweredExactlyWhen` has every request.
- A record with a NUL can be published but not stored, and stops its partition
  for good (`NothingPassesARefusedMessage`): a consumer left alone catches up
  exactly when the messages ahead can be read and stored (`ConsumerCatchesUp`).
- The exchange budget of the negotiation is never the reason to escalate: two
  exchanges at most are counted against it (`NegotiateAndSettle`).
- The router's fallback does not know the rails the sentinel forbade
  (`SettlementAvoidsForbiddenExactlyWhen`), and a payment can end up on one
  (`ForbiddenRailCarriesThePayment`).
- The router takes every report but a delivery for a failure
  (`OnlyDeliveryMatters`): a payment that one rail is still settling goes to
  another exactly when a candidate and a retry are left
  (`ResubmitsWhileSettlingExactlyWhen`), as on the input of `SecondRailPaysToo`.
- The router submits before it checks the transfer's state
  (`SubmitsBeforeChecking`), and an adapter that raises leaves a submitted
  payment without an answer (`SubmittedUnansweredExactlyWhen`).
- The entry gate leaves no audit record, so a transfer it turns away has no
  complete trail (`TrailIsCompleteExactlyWhenNegotiated`).
- A negative amount with cents is printed as a string that denotes another
  number, although parsing gives it back (`PrintedDenotesExactlyWhen`,
  `AmountRoundTrip`, `NegativeParsesToFloorExactlyWhen`).

## Model

| member | source | states |
|---|---|---|
| Markup.EveryPageKeepsInvariant | scripts/check_markup.py:188-251 | on every page and at every point of it, `foreign_depth` is the number of svg and math elements on the stack, and a void tag is on the stack only above one of them |
| Markup.StructureParser.constructor | scripts/check_markup.py:171-178 | an empty stack, no findings, no foreign content |
| Markup.StructureParser.HandleStartTag | scripts/check_markup.py:188-200 | the new stack, findings and depth are those of the start-tag step |
| Markup.StructureParser.HandleStartEndTag | scripts/check_markup.py:202-218 | the same for a self-closing tag |
| Markup.StructureParser.HandleEndTag | scripts/check_markup.py:220-240 | the same for an end tag: the innermost match, one finding for each element above it that must close, the stack cut, the depth recounted |
| Markup.StructureParser.RecountForeign | scripts/check_markup.py:240 | the depth is recounted from the stack |
| Markup.StructureParser.ReportUnclosed | scripts/check_markup.py:232-238 | the findings for everything above a depth, from the top of the stack down |
| Markup.StructureParser.FindInnermost | scripts/check_markup.py:242-246 | the scan from the top finds the innermost element of that tag |
| Markup.Innermost | scripts/check_markup.py:242-246 | no element of that tag is deeper than the one found; none at all if none is found |
| Markup.StructureParser.CloseOpenParagraph | scripts/check_markup.py:248-251 | exactly the paragraphs on top of the stack go, and only for a tag that may not follow an open paragraph |
| Markup.ParagraphsKept | scripts/check_markup.py:248-251 | what is popped is paragraphs only, and no closable paragraph is left on top |
| Markup.StructureParser.ReportEndOfFile | scripts/check_markup.py:281-284 | at the end of the file everything open without an optional end tag is reported |
| Markup.CheckMarkup | scripts/check_markup.py:287-294 | the findings of a page are those of its run and of the end of its file |
| MarkupReports.EventReports | scripts/check_markup.py:188-240 | what each event adds: the kind, tag and place of the finding, and for an end tag the elements above its match that must be closed, all of them, from the top down, with where they were opened and what was read |
| MarkupReports.EndOfFileReports | scripts/check_markup.py:281-284 | the same for what is open at the end of the file |
| MarkupGrammar.SilentUnderExactlyWhen | scripts/check_markup.py:188-284 | whatever elements with an optional end tag a start tag is let pop, the checker finds nothing if and only if writing out some omitted end tags makes the stream strictly balanced |
| MarkupGrammar.SilentExactlyWhenCompletable | scripts/check_markup.py:188-284 | the same for the checker as it is, for every event stream (section 13.1.2.4 of the WHATWG HTML Standard) |
| MarkupStrategies.CheckerFindings | scripts/check_markup.py:188-284 | the checker is the one that pops paragraphs only |
| MarkupStrategies.StepByKeepsInvariant | scripts/check_markup.py:188-251 | the invariant of depth and void tags holds whatever optional elements are popped |
| MarkupEarly.SilentEarlyIsSilentLate | scripts/check_markup.py:101-108 | the more a start tag pops, the fewer pages pass |
| MarkupEarly.CheckerAcceptsWhatAnyStrategyDoes | scripts/check_markup.py:101-108 | matching late accepts every page that popping early accepts |
| MarkupEarly.EarlyAgreesExactlyWhen | scripts/check_markup.py:101-108 | on a page that matches late, popping early finds nothing if and only if every written end tag of an element popped by then finds an outer one of its name with only optional elements above |
| MarkupEarly.EarlyAgreesOnHeldEndTags | scripts/check_markup.py:101-108 | in particular popping early finds nothing if no written end tag belongs to an element popped by then |
| MarkupEarly.EarlyClosingIsObservable | scripts/check_markup.py:101-108 | for every optional element but the paragraph there is a page that passes when matched late and whose early run reports one stray end tag |
| MarkupEarly.ListItemsTellThemApart | scripts/check_markup.py:101-108 | the standard's own rule for list items gives such a page |
| MarkupLedger.EveryElementIsConsumedOnce | scripts/check_markup.py:188-284 | every element pushed is consumed exactly once: by its end tag, by the implicit paragraph close, by one "never closed" finding, or silently as optional |
| SchemaVerifier.VerifySchema | services/messaging/src/ubunturemit_messaging/verify_schema.py:40-223 | the recursion over one shared, growing set of seen paths terminates on every import graph and computes the visit function, set included |
| SchemaAcceptance.VerifyFresh | services/messaging/src/ubunturemit_messaging/verify_schema.py:40-223 | a call from outside: accepted if and only if every file one comes to is sound and no first-visit dependency contradicts its file; the stage that refuses, the namespace and message reported, and the locations followed |
| SchemaAcceptance.StagesExactlyWhen | services/messaging/src/ubunturemit_messaging/verify_schema.py:71-164 | a file passes if and only if it is a regular .xsd file with a schema root whose namespace, stripped, is the URN of a message in the version the policy authorizes, with the policy's digest up to case; otherwise the first of these it lacks names the stage |
| SchemaAcceptance.UrnExactlyWhen | services/messaging/src/ubunturemit_messaging/verify_schema.py:19-21 | a namespace names a message and a version if and only if it is the prefix, four letters, three digits, three digits and two digits, joined by dots |
| SchemaAcceptance.AcceptedExactlyWhen | services/messaging/src/ubunturemit_messaging/verify_schema.py:40-223 | the verdict in the fields of files and policy, and of the imports and redefinitions |
| SchemaAcceptance.FirstVisitsCoverTheFiles | services/messaging/src/ubunturemit_messaging/verify_schema.py:175-186 | the first-visit dependencies lead to exactly the files one comes to |
| SchemaAcceptance.AcceptedFilesAreImportedRightly | services/messaging/src/ubunturemit_messaging/verify_schema.py:201-213 | in an accepted schema every file one comes to has a dependency that does not contradict it |
| SchemaVerifier.VisitFollowsDiscovery | services/messaging/src/ubunturemit_messaging/verify_schema.py:166-214 | the search that stops at the first failure agrees with a plain graph search that never stops |
| SchemaVerifier.DiscoveryIsReachability | services/messaging/src/ubunturemit_messaging/verify_schema.py:51-52 | from an empty set the search meets exactly the paths reachable by imports and redefinitions, cycles included |
| SchemaVerifier.VerdictIsReachability | services/messaging/src/ubunturemit_messaging/verify_schema.py:40-223 | accepted if and only if every reachable file passes stages 1 to 6 and every first-visit edge declares no contradicting namespace |
| SchemaVerifier.ConsistentVerdict | services/messaging/src/ubunturemit_messaging/verify_schema.py:171-201 | when no reachable edge contradicts its target, the verdict is reachability alone, whatever the import order |
| SchemaVerifier.RefusalHasACause | services/messaging/src/ubunturemit_messaging/verify_schema.py:186-213 | a refusal means a reachable file that fails or a reachable edge with a mismatched namespace |
| SchemaVerifier.ContradictionIsHiddenExactlyWhen | services/messaging/src/ubunturemit_messaging/verify_schema.py:51-52 | a schema is accepted despite a reachable edge that contradicts its target if and only if every reachable file passes, every first-visit edge matches, and an edge to a file met before does not |
| SchemaVerifier.RevisitedEdgeIsNotChecked | services/messaging/src/ubunturemit_messaging/verify_schema.py:51-52 | a second import of a file under a namespace the file does not have is such an edge, and is accepted |
| Decimals.RoundIsHalfEven | libs/domain/src/ubunturemit_domain/money.py:96-99 | the rounding yields the nearest integer, the even one of two (roundTiesToEven, section 4.3.1 of IEEE 754-2008) |
| Decimals.HalfEvenUnique | libs/domain/src/ubunturemit_domain/money.py:96-99 | the half-even nearest integer is unique |
| Decimals.LongIsRounded | libs/domain/src/ubunturemit_domain/money.py:96-98 | a product too long for the context keeps exactly its precision in digits and moves by at most half a last place, carry included |
| DomainMoney.ApplyRateIsNearlyNearest | libs/domain/src/ubunturemit_domain/money.py:76-101 | at 60 digits: the half-even nearest integer to the exact product if that fits, the same integer exactly when it does not double round, and never more than 11/20 away |
| DomainMoney.ExactProductRoundsOnce | libs/domain/src/ubunturemit_domain/money.py:96-101 | a product that fits the precision becomes its half-even nearest integer, and is refused only for a positive exponent |
| DomainMoney.RefusedExactlyWhenTooLong | libs/domain/src/ubunturemit_domain/money.py:96-99 | the conversion raises if and only if the integer it should give has more digits than the precision |
| DomainMoney.WithinElevenTwentieths | libs/domain/src/ubunturemit_domain/money.py:96-101 | whatever the product, a result is within 11/20 of a minor unit of it |
| DomainMoney.RoundsOnceExactlyWhen | libs/domain/src/ubunturemit_domain/money.py:83-85 | the result is the half-even nearest integer if and only if the product is not carried onto a midpoint from its far side |
| DomainMoney.OneMinorUnitDoubleRounds | libs/domain/src/ubunturemit_domain/money.py:83-85 | one minor unit at a rate just below one and a half becomes two, at every precision from two digits on |
| DomainMoney.MonotoneInProduct | libs/domain/src/ubunturemit_domain/money.py:96-101 | through both roundings a larger exact product never converts to less, whatever the amounts, rates, exponents and lengths |
| DomainMoney.MonotoneInAmount | libs/domain/src/ubunturemit_domain/money.py:76-101 | a larger amount never converts to less |
| DomainMoney.MonotoneInRate | libs/domain/src/ubunturemit_domain/money.py:76-101 | a higher rate never converts an amount that is not negative to less |
| DomainMoney.OddInAmount | libs/domain/src/ubunturemit_domain/money.py:76-101 | the opposite amount converts to the opposite result, or is refused with it |
| DomainMoney.AddsUpExactlyWhen | libs/domain/src/ubunturemit_domain/money.py:59-74 | amounts add up if and only if they are all in one currency, to the sum of their units |
| DomainMoney.SplittingDriftOfExactProducts | libs/domain/src/ubunturemit_domain/money.py:59-101 | converting n parts and adding drifts from converting the whole by at most floor((n+1)/2) minor units |
| DomainMoney.SplittingDrift | libs/domain/src/ubunturemit_domain/money.py:59-101 | the same for products of any length, within 11/20 of n+1 |
| AmountGrammar.ParsesExactlyTheNumerals | services/messaging/src/ubunturemit_messaging/pain001.py:47-52 | Python's `int` takes exactly a sign and groups of digits with single underscores between them, spaces around, for the number they write |
| AmountGrammar.ParsesExactlyTheAmounts | services/messaging/src/ubunturemit_messaging/pain001.py:44-53 | which strings are amounts and for which minor units: every other string is refused; what follows a second dot is ignored, and the cents may carry a sign of their own |
| AmountCodec.AmountRoundTrip | services/messaging/src/ubunturemit_messaging/pain001.py:38-53 | parsing the printed amount gives back every integer, negative ones included |
| AmountCodec.PrintedDenotesExactlyWhen | services/messaging/src/ubunturemit_messaging/pain001.py:38-41 | the printed string denotes n/100 if and only if n is not negative or has no cents |
| AmountCodec.UnsignedParsesToFloor | services/messaging/src/ubunturemit_messaging/pain001.py:44-53 | an unsigned decimal, with a point and any number of places or without a point, parses to the floor of 100 times its value |
| AmountCodec.NegativeParsesToFloorExactlyWhen | services/messaging/src/ubunturemit_messaging/pain001.py:44-53 | a negative decimal of either form does so if and only if its fraction is zero |
| Statement.BuildCamt053 | services/messaging/src/ubunturemit_messaging/camt053.py:227-259 | one entry element for each entry, in order |
| Statement.ParseCamt053 | services/messaging/src/ubunturemit_messaging/camt053.py:60-112 | the entries the elements with an amount stand for, field by field and in order; refused if and only if some amount is not one |
| Statement.ParsedStandFor | services/messaging/src/ubunturemit_messaging/camt053.py:60-112 | the same of the first elements of a statement |
| Statement.StatementRoundTrip | services/messaging/src/ubunturemit_messaging/camt053.py:38-112 | parsing a built statement gives back every entry in normal form and refuses none, for every list of entries |
| Statement.RestoredExactlyWhen | services/messaging/src/ubunturemit_messaging/camt053.py:63-110 | an entry is restored, up to filling an absent EndToEndId from its reference, if and only if its fields are trimmed and its codes not blank |
| Statement.ReconcileTransfer | services/messaging/src/ubunturemit_messaging/camt053.py:115-159 | the first entry that carries the reference, as its EndToEndId or its own reference, decides by currency, amount and status, in this order; without one it is refused as such |
| Statement.ReconciledByTheFirst | services/messaging/src/ubunturemit_messaging/camt053.py:127-159 | the same of the function, in the fields of the entries |
| Statement.DeliversExactlyWhen | services/messaging/src/ubunturemit_messaging/camt053.py:136-159 | reconciling moves a transfer if and only if it is settling and the first match is booked for exactly what the recipient receives; the move is the legal one to DELIVERED; it refuses unless that entry is booked or pending for that amount |
| Statement.ReconcilesAlike | services/messaging/src/ubunturemit_messaging/camt053.py:115-159 | for trimmed entries, reconciling against the parsed statement gives the same result or the same refusal as against the entries |
| MessageValidation.ValidatePain001Message | services/messaging/src/ubunturemit_messaging/validate.py:66-186 | accepted if and only if the schema accepts, the stripped EndToEndId is new and not empty, the currency is a known name, the charge bearer is SLEV, the purpose is left out or a known code, and the amount is more than zero; the stage of the first that fails; the store extended by the id exactly then |
| MessageValidation.RefusedExactlyWhen | services/messaging/src/ubunturemit_messaging/validate.py:72-166 | which gate refuses any document, in its fields |
| MessageValidation.StoreHoldsAcceptedIds | services/messaging/src/ubunturemit_messaging/validate.py:53-63 | over any sequence of messages the store holds its initial contents and exactly the accepted ids |
| MessageValidation.AcceptedExactlyWhenFirst | services/messaging/src/ubunturemit_messaging/validate.py:168-186 | a message is accepted if and only if it passes the other gates, its id was not there at the start, and no earlier message that passes them carries it |
| MessageValidation.AcceptedAtMostOnce | services/messaging/src/ubunturemit_messaging/validate.py:168-181 | no EndToEndId is accepted twice |
| EntryGate.MessageCarriesQuotedAmount | services/messaging/src/ubunturemit_messaging/pain001.py:56-181 | the built message parses back to the very minor units, currency and purpose of the transfer |
| EntryGate.BuiltMessageIsValidExactlyWhen | services/messaging/src/ubunturemit_messaging/validate.py:66-166 | the built message passes the gates if and only if the schema accepts it and the transfer has a reference and a positive amount |
| EntryGate.GateComparesQuotedUnits | services/asco/src/ubunturemit_asco/guardrails/entry.py:210-324 | the gate passes a transfer if and only if its quoted minor units are within every limit and both parties clear screening; it escalates if and only if the sender is politically exposed and above the threshold |
| EntryGate.RefusalsCite | services/asco/src/ubunturemit_asco/guardrails/entry.py:217-324 | every refusal and escalation cites a rule, and a pass cites none |
| EntryDecisions.ReadExactlyWhen | services/messaging/src/ubunturemit_messaging/pain001.py:183-325 | a message is read exactly as what its elements say, defaults and fallbacks included |
| EntryDecisions.GateDecidesExactlyWhen | services/asco/src/ubunturemit_asco/guardrails/entry.py:210-324 | for every message: the outcome, the stage and the rules cited, each if and only if its condition is the first to hold |
| AuditStore.PostgresAuditStore.Insert | services/audit/src/ubunturemit_audit/postgres_store.py:64-86 | a row is added unless its position is taken or a text column refuses it, and positions stay unique |
| AuditStore.PostgresAuditStore.AppendFromLog | services/audit/src/ubunturemit_audit/postgres_store.py:60-114 | inserted, recognised as a redelivery, or raised as refused or as a conflict; the table otherwise unchanged |
| AuditStore.PostgresAuditStore.GetRecords | services/audit/src/ubunturemit_audit/postgres_store.py:116-136 | the records of a transfer in id order |
| AuditStore.Find | services/audit/src/ubunturemit_audit/postgres_store.py:91-99 | the record read back for a position is one stored there, and none only if none is |
| AuditStore.RefusedExactlyWhen | services/audit/src/ubunturemit_audit/postgres_store.py:64-83 | a record is refused for its texts if and only if one of the six has a NUL, whatever the table holds |
| AuditStore.HistoryKeepsUnique | services/audit/src/ubunturemit_audit/schema.py:33 | every history of appends keeps positions unique |
| AuditStore.RowsOnlyGrow | services/audit/src/ubunturemit_audit/postgres_store.py:60-114 | no append changes or removes an earlier row |
| AuditStore.EveryAnswerIsDecidedByTheFirst | services/audit/src/ubunturemit_audit/postgres_store.py:60-114 | in any history, positions reused by a recreated topic included: a record with a NUL is raised; the first other record for a position is stored, an identical one later is a redelivery, a different one is raised |
| AuditStore.ReturnedAppendIsStored | services/audit/src/ubunturemit_audit/postgres_store.py:84-114 | whenever an append returns, the table holds exactly its record there from then on; when it raises, the table is unchanged, and the columns refuse the record or another one is there |
| AuditPipeline.NextKeepsInv | services/audit/src/ubunturemit_audit/kafka.py:104-129 | no step of any consumer, crash or rebalance breaks the pipeline's invariant |
| AuditPipeline.RunKeepsInv | services/audit/src/ubunturemit_audit/kafka.py:104-129 | the invariant holds after every run in which an exception ends its consumer |
| AuditGuarantees.StoredRowsArePrefixOfLog | services/audit/src/ubunturemit_audit/kafka.py:104-125 | in every reachable state the rows of a partition in id order are a prefix of its log, and the committed offset passes neither that prefix nor a message that is unreadable or refused by the table |
| AuditGuarantees.NothingPassesARefusedMessage | services/audit/src/ubunturemit_audit/kafka.py:27-33 | in every reachable state nothing behind such a message is stored, and neither it nor anything behind it committed |
| AuditGuarantees.InsertNeverConflicts | services/audit/src/ubunturemit_audit/kafka.py:121 | unless a column refuses the record, the consumer's insert adds the next row or finds its own record; it never conflicts |
| AuditGuarantees.ConsumerCatchesUp | services/audit/src/ubunturemit_audit/kafka.py:89-129 | from every reachable state, a consumer left alone on a partition stores all of it if and only if the messages ahead of it are readable and have texts the columns take |
| AuditGuarantees.TransferRecordsArePrefix | services/audit/src/ubunturemit_audit/kafka.py:73-78 | because records are keyed by transfer, what `get_records` returns off the bus is a prefix of what was published for the transfer, in order, and all of it once the partition is stored |
| AuditResume.BeforeTheUnreadableIsReached | services/audit/src/ubunturemit_audit/kafka.py:104-125 | the state the next row starts from is reachable |
| AuditResume.PollingAfterRaisingSkips | services/audit/src/ubunturemit_audit/kafka.py:27-33 | polling again after an unreadable message leaves a gap in the table and commits past the message |
| AuditResume.ResumeIsSafeExactlyWhen | services/audit/src/ubunturemit_audit/kafka.py:104-125 | after polling a consumer again that raised, every continuation in which an exception ends its consumer keeps rows a prefix of the log and commits within it, if and only if each position is within the stored rows, or on a message that is unreadable or refused by the table, or at the end of a log that no record fit for the table is sent to |
| AuditResume.ResumeIsSafeFrom | services/audit/src/ubunturemit_audit/kafka.py:104-125 | the same from every state that safe resumptions lead to |
| AuditResume.SafelyResumedRunsKeepGuarantees | services/audit/src/ubunturemit_audit/kafka.py:104-129 | the guarantees hold after every run in which consumers are polled again only where it is safe |
| AuditConsumer.KafkaAuditLogger.LogRecord | services/audit/src/ubunturemit_audit/kafka.py:65-86 | a call is one publishing step of the pipeline or none; it returns exactly when the record is acknowledged, which is then the last of its transfer's partition |
| AuditConsumer.KafkaAuditConsumer.PollOnce | services/audit/src/ubunturemit_audit/kafka.py:104-125 | one call, on a consumer that raised before as well, is exactly the poll, insert and commit steps of the pipeline, cut where an exception ends it |
| AuditConsumer.KafkaAuditConsumer.StoreAndCommit | services/audit/src/ubunturemit_audit/kafka.py:121-125 | the row first and then the offset; what is left behind when either raises |
| AuditConsumer.CallKeepsGuarantees | services/audit/src/ubunturemit_audit/kafka.py:104-125 | a call breaks no guarantee unless it follows an exception where polling again is not safe |
| AuditConsumer.KafkaAuditConsumer.Run | services/audit/src/ubunturemit_audit/kafka.py:127-129 | calls follow one another until told to stop or until one raises, and keep the invariant |
| AuditConsumer.PollOnceKeepsInv | services/audit/src/ubunturemit_audit/kafka.py:104-125 | a call keeps the invariant whatever the broker and the database answer |
| AuditConsumer.ReturnedRecordIsStoredAndCommitted | services/audit/src/ubunturemit_audit/kafka.py:121-125 | a record is returned only when it is stored at its position and its offset is committed; nothing is returned only when nothing changed |
| AuditConsumer.AnswersExactlyWhen | services/audit/src/ubunturemit_audit/kafka.py:104-125 | what a call that finds a message answers, each if and only if: an unreadable message, a failing or refusing store, a failing commit, or the record |
| AuditConsumer.RunEndsAtTheFirstException | services/audit/src/ubunturemit_audit/kafka.py:127-129 | the loop makes its calls up to and with the first one that raises |
| AuditVerifier.MoreRecordsStayComplete | services/audit/src/ubunturemit_audit/verifier.py:9-43 | further records never make a complete trail incomplete |
| AuditVerifier.CompleteExactlyWhen | services/audit/src/ubunturemit_audit/verifier.py:9-43 | what each outcome asks for: a record of each of four actors, of two, of one, or any |
| Lifecycle.LivesAreExactlyTheRegularOnes | libs/domain/src/ubunturemit_domain/transfer.py:69-85 | the paths from INITIATED are exactly two rejections and those that alternate settling and failing after VALIDATED, with delivery only at the end |
| Lifecycle.MovesExactlyWhen | libs/domain/src/ubunturemit_domain/transfer.py:69-85 | a transition goes along one of seven edges and changes the state only |
| Lifecycle.RetriedExactlyWhen | services/asco/src/ubunturemit_asco/orchestrator/master.py:53-75 | a retry is granted if and only if the transfer failed and fewer than two are counted, and only then counted |
| Lifecycle.MasterOrchestrator.Retry | services/asco/src/ubunturemit_asco/orchestrator/master.py:53-75 | a retry is granted and counted only from FAILED and within the budget of two; a refused one counts nothing |
| Agents.AssessRaisesExactlyWhen | services/asco/src/ubunturemit_asco/agents/sentinel.py:71-166 | every verdict cites a rule and is well formed; no verdict comes out if and only if two replies are unusable and the second complaint is longer than 528 characters |
| AgentReplies.VerdictExactlyWhen | services/asco/src/ubunturemit_asco/agents/sentinel.py:168-196 | a payload gives a verdict if and only if every field of the verdict is the one stated (none forbidden and no limit only if that part is absent) and it may be given: score in range, rules, rationale |
| AgentReplies.AssessExactlyWhen | services/asco/src/ubunturemit_asco/agents/sentinel.py:71-166 | the sentinel's answer and its calls in the replies alone, the two escalations it makes itself word for word |
| Agents.LongOutcomeRaises | services/asco/src/ubunturemit_asco/agents/sentinel.py:147-166 | it raises on two replies that name the same unknown outcome if and only if that name is longer than 496 letters |
| Agents.ComplianceSentinel.AssessTransfer | services/asco/src/ubunturemit_asco/agents/sentinel.py:71-118 | the verdict for the next two replies; the model is called once more only for a reply that cannot be used, and the calls are counted |
| Agents.PassIsAReply | services/asco/src/ubunturemit_asco/agents/sentinel.py:120-166 | a verdict that does not escalate is a reply of the model that parsed, the second one only after the first was unusable |
| Agents.ParsedRailsAreTheStated | services/asco/src/ubunturemit_asco/agents/sentinel.py:179-187 | exactly the rails the model names are forbidden; an unknown name refuses the verdict |
| Agents.ProposalIsAReply | services/asco/src/ubunturemit_asco/agents/strategist.py:47-155 | a proposal needs an eligible quote, is priced in the currency sent, has a positive latency, and takes at most two calls |
| AgentReplies.ProposalExactlyWhen | services/asco/src/ubunturemit_asco/agents/strategist.py:47-155 | the strategist's answer and its calls in the replies and quotes alone, field by field |
| Agents.LiquidityStrategist.ProposeRail | services/asco/src/ubunturemit_asco/agents/strategist.py:47-119 | the proposal for the next two replies; without an eligible quote the model is not called, and the calls are counted |
| Agents.FirstQuote | services/asco/src/ubunturemit_asco/guardrails/exit.py:93-96 | the quote the terms are compared with is the first one for the rail |
| Agents.ClearExactlyWhen | services/asco/src/ubunturemit_asco/guardrails/exit.py:40-169 | the gate is clear if and only if the verdict is a cited pass, the rail and terms are those of its first quote and within the constraints, and the schema accepts the message; it overrides only agents that wanted to proceed or cited nothing |
| AgentReplies.GateRefusesExactlyWhen | services/asco/src/ubunturemit_asco/guardrails/exit.py:40-169 | which check of the gate refuses, for which reason, and whether it overrules the agents, by the first quote for the rail |
| Negotiation.NegotiationCoordinator.Record | services/asco/src/ubunturemit_asco/orchestrator/negotiation.py:91-109 | a record is kept and logged; if the sink refuses it, the run is over with what the sink holds |
| Negotiation.NegotiationCoordinator.NegotiateAndSettle | services/asco/src/ubunturemit_asco/orchestrator/negotiation.py:82-163 | for every behaviour of models, builder, schema and sink: the result the sentinel's verdict leads to, or the exception; exactly the records the sink is left with; at most four calls of the two models, and at most two exchanges, so that the budget never runs out |
| Negotiation.NegotiationCoordinator.ActOnVerdict | services/asco/src/ubunturemit_asco/orchestrator/negotiation.py:128-163 | the same for what follows the verdict: rejected, sent to review, or validated |
| Negotiation.NegotiationCoordinator.SettleValidated | services/asco/src/ubunturemit_asco/orchestrator/negotiation.py:165-232 | the same for the proposal loop, whose body runs once: it ends at two exchanges, with exactly the planned calls made |
| Negotiation.NegotiationCoordinator.PassGate | services/asco/src/ubunturemit_asco/orchestrator/negotiation.py:234-292 | the same for the message, the exit gate and the last transition |
| Negotiation.ReturnsOnlyAcknowledged | services/asco/src/ubunturemit_asco/orchestrator/negotiation.py:107-109 | a run returns only if every record was acknowledged in order; if the sink raises at a record it holds the records before it, and that one only if it kept it |
| Negotiation.ResultFitsOutcome | services/asco/src/ubunturemit_asco/orchestrator/negotiation.py:131-292 | a result is about the same transfer, with identity, parties and quote unchanged, and its state is the one the outcome names |
| Negotiation.ReturnsExactlyWhen | services/asco/src/ubunturemit_asco/orchestrator/negotiation.py:131-292 | a result is returned if and only if the verdict leads to it: a block rejects, an escalation leaves the transfer as it is, a pass settles on accepted terms, waits without a proposal, and is rejected otherwise; without such a result the run raises |
| Negotiation.OutcomeFollowsVerdict | services/asco/src/ubunturemit_asco/orchestrator/negotiation.py:131-292 | REJECTED without a proposal is a block, PENDING_REVIEW of the unchanged transfer an escalation, PENDING_REVIEW of a validated one a pass without a proposal, REJECTED with one a pass whose terms or message are refused, each both ways |
| Negotiation.RecordsFollowTheResult | services/asco/src/ubunturemit_asco/orchestrator/negotiation.py:91-292 | who speaks in which order for every result, and that only the gate's refusal and a missing proposal overrule the agents |
| Negotiation.NegotiationFollowsTheDiagram | services/asco/src/ubunturemit_asco/orchestrator/negotiation.py:82-292 | whether it returns or raises, and wherever the sink refuses a record, the transfer has followed the diagram and a result reports its last state |
| Negotiation.ReturnedVerdictIsValid | services/asco/src/ubunturemit_asco/orchestrator/negotiation.py:113-130 | every result carries a well-formed verdict that cites a rule |
| Negotiation.AtMostFourCalls | services/asco/src/ubunturemit_asco/orchestrator/negotiation.py:113-209 | at most four model calls in any run, counted by the clients in `NegotiateAndSettle` |
| Negotiation.CallsAreTheAgents | services/asco/src/ubunturemit_asco/orchestrator/negotiation.py:113-209 | the calls of a run are those of the sentinel, and after a pass on an initiated transfer those of the strategist |
| Negotiation.SettlesExactlyWhen | services/asco/src/ubunturemit_asco/orchestrator/negotiation.py:82-292 | SETTLING is reached if and only if an initiated transfer gets a pass, a proposal on the first quoted terms within the constraints, and a message the schema accepts |
| Negotiation.SettlingIsJustified | services/asco/src/ubunturemit_asco/orchestrator/negotiation.py:234-292 | behind every SETTLING stand a cited pass, a quoted and allowed rail on its terms, a cost in the currency sent, and an accepted message |
| Negotiation.ReturnedTrailIsComplete | services/asco/src/ubunturemit_asco/orchestrator/negotiation.py:91-292 | the trail of every returned outcome passes the completeness check, and a settling one also for DELIVERED |
| RailRouting.CandidatesAre | services/rails/src/ubunturemit_rails/router.py:63-74 | the approved rail first, then every other registered and eligible rail, each once, RIPPLE before PAPSS before SWIFT |
| RailRouting.RailRouter.ExecuteSettlementWithRetry | services/rails/src/ubunturemit_rails/router.py:47-109 | for every behaviour of the adapters: the answer, the rails tried, the reports, and the orchestrator's counts |
| RailRouting.RouterIsBounded | services/rails/src/ubunturemit_rails/router.py:76-104 | from r retries used: distinct registered rails, the approved one first, at most 3 - r; delivery only by the last one tried, on its terms; the count grows by the attempts after the first |
| RailRouting.GivesUpOnlyWhenExhausted | services/rails/src/ubunturemit_rails/router.py:92-109 | exhaustion means that every rail the budget allows was tried and none delivered |
| RailRouting.RouterKeepsBudget | services/asco/src/ubunturemit_asco/orchestrator/master.py:64-71 | no count exceeds two, and no other transfer's count changes |
| RailRouting.TriesExactlyWhile | services/rails/src/ubunturemit_rails/router.py:76-109 | the exact run: the k-th further rail is submitted to if and only if candidates and retries allow it and every earlier reply is a report other than a delivery |
| RailRouting.LastReplyDecides | services/rails/src/ubunturemit_rails/router.py:79-104 | the last reply settles the ending: a delivery answers, an exception raises, anything else is exhaustion of what was allowed |
| RailRouting.RouterRaisesExactlyWhen | services/rails/src/ubunturemit_rails/router.py:79-82 | the router raises if and only if an adapter it reaches does |
| RailRouting.RouterDeliversExactlyWhen | services/rails/src/ubunturemit_rails/router.py:79-93 | the router delivers if and only if an adapter it reaches does |
| RailRouting.ResubmitsWhileSettlingExactlyWhen | services/rails/src/ubunturemit_rails/router.py:82-104 | a further rail is submitted to after one reported that it is settling, if and only if that report is reached, another candidate is left and the budget is not spent |
| RailRouting.SecondRailPaysToo | services/rails/src/ubunturemit_rails/router.py:82-104 | an input on which, for every status but a delivery, both rails are submitted to and the second one delivers |
| RailRouting.OnlyDeliveryMatters | services/rails/src/ubunturemit_rails/router.py:82-93 | every report but a delivery leads to the same run, up to the statuses reported |
| RailRouting.AvoidsForbiddenExactlyWhen | services/rails/src/ubunturemit_rails/router.py:63-74 | the fallback keeps off given rails, whatever the adapters do, if and only if none of the rails it could come to is among them |
| RailRouting.SubmitsBeforeChecking | services/rails/src/ubunturemit_rails/router.py:79-93 | from any other state than SETTLING the approved rail is still called once before the run raises |
| Gateway.GatewayRuntime.InitiateTransfer | services/gateway/src/ubunturemit_gateway/routes/transfers.py:114-233 | the response with its reference and cited rules, what the sink holds, the counts, and what is remembered, for every request; an exception anywhere, from building the first message to making the response, leaves nothing remembered |
| Gateway.GatewayRuntime.Settle | services/gateway/src/ubunturemit_gateway/routes/transfers.py:192-233 | the same for the router's turn; without a list of rules there is no response, whatever the rails did |
| Gateway.EveryAnswerCites | services/gateway/src/ubunturemit_gateway/routes/transfers.py:114-233 | every answer cites a rule, of the entry gate or of the verdict |
| Gateway.EveryAnswerSays | services/gateway/src/ubunturemit_gateway/routes/transfers.py:132-233 | outcome, status, rules, fee, rail and time of every answer, by where the request ended; without a delivery no rail, no time and the quoted fee |
| Gateway.EveryRequestFollowsTheDiagram | services/gateway/src/ubunturemit_gateway/routes/transfers.py:114-233 | every request, answered or ended by an exception anywhere, goes INITIATED, VALIDATED, SETTLING, at most twice FAILED and SETTLING, then DELIVERED or FAILED, or leaves early, or is interrupted there; an answer names the same transfer and the last state |
| Gateway.SubmittedUnansweredExactlyWhen | services/gateway/src/ubunturemit_gateway/routes/transfers.py:192-233 | a rail was submitted to and nothing is remembered if and only if an adapter the router reaches raises, or the verdict's rules are not a list |
| Gateway.AnsweredExactlyWhen | services/gateway/src/ubunturemit_gateway/routes/transfers.py:114-233 | a request is answered if and only if its message is built and either the gate turns it away, or the quotes come in, the negotiation returns, its rules are a list, and the router is not reached or not stopped |
| Gateway.PaidUnansweredExactlyWhen | services/gateway/src/ubunturemit_gateway/routes/transfers.py:220-233 | the payment is delivered and nothing is remembered if and only if an adapter the router reaches delivers and the rules are not a list |
| Gateway.DeliveredIsWhatWasRequested | services/gateway/src/ubunturemit_gateway/routes/transfers.py:192-233 | a delivered transfer is the requested one but for its state, the rail that delivered and the time it took; its answer reports that rail, its fee and its time |
| Gateway.HandleKeepsBudget | services/gateway/src/ubunturemit_gateway/routes/transfers.py:192-203 | a request leaves every retry count within the budget and the counts of other transfers as they were |
| Gateway.CountsStayWithinBudget | services/asco/src/ubunturemit_asco/orchestrator/master.py:33-71 | over any sequence of requests sharing the orchestrator no retry count exceeds two |
| Gateway.NoSubmissionUnaudited | services/gateway/src/ubunturemit_gateway/routes/transfers.py:174-203 | no adapter is called unless the entry gate passed, the sink acknowledged every record of the negotiation in order, and the settlement is justified; the justified rail is the first one called |
| SettlementTerms.SettlementIsBoundByTheReplies | services/asco/src/ubunturemit_asco/agents/sentinel.py:168-196 | a settlement rests on a reply that says PASS, keeps off every rail that reply names, is within the time limit it states, and has the figures of a reply of the strategist on the first quote's terms |
| SettlementTerms.SubmissionIsBoundByTheReplies | services/gateway/src/ubunturemit_gateway/routes/transfers.py:174-203 | the same for every request that submits to a rail |
| Gateway.SettlementAvoidsForbiddenExactlyWhen | services/gateway/src/ubunturemit_gateway/routes/transfers.py:192-203 | a settlement keeps off the rails its verdict forbids, whatever the adapters do, if and only if none of the rails it could fall back to is forbidden |
| SampleRequests.ForbiddenRailCarriesThePayment | services/rails/src/ubunturemit_rails/router.py:63-74 | a request whose verdict forbids a rail, and whose payment is delivered on that rail |
| SampleRequests.TextRulesLoseTheAnswer | services/asco/src/ubunturemit_asco/agents/sentinel.py:175 | a request whose verdict names its rule in a string: the trail is acknowledged and complete, the payment is delivered, and nothing is remembered |
| Gateway.TrailIsCompleteExactlyWhenNegotiated | services/gateway/src/ubunturemit_gateway/routes/transfers.py:132-189 | the trail of an answered request is complete for its outcome if and only if the entry gate passed |
| Gateway.CheckedAsNamed | services/audit/src/ubunturemit_audit/verifier.py:9-43 | the check is asked about the outcome the response names; of an escalation at the gate it asks for any record |
| EndToEnd.StoredRecordIsRead | services/audit/src/ubunturemit_audit/postgres_store.py:116-136 | a published record is in `get_records` once its partition is stored to the end |
| EndToEnd.LoggerPublishesHeld | services/asco/src/ubunturemit_asco/orchestrator/negotiation.py:107-109 | with the Kafka logger as its sink, a run publishes exactly the records the sink is left with, in order, for every fate of every send |
| EndToEnd.StoredTrailIsComplete | services/audit/src/ubunturemit_audit/verifier.py:9-43 | for every request negotiated and answered over the Kafka logger, and every run of the pipeline in which that logger takes part: once stored, the completeness check holds of `get_records` for the outcome, DELIVERED and FAILED included |
| EndToEnd.SubmittedRequestIsOnRecord | services/audit/src/ubunturemit_audit/verifier.py:9-43 | once stored, `get_records` holds a record of each of the four actors for every transfer that was submitted to a rail |
| EndToEnd.StoredRecordsAreTheSinks | services/audit/src/ubunturemit_audit/kafka.py:65-129 | if no other logger publishes for the transfer, its stored records are a prefix of the sink's, in order, and all of them once stored; also when the run raised |

## Left out

- XML text, XPath and XSD validation: documents are trees of texts, and what the schema says of one is given.
- CheckMarkup: the final sort by line, column and message is not modelled; the findings are in the order they are made.
- InitiateTransfer: the reason text of the response is not modelled.
- HTML tokenising and character references (`handle_entityref`, `_check_attribute_refs`): the markup model starts from tag events.
- JSON text: a model reply is given by its fields, each absent, ill-formed or well-formed. A JSON string or object in place of the forbidden rails stands for the list that iterating it gives, as in the source; in place of the cited rules it is kept as it is.
- Decimal NaN, infinities, exponent limits and signals, and Python's limit on the digits of an integer string.
- Unicode digits in `int`, Unicode normalisation and case folding (`_normalise`): sanctions screening is a given predicate that does not raise.
- Lone surrogates, which JSON can name and the model's characters exclude: each is a Unicode scalar value.
- Date, country and party parsing in `parse_pain001`: one given flag says whether any of it raises.
- Kafka and Postgres clients: what a call answers is a parameter. Log compaction, retention, transactional offset gaps and a changing partition count are not modelled; offsets are contiguous.
- A topic recreated under a running consumer: the store's answer to reused positions is proved, the pipeline's steps assume one topic.
- Liveness under endless crashes or rebalances: `ConsumerCatchesUp` speaks of a consumer that is left alone.
- Database roles, grants and triggers, and the refusal to start on a role with too many rights.
- Timestamps, generated identifiers, prompts, rationales and reasons as texts: opaque, except where a length or blankness is checked.
- How `RailRouter.get_quotes` collects the quotes (the model is given them, or that it raises), the quote source, FastAPI wiring and the other gateway routes.
- `SqliteAuditStore`, `InMemoryAuditStore`, the policy loader, the command lines and the dataclass type checks: true but easy.
