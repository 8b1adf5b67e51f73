# SnabAgent: a Dafny model of its algorithms and protocols

SnabAgent runs procurement lots through language-model agents: it finds
suppliers, collects offers, bargains, verifies and reports, and a human approves
or rejects the result. This project models the parts of it that compute
something or keep something true over a whole run, and proves what they
guarantee, for all inputs, all runs and all interleavings.

`dafny verify dfyconfig.toml` checks everything.

## What is modelled

| files | part of the system |
|---|---|
| `Regex`, `Text` | the fragment of Python's `re` that the masker uses, with its backtracking order; `str.replace`; decimal numerals |
| `PiiPatterns`, `PiiSpans`, `PiiMasker`, `PiiResidue`, `PiiRoundTrip`, `PiiTheorems`, `PiiLimits`, `PiiWitnesses`, `PiiLayers` | masking and unmasking of personal data, in the router, in the OpenAI client behind it and in the audit log |
| `JsonBlock` | the scanner that cuts a JSON object out of a model's answer |
| `Pricing`, `StableSort`, `RealProducts` | offers, negotiation and report, from the catalogue price to the claimed savings |
| `LotStatus`, `LotRunner`, `LotLifecycle` | the two ways to run the agents, and the stored lots under concurrent runs, recovery and human decisions |
| `CircuitBreaker`, `MailLimiter`, `SlidingWindow` | the classes that decide by a sliding time window |
| `EventBus` | the bounded queues behind the lot WebSocket |
| `VectorStore`, `Embeddings` | upsert and top-k search, cosine similarity, the hashed bag of trigrams |
| `PdfWriter` | the PDF writer, with a reader after ISO 32000-1 |
| `SupplierDedup`, `UsageTracker` | deduplication of supplier candidates, usage metering |

Classes and loops that update state are classes and methods with loops here; each
is tied to a specification function, and the properties are lemmas about that
function. Where the code works on a history of events, the specification is the
plain, unpruned history.

Modelling decisions that matter for reading the results:

- Patterns are syntax trees. `Regex.Ends` lists match ends in the order in which
  the backtracking engine tries them; `Regex.Lang` is the declarative meaning, and
  the two are proved equal. The Unicode tables behind `\w`, `\d` and `\s` are a
  parameter: only their ASCII part and two general facts (digits are word
  characters, spaces are not) are fixed, so the masking results hold for any such
  tables.
- Money is in whole kopecks; `round` goes to the nearest kopeck, ties to even.
  Quantities, factors, times and vectors are real numbers.
- Clocks, random draws, provider replies and hashes are inputs.

## What came out that a reader may not expect

- **Masking.** A text survives masking and unmasking exactly when no placeholder
  issued for it already occurs in it, as long as no placeholder number is itself a
  phone number (`PiiTheorems.RoundTrip`, which states that condition); the text
  `<INN_1>1234567890`, for one, does not survive (`PiiTheorems.SpelledDoesNotSurvive`).
- **Numbering.** 80000000000 is the first placeholder number that is itself a phone
  number. From there on masking is no longer idempotent, and a text that spells none
  of its placeholders no longer survives; below it both hold
  (`PiiLimits.MaskIdempotentIff`, `PiiLimits.SurvivesIff`). `PiiWitnesses` has texts
  that get there, and one for which the order of the replacements matters.
- **Two layers.** The OpenAI client numbers the placeholders of the system prompt
  from 1 again. If the system prompt contains personal data, its `<INN_1>` can be
  confused with the user prompt's (`PiiLayers.LayersConfuse`).
  `PiiLayers.SecondLayerInvisible` and `PiiLayers.LayersAgreeIff` say exactly when the
  second layer is harmless.
- **Leaks.** The router masks the user prompt only, and only if the primary provider
  is real; of the real clients only the OpenAI one masks by itself. So an INN in the
  system prompt is sent to the others as it is (`PiiLayers.SystemPromptLeaks`), and
  so is the user prompt to a fallback behind the fake provider
  (`PiiLayers.FallbackLeaks`). `PiiLayers.LeakIff` and `PiiLayers.LeakPossibleIff` say
  exactly when a provider is sent something that the masker recognises, in either
  prompt, and `PiiLayers.OrdinaryReveals` what that comes to below the counter limits.
- **Scanner.** The docstring promises `{}` when nothing balances; the code returns
  the rest of the text (`JsonBlock.UnbalancedIsReturned`). The model follows the code.
- **Decisions.** The status update never looks at the old status. A decided lot that
  nobody replays by hand is final if and only if no run of it is active or queued and
  no recovery has selected it (`LotLifecycle.DecisionIsFinal`); an approval given
  while the lot is being run is undone (`LotLifecycle.ApprovalUndone`).
- **Recovery.** A lot whose run is lost can come back if and only if it is in one of
  the four statuses that recovery queries (`LotLifecycle.RecoverableIff`); one lost in
  `planned` stays there for good (`LotLifecycle.LotIsLost`).
- **Report.** Without a single answer the report claims 100% savings
  (`Pricing.NoAnswersClaimAll`, `Pricing.DemoReport`).
- **Runners.** A planner that returns nothing while the lot already asks for a
  human stops the graph but not the sequential fallback
  (`LotRunner.StatesAgreeIff`).
- **Vector store.** A new id twice in one batch ends up in two rows
  (`VectorStore.UniqueIff`); repeating a batch is harmless all the same.
- **Metering.** `llm_total_tokens` counts calls, not tokens
  (`UsageTracker.TokenMetricCountsCalls`).

## Model

| member | source | states |
|---|---|---|
| Regex.EndsIsLang | src/snabagent/llm/pii_masker.py:6-9 | for every pattern, text and position, the ends the backtracking engine tries are exactly the ends of the spans in the pattern's declarative language |
| Regex.MatchEndIsLang | src/snabagent/llm/pii_masker.py:6-9 | the engine reports a match exactly when the pattern has one there, and what it reports is one |
| Regex.LangMove | src/snabagent/llm/pii_masker.py:6-9 | a match carries over to any text that shows the same characters and loses none of its word boundaries |
| PiiPatterns.DigitWordLang | src/snabagent/llm/pii_masker.py:6-7 | an INN or OGRN alternative matches exactly the digit runs of its length with no word character on either side |
| PiiPatterns.EmailLang | src/snabagent/llm/pii_masker.py:8 | every e-mail match has an `@`, a local part, a domain with a last dot and a name after it, and clean edges |
| PiiPatterns.EmailLangBack | src/snabagent/llm/pii_masker.py:8 | and every span of that shape is a match |
| PiiPatterns.SpanFacts | src/snabagent/llm/pii_masker.py:6-9 | no match contains `<` or `>`, and each kind has its minimal length |
| PiiSpans.PhoneSpanIff | src/snabagent/llm/pii_masker.py:9 | the phone pattern matches exactly: `+7` or `8`, white space, `-` or `(`, three digits, white space, `-` or `)`, three digits, then twice white space or `-` and two digits |
| PiiSpans.EmailSpanIff | src/snabagent/llm/pii_masker.py:8 | an e-mail match, character by character: word characters and `.+-`, `@`, word characters and `.-`, a dot, word characters, and a word edge at both ends |
| PiiSpans.OgrnSpanIff | src/snabagent/llm/pii_masker.py:7 | an OGRN match is a run of 13 or 15 digits with no word character on either side |
| PiiSpans.InnSpanIff | src/snabagent/llm/pii_masker.py:6 | an INN match is such a run of 10 or 12 digits |
| PiiSpans.FoundIsLongest | src/snabagent/llm/pii_masker.py:6-9 | of all matches that begin at a position the backtracking engine takes the longest, for all four patterns |
| PiiMasker.Substitute | src/snabagent/llm/pii_masker.py:17-24 | the loop of `pat.sub` with its counter and mapping computes the pass function: leftmost, non-overlapping, numbered consecutively |
| PiiTheorems.PassNumbered | src/snabagent/llm/pii_masker.py:18-22 | the entries of a pass are numbered consecutively from where its counter stood, and each holds a text that its pattern matched |
| PiiRoundTrip.PassCopies | src/snabagent/llm/pii_masker.py:24 | a stretch of text in which no match begins is copied |
| PiiMasker.MaskPii | src/snabagent/llm/pii_masker.py:12-30 | the four passes in order yield the specified text and mapping, in order of insertion |
| PiiSpans.FirstEntry | src/snabagent/llm/pii_masker.py:12-30 | e-mail addresses are looked for first, then phone numbers, OGRN and INN: the first match of the first kind that occurs becomes the first entry, under `<EMAIL_1>`, `<PHONE_1>`, `<OGRN_1>` or `<INN_1>` |
| PiiMasker.UnmaskPii | src/snabagent/llm/pii_masker.py:33-36 | the loop computes the sequential replacements in mapping order, for any mapping; an empty key is replaced as `str.replace` does |
| PiiResidue.FreeAroundStop | src/snabagent/llm/pii_masker.py:6-9 | a framing `<` or `>` splits a text into two parts that match independently, for all four patterns |
| PiiResidue.EmailFreePiece | src/snabagent/llm/pii_masker.py:8 | a text without e-mail addresses has none in any of its pieces, however the later passes cut it |
| PiiResidue.PassFree | src/snabagent/llm/pii_masker.py:17-29 | a pass leaves no match of its own kind and creates none of an earlier kind, although its cuts move word boundaries; for phone numbers while its counter is below 80000000000 |
| PiiResidue.NoResidue | src/snabagent/llm/pii_masker.py:12-30 | no e-mail address, OGRN or INN matches anywhere in a masked text; no phone number either while the last three counters are below 80000000000 |
| PiiLimits.ResidueIff | src/snabagent/llm/pii_masker.py:12-30 | a masked text is free of all four patterns if and only if none of the last three counters has reached 80000000000, the first number that is itself a phone number |
| PiiResidue.MaskIdempotent | src/snabagent/llm/pii_masker.py:12-30 | below those counters masking a masked text changes nothing and records nothing |
| PiiLimits.MaskIdempotentIff | src/snabagent/llm/pii_masker.py:12-30 | and only then |
| PiiResidue.NoDigitWord | src/snabagent/llm/pii_masker.py:6-7 | no all-digit word of length 10, 12, 13 or 15 survives |
| PiiRoundTrip.ReplaceThenRestore | src/snabagent/llm/pii_masker.py:33-36 | for framed keys and plain values: replacing one key first and restoring the rest gives the same as restoring all at once, if its value completes no key or restoring leaves none behind |
| PiiRoundTrip.UnmaskIsRestore | src/snabagent/llm/pii_masker.py:33-36 | under the same conditions sequential replacement, in any order, equals one simultaneous replacement of all keys |
| PiiRoundTrip.UnmaskLoses | src/snabagent/llm/pii_masker.py:33-36 | for framed keys and values free of `<` and `>`, even if a value completes another key: sequential replacement leaves no more `<` than simultaneous replacement |
| PiiRoundTrip.PassRestore | src/snabagent/llm/pii_masker.py:17-24 | restoring the output of a pass equals restoring its input, for every such mapping that records the pass and whose keys, where they occur in the input, attract no match |
| PiiTheorems.PlaceholderInjective | src/snabagent/llm/pii_masker.py:19-21 | different kinds or numbers give different placeholders |
| PiiTheorems.MaskDistinct | src/snabagent/llm/pii_masker.py:14-30 | the mapping never overwrites an entry |
| PiiTheorems.MappingGood | src/snabagent/llm/pii_masker.py:14-22 | every key is framed by `<` and `>` and every value is free of both |
| PiiTheorems.KeyFromOutput | src/snabagent/llm/pii_masker.py:17-24 | a placeholder in the output of a pass was issued by it or stood in its input |
| PiiTheorems.ShortTextFits | src/snabagent/llm/pii_masker.py:15-30 | every text of up to ten million characters meets all conditions under which the masking theorems are stated |
| PiiTheorems.MaskRestore | src/snabagent/llm/pii_masker.py:12-36 | restoring a masked text equals restoring the original text, unless a placeholder that is itself a phone number gets in the way of the phone pass |
| PiiTheorems.UnmaskAnyOrder | src/snabagent/llm/pii_masker.py:33-36 | for every text, such as a model's answer, the order of the mapping entries does not matter if no value occurs inside another entry's key |
| PiiLimits.OrderIsIrrelevantIff | src/snabagent/llm/pii_masker.py:33-36 | and only then: otherwise some text and some order of the entries differ |
| PiiTheorems.RestoreIsIdentity | src/snabagent/llm/pii_masker.py:33-36 | restoring changes a text exactly when some key occurs in it |
| PiiTheorems.RoundTrip | src/snabagent/llm/pii_masker.py:12-36 | unmasking a masked text gives the original, in any order of the entries, if and only if no issued placeholder occurs in the original, as long as no placeholder that is itself a phone number is issued for e-mails or spelled in the text |
| PiiTheorems.Survives | src/snabagent/llm/pii_masker.py:12-36 | a text that spells none of its placeholders and has fewer than 80000000000 e-mail addresses survives in any order |
| PiiLimits.SurvivesIff | src/snabagent/llm/pii_masker.py:12-36 | in the order of the mapping, a text that spells none of its placeholders survives if and only if it has fewer than 80000000000 e-mail addresses |
| PiiLimits.RoundTripPlain | src/snabagent/llm/pii_masker.py:12-36 | in particular for every text without `<`: it survives if and only if it has fewer than 80000000000 e-mail addresses |
| PiiWitnesses.InnRowsFit | src/snabagent/llm/pii_masker.py:12-30 | a text that gets there: n rows of any INN, each followed by `>`, are masked without residue and idempotently if and only if n is below 80000000000 |
| PiiWitnesses.EmailRowsSurvive | src/snabagent/llm/pii_masker.py:12-36 | n rows of `A@B.C` survive if and only if n is below 80000000000 |
| PiiWitnesses.OrderOfRowsMatters | src/snabagent/llm/pii_masker.py:33-36 | in 10^9 rows of the INN 1000000000 it occurs inside the key of the last one, and for some answer two orders of the entries differ |
| PiiTheorems.SpelledDoesNotSurvive | src/snabagent/llm/pii_masker.py:12-36 | the placeholder `<INN_1>` followed by any INN, such as `<INN_1>1234567890`, does not survive masking and unmasking |
| PiiLayers.CompleteWithFallback | src/snabagent/llm/router.py:122-190 | with masking enabled and a primary other than `fake` every call carries the masked user prompt, otherwise the prompt as it is, and always the system prompt as it is; the first reply of the primary within `retries` attempts ends it; if none comes, the fallback is called once unless it is the primary; the reply is unmasked with the one mapping |
| PiiLayers.TriesFacts | src/snabagent/llm/router.py:135-141 | the last attempt made is the first that answers; if none does, all are made |
| PiiLayers.MaskedUserIsSafe | src/snabagent/llm/router.py:127-128 | with masking enabled and a real primary no call carries a match in its user prompt, below the counter limits |
| PiiLayers.LeakIff | src/snabagent/llm/router.py:127-175 | a provider is posted something the masker recognises, in the system or the user prompt, if and only if the primary reveals it or fails every time before a fallback that does; a real provider reveals a match in what its client posts: the prompt as the router hands it on, which the OpenAI client masks once more, so that there a match is left only with counters at 80000000000 |
| PiiLayers.LeakPossibleIff | src/snabagent/llm/router.py:127-175 | over all behaviours of the providers: whether that can happen follows from the settings and the two prompts |
| PiiLayers.OrdinaryReveals | src/snabagent/llm/router.py:127-128 | with counters below 80000000000 a provider reveals something if and only if it is neither `fake` nor `openai` and the system prompt has a match, or the user prompt has one and the router does not mask |
| PiiLayers.FallbackLeaks | src/snabagent/llm/router.py:127-175 | it does happen: with a failing fake primary and `yandex`, `gigachat` or `llama` as fallback any INN, such as `1234567890`, is sent as it is |
| PiiLayers.SystemPromptLeaks | src/snabagent/llm/yandex.py:46-50 | and an INN in the system prompt is sent to such a primary although masking is enabled |
| PiiLayers.OpenAiIsSafe | src/snabagent/llm/openai.py:37-51 | the OpenAI client posts no match of either prompt, below the counter limits, whether or not the router masks |
| PiiLayers.MergeIs | src/snabagent/llm/openai.py:39 | the merged mapping is the dict of both, in which the user prompt's entry wins |
| PiiLayers.ClientMapping | src/snabagent/llm/openai.py:37-39 | behind the router the client sends the user prompt as it got it if and only if the counters of MaskIdempotent fit; it then adds only the system prompt's entries |
| PiiLayers.LayersCompute | src/snabagent/llm/openai.py:37-61 | with those counters and the condition of UnmaskAnyOrder for both prompts: what the two layers together make of any model answer |
| PiiLayers.SecondLayerInvisible | src/snabagent/llm/openai.py:37-61 | with each layer restoring all its keys at once, for all prompts: for all answers the second layer changes nothing, if and only if every placeholder of the system prompt stands for the same text in the user prompt and that text completes no placeholder of the user prompt |
| PiiLayers.LayersAgreeIff | src/snabagent/llm/openai.py:37-61 | under the conditions of LayersCompute the same of the sequential replacements that the code makes |
| PiiLayers.LayersConfuse | src/snabagent/llm/openai.py:37-61 | with one INN as system prompt and another as user prompt, such as `1234567890` and `9876543210`, the code turns the answer `<INN_1>` into the former instead of the latter |
| PiiLayers.MaskValueAt | src/snabagent/audit/logger.py:19-30 | a masked payload has the same shape, keys and scalars at every depth, and every string in it is masked |
| PiiLayers.MaskValueIdempotentIff | src/snabagent/audit/logger.py:19-30 | masking any nested payload is idempotent, and leaves no match in any string of it, if and only if that holds for each of its strings |
| JsonBlock.RunIsBalance | src/snabagent/llm/fake.py:321-341 | the automaton's depth is the number of `{` minus `}` outside string literals |
| JsonBlock.ExtractJsonBlock | src/snabagent/llm/fake.py:311-342 | the index loop computes the specified block |
| JsonBlock.BlockIsShortest | src/snabagent/llm/fake.py:311-342 | from the first `{` on, the shortest prefix whose braces outside strings balance; the rest of the text if none does; `{}` without a brace |
| JsonBlock.UnbalancedIsReturned | src/snabagent/llm/fake.py:311-342 | for the text `{` nothing balances, and the text is returned instead of `{}` |
| JsonBlock.RecoversObject | src/snabagent/llm/fake.py:311-342 | for every JSON object (RFC 8259, sections 2 to 7) in any layout, every prefix without `{` and every suffix, exactly the object |
| JsonBlock.BlockOfBlock | src/snabagent/llm/fake.py:311-342 | a returned block is a fixed point of the scanner |
| Pricing.SyntheticOffer | src/snabagent/agents/communicator.py:42-59 | every line has the item's price times the factor and that price times the quantity, each to half a kopeck, with 1000 roubles and one piece for an absent price and quantity; the total is the sum of the lines |
| Pricing.OneItem | src/snabagent/agents/communicator.py:45-46 | what a single item contributes to the catalogue total, the typical total and the slack |
| Pricing.TotalsAppend | src/snabagent/agents/reporter.py:42-47 | and these three add up over the items |
| Pricing.OfferNear | src/snabagent/agents/communicator.py:41-64 | an offer is the drawn factor times the catalogue total with its defaults, within half a kopeck per unit and per line |
| Pricing.OfferFloor | src/snabagent/agents/communicator.py:41-50 | an offer is at least 85% of the typical total, less half a kopeck per unit and per line |
| Pricing.Responding | src/snabagent/agents/communicator.py:130 | the number of answers is the whole part of 66% of the suppliers, but at least one, and no more than there are suppliers if there are any |
| Pricing.Negotiate | src/snabagent/agents/negotiator.py:28-169 | the loop overwrites exactly the offers to be bargained, in place, and returns their records in order; its savings are the sum before minus the sum after; nothing changes when bargaining is not allowed; it raises exactly when an offer of price zero is to be bargained, and then the offers before the first such one are overwritten |
| Pricing.NeverRaises | src/snabagent/agents/negotiator.py:118 | without negative prices it never raises |
| Pricing.OfferIsLowered | src/snabagent/agents/negotiator.py:98-169 | an offer more than 5% above the best one is lowered by the suggested discount, at most 12%, or by 5% if the model could not be asked, to half a kopeck, and recorded once with the drop in percent |
| Pricing.OfferIsKept | src/snabagent/agents/negotiator.py:48-101 | any other offer, and one for which no discount is suggested, stays as it is and is not recorded |
| Pricing.RoundLowers | src/snabagent/agents/negotiator.py:40-169 | the same of every offer of a round, against the least price in it; nothing changes when bargaining is forbidden |
| Pricing.RecordsInOrder | src/snabagent/agents/negotiator.py:155-169 | the records of a round are those of its offers, in order |
| Pricing.BargainBounds | src/snabagent/agents/negotiator.py:48-120 | no offer rises, one within 5% of the minimum is untouched, a changed one keeps 88% of its price less half a kopeck |
| Pricing.NegotiatedBounds | src/snabagent/agents/negotiator.py:40-120 | the best price ends between 92.4% of the old best, less half a kopeck, and the old best |
| Pricing.SavingsStep | src/snabagent/agents/negotiator.py:162-186 | each record's saving is the drop of the offer it is about |
| Pricing.SavingsAreDrops | src/snabagent/agents/negotiator.py:162-186 | over any round the recorded savings add up to the drop of the sum of all offers |
| Pricing.BuildReport | src/snabagent/agents/reporter.py:17-50 | three verified offers, or all of fewer, by falling confidence and then rising price, and none left out is better; the savings are the typical total less the first one's price, not below zero, in whole roubles and in hundredths of a percent of the typical total |
| Pricing.RankedFacts | src/snabagent/agents/reporter.py:18-21 | the ranking is a permutation, by falling confidence and then rising price |
| Pricing.DemoSavings | src/snabagent/agents/reporter.py:42-50 | across communicator, negotiator and reporter: with at least one answer the claimed savings stay below 21.46% of the typical total plus a rounding slack, whatever the models answer |
| Pricing.SavingsPctBound | src/snabagent/agents/reporter.py:49-50 | a bound on the savings in kopecks carries over to the percentage |
| Pricing.DemoReport | src/snabagent/agents/reporter.py:42-50 | the bound of DemoSavings holds if and only if somebody answers or the whole order is within the rounding slack; with an answer it holds of the roubles and the percentage that the report prints |
| Pricing.NoAnswersClaimAll | src/snabagent/agents/reporter.py:48-50 | without an answer the report claims the whole typical total |
| StableSort.SortSorts | src/snabagent/agents/reporter.py:18-21 | sorting by a strict weak order yields a sorted permutation |
| StableSort.SortStable | src/snabagent/vector/qdrant_client.py:40 | and keeps ties in their original order |
| LotRunner.RunStreaming | src/snabagent/agents/graph.py:59-71 | folding the streamed updates keeps the graph's own state and yields the reference run, with its status writes |
| LotRunner.RunSequential | src/snabagent/agents/graph.py:74-90 | the fallback loop computes its specification, skipping empty updates |
| LotRunner.RunnersAgree | src/snabagent/agents/graph.py:52-90 | for all node behaviours without empty updates both runners give the same final state and the same writes |
| LotRunner.StatesAgreeIff | src/snabagent/agents/graph.py:52-90 | with empty updates the final states agree for all later nodes if and only if the planner says something or no human was asked for |
| LotRunner.MergeIs | src/snabagent/agents/state.py:30-31 | an update replaces the keys it names and adds to the two lists |
| LotRunner.HumanStops | src/snabagent/agents/graph.py:18-21 | the others run unless the planner leaves a `requires_human` that is neither missing nor false |
| LotRunner.PersistedIs | src/snabagent/agents/graph.py:93-124 | after a node its status is stored if it is one of the eight of the status map; at the end also `report_ready` if there is a report |
| LotRunner.FirstAndLastWrite | src/snabagent/agents/graph.py:93-124 | the planner's status is stored first, and a run that ends with a report stores `report_ready` last |
| LotRunner.EventsAccumulate | src/snabagent/agents/state.py:30-31 | no event of a run is lost, repeated or moved |
| LotRunner.WritesAdvance | src/snabagent/agents/graph.py:93-124 | a run that does not escalate stores `planned`, `sourcing`, what communicator and negotiator report, `verified` and then `report_ready`, and never goes back |
| LotLifecycle.LotStore.Create | src/snabagent/db/repositories.py:31-36 | stores the given row, other rows are untouched |
| LotLifecycle.LotStore.Update | src/snabagent/db/repositories.py:70-77 | exactly the named lot changes, in its status, its time stamp and the given columns, whatever its status was; a missing one is ignored |
| LotLifecycle.LotStore.SetReport | src/snabagent/db/repositories.py:79-80 | the report is stored with `report_ready`, the other columns stay |
| LotLifecycle.LotStore.Approve | src/snabagent/api/routes/lots.py:153-179 | 404 without the lot, otherwise status, supplier and closing time, the other columns stay |
| LotLifecycle.LotStore.Reject | src/snabagent/api/routes/lots.py:185-205 | 404 without the lot, otherwise status and reason, `rejected_by_human` for an absent or empty one, the other columns stay |
| LotLifecycle.LotStore.RecoverStuck | src/snabagent/tasks/lot_pipeline.py:75-93 | exactly the lots in draft, sourcing, rfq_sent or negotiating that were not updated for more than 1800 seconds are queued, each once |
| LotLifecycle.SweepConserves | src/snabagent/tasks/lot_pipeline.py:87-93 | in the state machine, along every uninterrupted stretch of a sweep, what is queued plus what the sweep will still queue stays the same |
| LotLifecycle.UninterruptedSweep | src/snabagent/tasks/lot_pipeline.py:75-93 | a sweep that runs through uninterrupted adds to the queue exactly the lots that RecoverStuck queues, in whatever order |
| LotLifecycle.StepRow | src/snabagent/db/repositories.py:70-91 | what each event of the machine does to the columns of a lot |
| LotLifecycle.StepQueue | src/snabagent/tasks/lot_pipeline.py:29-93 | and to the queue |
| LotLifecycle.StepWellFormed | src/snabagent/agents/graph.py:93-124 | every step keeps runs to pipeline statuses and recoveries to the four they query |
| LotLifecycle.AlwaysWellFormed | src/snabagent/agents/graph.py:93-124 | so does every run of the system |
| LotLifecycle.StepElsewhere | src/snabagent/db/repositories.py:70-91 | a step changes a lot that nothing is about to write to only if it is a decision about it |
| LotLifecycle.ClosedForever | src/snabagent/tasks/lot_pipeline.py:75-93 | a lot decided while no run of it is active, queued or selected by a recovery stays decided in every interleaving without a replay by hand |
| LotLifecycle.DecisionIsFinal | src/snabagent/db/repositories.py:70-91 | and only then: otherwise some continuation reopens it |
| LotLifecycle.ApprovalUndone | src/snabagent/db/repositories.py:70-91 | it does happen: from the empty system a lot is created, started, approved, and put back by the next write of its run |
| LotLifecycle.ReplayReopens | scripts/replay_lot.py:11-25 | a replay by hand and one write of it undo any decision |
| LotLifecycle.OnlyApprovalDecides | src/snabagent/db/repositories.py:82-91 | in every run the chosen supplier and the closing time are those of the last approval |
| LotLifecycle.StalledForever | src/snabagent/tasks/lot_pipeline.py:79-93 | a lot in any other status that no run or sweep knows of is never changed, queued, run or selected again unless somebody decides about it or replays it |
| LotLifecycle.RecoverableIff | src/snabagent/tasks/lot_pipeline.py:79-93 | such a lot can be queued again unattended if and only if it is in one of the four statuses that recovery queries |
| LotLifecycle.LotIsLost | src/snabagent/tasks/lot_pipeline.py:79-93 | it does happen: from the empty system, a run that is lost after the planner leaves its lot in `planned` for good |
| CircuitBreaker.CircuitBreaker.IsOpen | src/snabagent/services/llm_client.py:30-39 | with a clock that does not go back, true exactly when some failure since the last reset is at most `open_duration_sec` old and, with those less than `window_sec` before it, reached the threshold |
| CircuitBreaker.CircuitBreaker.RecordFailure | src/snabagent/services/llm_client.py:41-51 | keeps the fields equal to what the history determines |
| CircuitBreaker.CircuitBreaker.RecordSuccess | src/snabagent/services/llm_client.py:53-55 | likewise, as a reset |
| CircuitBreaker.CallGuarded | src/snabagent/services/llm_client.py:66-114 | no attempt is made while the breaker is open; otherwise one or two, and the outcome is recorded |
| CircuitBreaker.StateIsHistory | src/snabagent/services/llm_client.py:30-55 | the pruned list is the newest failure plus the earlier ones since the last reset within its window, the opening time is the newest trip |
| CircuitBreaker.OpenOnlyAfterFailures | src/snabagent/services/llm_client.py:41-51 | an open breaker has seen enough failures within one window and no success since |
| CircuitBreaker.FiveInAMinute | src/snabagent/services/llm_client.py:14-16 | with the configured values the fifth failure within a minute opens the breaker for half a minute |
| CircuitBreaker.StaysOpen | src/snabagent/services/llm_client.py:30-39 | once tripped it stays open for the whole period in every continuation without a success |
| SlidingWindow.WithinPlaces | src/snabagent/services/llm_client.py:43 | exactly the times less than a window old are kept, in order and each as often as it occurs |
| SlidingWindow.WithinTwice | src/snabagent/services/llm_client.py:43 | pruning at an earlier time loses nothing that a later window needs |
| MailLimiter.MailLimiter.Check | src/snabagent/email_service/sender.py:25-33 | accepts exactly when fewer than ten accepted sends to the recipient are less than 60 seconds old, in the full history |
| MailLimiter.PassesIff | src/snabagent/email_service/sender.py:28-32 | that rule, stated of the places in the history, is the one over the accepted times |
| MailLimiter.TrackerKeepsEnough | src/snabagent/email_service/sender.py:28-29 | what the tracker has dropped never matters again |
| MailLimiter.AtMostTen | src/snabagent/email_service/sender.py:25-33 | no half-open minute, wherever it starts, holds more than ten accepted sends to one recipient |
| MailLimiter.RefusedExactlyAtTen | src/snabagent/email_service/sender.py:30-31 | a send is refused exactly when ten accepted ones to the recipient are less than 60 seconds old |
| MailLimiter.RecipientsAreIndependent | src/snabagent/email_service/sender.py:28-33 | what is accepted for one recipient does not depend on mail to others |
| EventBus.Queue.PutNowait | src/snabagent/api/ws.py:33-36 | a queue of 200 drops the message, any other takes it at its end |
| EventBus.LotEventBus.Subscribe | src/snabagent/api/ws.py:17-21 | a new empty queue joins the lot's set |
| EventBus.LotEventBus.Unsubscribe | src/snabagent/api/ws.py:23-27 | the queue leaves, an empty set is removed |
| EventBus.LotEventBus.Publish | src/snabagent/api/ws.py:29-36 | every queue of the lot is offered the message, no other queue is touched |
| EventBus.LotEventBus.Consume | src/snabagent/api/routes/websocket.py:27-30 | the oldest message goes to the handler |
| EventBus.ReceivedThenQueued | src/snabagent/api/ws.py:17-36 | in every interleaving, what a subscriber received followed by what is queued is what it kept, in order; at most 200 are queued |
| EventBus.KeptWasHeard | src/snabagent/api/ws.py:29-36 | what it kept are messages of its own lot during its subscription, in order |
| EventBus.NothingMissedIff | src/snabagent/api/ws.py:32-36 | it misses nothing if and only if its queue was never full at a publication to its lot |
| EventBus.SubscribedToOneLot | src/snabagent/api/ws.py:17-27 | a queue is in the set of its own lot and in no other |
| EventBus.NoEmptySets | src/snabagent/api/ws.py:23-27 | no lot keeps an empty subscriber set |
| EventBus.ReadersAreIndependent | src/snabagent/api/ws.py:29-36 | what a subscriber keeps does not depend on what others consume |
| VectorStore.InMemoryVectorStore.Ensure | src/snabagent/vector/qdrant_client.py:19-20 | creates a missing collection and changes nothing else |
| VectorStore.InMemoryVectorStore.Upsert | src/snabagent/vector/qdrant_client.py:22-30 | rows keep their places and get the batch's last value for their id, new points follow in order; other collections are untouched |
| VectorStore.UpsertOne | src/snabagent/vector/qdrant_client.py:25-30 | one more point: overwrite the row the index names, or append |
| VectorStore.UniqueIff | src/snabagent/vector/qdrant_client.py:22-30 | ids stay unique if and only if no new id occurs twice in the batch |
| VectorStore.RefinesMapUpdate | src/snabagent/vector/qdrant_client.py:22-30 | looking an id up gives the batch's last point with it, or else what it gave before |
| VectorStore.PlacesKept | src/snabagent/vector/qdrant_client.py:25-28 | no row disappears or moves, and rows the batch does not name are unchanged |
| VectorStore.RepeatChangesNothing | src/snabagent/vector/qdrant_client.py:22-30 | repeating any batch changes nothing |
| VectorStore.RepeatedNewIdIsDuplicated | src/snabagent/vector/qdrant_client.py:25-30 | a new id given twice ends up in two rows |
| VectorStore.InMemoryVectorStore.SearchIn | src/snabagent/vector/qdrant_client.py:32-41 | filter, score, sort and slice compute the specified hits |
| VectorStore.InMemoryVectorStore.Count | src/snabagent/vector/qdrant_client.py:43-44 | the number of rows, zero for a missing collection |
| VectorStore.FilteredRows | src/snabagent/vector/qdrant_client.py:35-36 | the matches are exactly the rows that meet the filter |
| VectorStore.MatchPlaces | src/snabagent/vector/qdrant_client.py:34-39 | the matches are the rows whose payload has every value of the filter, a missing one counting as None, in order, each with its own id, payload and score |
| VectorStore.TopK | src/snabagent/vector/qdrant_client.py:38-41 | min(limit, matches) hits by falling score, ties in insertion order, and nothing omitted scores above anything returned |
| VectorStore.NegativeLimit | src/snabagent/vector/qdrant_client.py:41 | a negative limit leaves out that many from the end |
| Embeddings.CauchySchwarz | src/snabagent/vector/embeddings.py:75-77 | the squared dot product is at most the product of the squared norms, for vectors of any length |
| Embeddings.CosineBounded | src/snabagent/vector/embeddings.py:72-80 | every score lies in [-1, 1], degenerate inputs included |
| Embeddings.SelfScore | src/snabagent/vector/embeddings.py:72-80 | a vector scores 1 with itself, the zero vector 0 |
| Embeddings.CosineSymmetric | src/snabagent/vector/embeddings.py:72-80 | the score is symmetric |
| Embeddings.DotByEntry | src/snabagent/vector/embeddings.py:75 | the numerator, entry by entry |
| Embeddings.CosineIs | src/snabagent/vector/embeddings.py:75-80 | the score times both norms is the dot product |
| Embeddings.ExtremesAreParallel | src/snabagent/vector/embeddings.py:75-80 | 1 and -1 are reached by parallel vectors only |
| Embeddings.NormalisingKeepsScores | src/snabagent/vector/embeddings.py:40-44 | normalised vectors have norm 1, keep every score, and score their dot product |
| Embeddings.FakeVector | src/snabagent/vector/embeddings.py:26-39 | from the list of words, the loops compute the signed bag of trigrams and words |
| Embeddings.EntryIsVotes | src/snabagent/vector/embeddings.py:35-39 | an entry is the number of grams hashed to it with bit 32 set less the number without |
| Embeddings.GramsOfWord | src/snabagent/vector/embeddings.py:26-31 | the grams of a word: its trigrams between two spaces, from left to right, then the word |
| Embeddings.GramsAppend | src/snabagent/vector/embeddings.py:26-31 | and the grams of a text are those of its words in order |
| Embeddings.WordOrderDoesNotMatter | src/snabagent/vector/embeddings.py:22-44 | the vector depends only on the multiset of words |
| Embeddings.MassOfBag | src/snabagent/vector/embeddings.py:35-39 | the absolute entries sum to the number of grams less two for every cancelled pair |
| Embeddings.GramCount | src/snabagent/vector/embeddings.py:26-31 | a text yields one gram per letter and one per word |
| Embeddings.OddTextsAreNotZero | src/snabagent/vector/embeddings.py:35-43 | a text with an odd number of grams is never mapped to the zero vector |
| PdfWriter.ToPdf | scripts/generate_sample_tz_binary.py:41-76 | from the ASCII text, the string-building loops produce the specified file |
| PdfWriter.Assemble | scripts/generate_sample_tz_binary.py:65-76 | for any list of objects |
| PdfWriter.SplitLinesIff | scripts/generate_sample_tz_binary.py:47 | the lines are exactly what is left of the text without its separators: single ASCII line breaks or `\r\n`, and nothing after a last line that is not empty |
| PdfWriter.EscapeIsEach | scripts/generate_sample_tz_binary.py:48 | the three replacements equal one escape per character |
| PdfWriter.ReadEscaped | scripts/generate_sample_tz_binary.py:48-49 | a literal-string reader (section 7.3.4.2 of ISO 32000-1) gets the line back |
| PdfWriter.EntryLength | scripts/generate_sample_tz_binary.py:75 | an entry has 20 bytes if and only if its offset is below 10^10 |
| PdfWriter.EntriesFitIff | scripts/generate_sample_tz_binary.py:74-75 | all entries have 20 bytes if and only if the last offset is below 10^10 |
| PdfWriter.TableIsRight | scripts/generate_sample_tz_binary.py:65-76 | for any objects: `startxref` points at the table, and entry i at the first byte of `i 0 obj` |
| PdfWriter.ObjectReads | scripts/generate_sample_tz_binary.py:65-76 | a reader that follows the table gets each object |
| PdfWriter.StreamReads | scripts/generate_sample_tz_binary.py:60-62 | `/Length` is the stream's byte count, for any content |
| PdfWriter.ShowsRead | scripts/generate_sample_tz_binary.py:47-49 | the content stream shows exactly the lines, in order |
| PdfWriter.FileReadsBack | scripts/generate_sample_tz_binary.py:41-76 | from the bytes of the file a reader recovers the text up to its line separators |
| PdfWriter.FileFrame | scripts/generate_sample_tz_binary.py:65-76 | header, trailer and `startxref` are there, with the number of objects and the root |
| PdfWriter.FilePieces | scripts/generate_sample_tz_binary.py:54-63 | following the table, a reader finds catalog, page tree, page and font |
| SupplierDedup.Dedup | src/snabagent/agents/sourcer.py:54-69 | the loop keeps one candidate per INN, in order of first appearance, and skips candidates without one |
| SupplierDedup.BestIsEarliestOfBest | src/snabagent/agents/sourcer.py:60-68 | the one kept is the earliest among those of the best source |
| SupplierDedup.SourcesRank | src/snabagent/agents/sourcer.py:60-68 | a historical candidate is never lost to another source, nor a vector one to anything but a historical one |
| SupplierDedup.OrderIsDistinct | src/snabagent/agents/sourcer.py:55-69 | every INN that occurs is kept once |
| SupplierDedup.OrderIsByAppearance | src/snabagent/agents/sourcer.py:54-69 | the INNs come in the order of their first appearance |
| SupplierDedup.FirstWins | src/snabagent/agents/sourcer.py:56-68 | in the order historical, vector, spark the rank comparison never fires |
| SupplierDedup.CountPurchases | src/snabagent/agents/tools/historical.py:21-43 | one entry per supplier with the number of its rows |
| SupplierDedup.PurchasesAreRows | src/snabagent/agents/tools/historical.py:21-43 | a supplier's count is the number of its rows |
| SupplierDedup.CountsSumToRows | src/snabagent/agents/tools/historical.py:21-43 | the counts sum to the number of joined rows |
| UsageTracker.KeyInjective | src/snabagent/services/metering.py:34-35 | the composed key determines tenant and month, even when tenants contain `:` |
| UsageTracker.UsageTracker.Increment | src/snabagent/services/metering.py:37-43 | records the event and returns its number for that tenant, month and metric |
| UsageTracker.UsageTracker.RecordLlmCost | src/snabagent/services/metering.py:45-59 | one charge, with the provider's two rates per thousand tokens, and two counts, each for the month it falls in |
| UsageTracker.UsageTracker.GetLlmCost | src/snabagent/services/metering.py:61-64 | the sum of the month's charges |
| UsageTracker.UsageTracker.CheckLimit | src/snabagent/services/metering.py:82-106 | outside the limit exactly when the plan is `pilot` and 100 lots were counted, or `pro` and 1000 |
| UsageTracker.CountersAreCounts | src/snabagent/services/metering.py:37-43 | every counter is the number of matching events |
| UsageTracker.CostsAreSums | src/snabagent/services/metering.py:55-64 | every accumulated cost is the sum of the matching charges |
| UsageTracker.TokenMetricCountsCalls | src/snabagent/services/metering.py:57-59 | the token metric moves by one per call |

## Left out

- PiiTheorems.RoundTrip: leaves open texts that spell one of their placeholders and also have 80000000000 e-mail addresses or spell an issued placeholder that is itself a phone number; texts that spell none are covered exactly by PiiLimits.SurvivesIff.
- PiiTheorems.MaskRestore: not for texts with 80000000000 e-mail addresses or that spell an issued placeholder that is itself a phone number.
- PiiResidue.NoResidue: for phone numbers only while the counters are below 80000000000; PiiLimits.ResidueIff shows that this is exact.
- PiiResidue.MaskIdempotent: the same; PiiLimits.MaskIdempotentIff shows that this is exact.
- PiiTheorems.UnmaskAnyOrder: only for mappings in which no value occurs inside another key; PiiLimits.OrderIsIrrelevantIff shows that this is exact.
- PiiLayers.LayersCompute: the condition of PiiTheorems.UnmaskAnyOrder for both prompts, and the counters of PiiLayers.ClientMapping.
- PiiLayers.LayersAgreeIff: the same.
- PiiLayers.LeakIff: every call of a real provider counts as posted, although a client may fail before it posts.
- PiiLayers.CompleteWithFallback: the choice of providers by role, metrics, costs and waiting times between attempts are not modelled; the number of attempts is at least one.
- PiiLayers.MaskValueIdempotentIff: dictionary keys are not masked, as in the code; the truncation of prompts before they are logged is not modelled.
- Pricing.Negotiate: the regulatory filter is a flag, advice is an arbitrary number or a failure; the average price and the audit records are not modelled, nor is the sharing of one offer dictionary between the lists of the state.
- Pricing.BuildReport: every verification has an offer with a price; the summary text is not modelled.
- Pricing.DemoSavings: assumes catalogue prices and quantities that are not negative.
- LotRunner.RunStreaming: LangGraph is a fold of updates over the fixed edges; the stored columns other than the status are not modelled.
- LotLifecycle.DecisionIsFinal: excludes replays by hand (LotLifecycle.ReplayReopens); status writes are atomic steps; access checks and approval limits of the routes are not modelled.
- LotLifecycle.RecoverableIff: says that recovery can queue the lot, not that the scheduler fires; once a sweep runs through, LotLifecycle.UninterruptedSweep applies.
- LotLifecycle.LotStore.Create: columns of a lot that no step of the model reads are left out; rows stored with other statuses by the demo seeding (`src/snabagent/api/routes/auth.py:195-275`) are the event `Seed`.
- CircuitBreaker.CallGuarded: the 30-second timeout of an attempt is one way in which it fails; calls that overlap are covered by the theorems about arbitrary histories, not by this method.
- EventBus.LotEventBus.Publish: delivery is one step, as it is between two awaits of one event loop; the pings of an idle connection are not modelled.
- VectorStore.TopK: the score is an arbitrary function of the stored vector; `Embeddings` is about the one in use.
- Embeddings.FakeVector: starts from the list of words; lower-casing and word splitting are not modelled, the hash is an arbitrary function.
- PdfWriter.ToPdf: starts from the ASCII text that the normalisation leaves, so that one character is one byte; font and page tree are fixed strings.
- SupplierDedup.Dedup: the cut to 30 candidates and the ranking by the language model are not modelled.
- Floating-point arithmetic throughout: prices are rounded reals, times and vectors reals.
- The dead-letter path of the Celery worker and `_mark_failed`, which writes a column that the lot does not have.
- HTTP, SMTP, IMAP, Redis, the Qdrant server, SQLAlchemy sessions, templates, prompts, authentication, user interfaces, exports and metrics.
