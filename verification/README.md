# Verified model of the host security agent

A Dafny model of the parts of the agent that hold real state, parse input or pack bits, with
machine-checked proofs of what they guarantee. `dafny verify dfyconfig.toml` checks the whole
project. Each file models one source component, or states laws about one that models it.

| part | source | files |
|---|---|---|
| event bus | `src/telemetry/event_bus.*` | `EventBusSteps` (one step per atomic access), `EventBusSafety`, `EventBusLedger`, `MpscQueue` (the object) |
| condition language | `src/detect/condition_parser.cpp`, `rule.hpp` | `RuleAst`, `ConditionLexer`, `ConditionGrammar`, `ConditionParser` (the objects), `ConditionPrinter`, `ConditionRoundTrip`, `ConditionSafety`, `ConditionWords` |
| rule engine | `src/detect/rule_engine.*` | `RuleEval`, `RuleMeaning`, `RuleFields`, `RulePrefilter`, `RuleBuckets`, `RuleEngine`, `OutputTemplate`, `RuleOutput` |
| notification dispatcher | `src/alerts/notify_dispatcher.*`, `notify_router.hpp` | `NotifyRouter`, `NotifyRouting`, `NotifySpec`, `NotifyLedger`, `NotifyReload`, `NotifySilence`, `NotifyDigests`, `NotifyWorker` (sleeping and waking), `NotifyDispatcher` (the object) |
| snapshot transaction | `src/storage/baseline_db.cpp` | `SnapshotSpec`, `SnapshotTransaction` (statement by statement), `SnapshotLaws`, `SnapshotScope`, `SnapshotRead`, `TextOrder` |
| JSON strings | `src/baseline/monitor.cpp` | `Utf8`, `JsonWriter`, `JsonString` |
| rules per file | `src/baseline/monitor.cpp`, `bpf/bpf_common.h` | `RuleMerge`, `RuleMatch`, `RuleAnswer`, `RuleStrength` |
| process tree | `src/telemetry/process_tree.*`, `enricher.cpp` | `ProcessSpec`, `ProcessTree` (map, list and index), `ProcessLaws`, `AncestorWalk` |
| DNS names | `bpf/net_watch.bpf.c`, `src/baseline/monitor_network.cpp` | `DnsName`, `DnsText` |
| event ids | `src/storage/event_store.cpp` | `Ulid`, `UlidOrder` |
| shared | | `Options`, `Bytes`, `Decimal`, `Arithmetic` |

Code that updates objects or arrays step by step is modelled as classes and methods with loops. Each
such method is proved against a function of the old state, and the promises are proved about those
functions: over single calls, over pairs of functions that undo each other, and over all runs. What the
small decisions are, which characters, fields, levels, paths and numbers, is stated apart from the code
that takes them, in `ConditionWords`, `RuleFields`, `RuleBuckets`, `RuleOutput`, `NotifyRouting`,
`SnapshotScope` and `RuleAnswer`.

## Where the code and its description part

The model follows the code. Each of these is a theorem with the exact condition, and where something
goes wrong only in some runs, a run that shows it.

- A queue built for fewer than two records overwrites unread ones: at capacity one, "published" and
  "free for the next lap" are the same sequence value (`EventBusSafety.SafeIffTwoSlots`,
  `EventBusSafety.OneSlotOverwrites`).
- `rule_engine.hpp:110` says rules are tried in load order. The event's own bucket is searched first
  and the common bucket after it, so a later rule can win (`RuleEngine.PickIsFirstIff`,
  `RuleEngine.LoadOrderNotKept`).
- Comments in the lexer leave a stray `!` or an illegal character to the parser to report. The parser
  takes it as a one-character string and rejects the quote alone (`ConditionSafety.CharacterAcceptedIff`).
  `docs/rule-dsl-v1.md` lists `=` among the characters of a bare string; it never is one
  (`ConditionSafety.EqualsNeverBare`).
- A literal is never `in` a list, even one that contains it (`RuleEval.InRewrites`).
- The JSON writer leaves an unfinished character at the very end of its input as it is, and only then
  is its output ill-formed (`JsonString.BodyLegalIff`).
- Silence for one key ends early when another key overflows the 4096-entry map
  (`NotifyLedger.SilenceLostIffCleared`, `NotifySilence.SilenceLostRun`).
- `notify_router.hpp:32` calls the silence key two levels, rule and object. It is one text, and with a bar
  in a rule's name alerts of two rules can share it (`NotifyRouting.SameKeyIff`, `NotifyRouting.BarConfusesRules`).
- `config.hpp:34` says digests are still subject to silence and recommends an aggregation window no
  shorter than the silence window; the default windows of that file are shorter, and a sweep can lose a
  digest (`NotifyDigests.DigestsHeardIff`, `NotifyDigests.DefaultsSilenceDigests`).
- The comment at `notify_dispatcher.cpp:172` says the alert that opens a window is sent at once. One that
  finds its window ended but not swept is silenced by the digest it makes the window queue
  (`NotifyDigests.LateAlertQueuedIff`).
- Emptying the URL while items wait can leave the worker with an item and no notifier
  (`NotifyReload.ReloadStrandsIff`, `NotifyReload.StrandedRun`).
- A failing step of the snapshot's reading query is taken for the end of the table, and the run commits
  with the rows read so far (`SnapshotRead.CutIsHarmlessIff`, `SnapshotRead.UnnoticedReadFailure`).
- A recursive scope written with a trailing slash, "/" among them, covers no ordinary path below it
  (`SnapshotSpec.TrailingSlashScope`).
- A sweep before the steady clock reaches 60000 ms removes every tombstone
  (`ProcessLaws.SweepExactIff`).
- `process_tree.hpp:14` and `process_tree.cpp:192` say a reused pid gets a new node. An exec keeps the
  old parent, and the old executable where none is readable (`ProcessLaws.ReuseResetsIff`).
- A legal DNS name of more than 31 labels is not reported (`DnsName.ManyLabelsRefused`).
- With more than four rules on a file a match, or a higher severity, can be lost
  (`RuleStrength.AnswerSurvivesIff`, `RuleStrength.SurvivesEveryOrderIff`, `RuleMatch.MatchCanBeLost`).

## Model

| member | source | states |
|---|---|---|
| EventBusSteps.RunsKeepInv | src/telemetry/event_bus.cpp:68-108 | In every interleaving of any number of producers with one consumer, compare-and-swap failing spuriously at will, the slot-sequence invariant holds at every step, for every capacity of at least two. |
| EventBusSteps.StepKeepsInv | src/telemetry/event_bus.cpp:68-108 | Each single load, compare-and-swap, copy and store of either call preserves that invariant. |
| EventBusSteps.FreeIsCurrentLap | src/telemetry/event_bus.cpp:72-77 | A producer that reads its own position from a slot holds a position of the current lap: no value left by an earlier lap can look free. |
| EventBusSteps.RefusedOnlyWhenFull | src/telemetry/event_bus.cpp:78-79 | A slot sequence below the position is seen only when every slot is claimed and not yet released. |
| EventBusSteps.SlotIsRemainder | src/telemetry/event_bus.cpp:71 | The slot of a position is its remainder modulo the capacity, for capacities that are no power of two as well. |
| EventBusSafety.MaskIsSlot | src/telemetry/event_bus.cpp:57-71 | For the capacities the constructor rounds to, masking a position with the capacity less one gives that slot. |
| EventBusSafety.AcceptedOnce | src/telemetry/event_bus.cpp:68-87 | Over a whole run no position is accepted twice, and the accepted positions are exactly the claimed ones whose producer has published. |
| EventBusSafety.UnpublishedStep | src/telemetry/event_bus.cpp:68-108 | Exactly which positions are still being filled after one step of anyone. |
| EventBusSafety.PoppedWereAccepted | src/telemetry/event_bus.cpp:68-108 | In every run the p-th pop returned the record claimed at position p, and that position's push was accepted; with AcceptedOnce, each accepted record is popped at most once and no other record ever is. |
| EventBusSafety.InvIntact | src/telemetry/event_bus.cpp:89-108 | Pops so far are the claimed records in claim order, and every claimed record not yet popped is intact in its slot or still being written. |
| EventBusSafety.UnreadNeverOverwritten | src/telemetry/event_bus.cpp:84-85 | No step of any run changes a published record before the consumer releases it; the release hands out exactly that record. |
| EventBusSafety.RefusedIffFull | src/telemetry/event_bus.cpp:72-79 | A push returns false if and only if, at its read of the slot, its position was the newest and all slots were claimed and unreleased. |
| EventBusSafety.EmptyIffNothingNext | src/telemetry/event_bus.cpp:89-104 | A pop reports empty if and only if, at its read of the slot, the position next in line was not claimed yet, or was claimed and is not published. |
| EventBusSafety.DepthBounded | src/telemetry/event_bus.hpp:55-59 | `depth()` lies in [0, capacity] whatever runs between its two loads, and never exceeds what was claimed and unreleased at the first. |
| EventBusSafety.DepthExact | src/telemetry/event_bus.hpp:55-59 | The depth falls short of the positions claimed and not taken at the first load by the number taken between the loads, and by nothing else. |
| EventBusSafety.PositionsGrow | src/telemetry/event_bus.cpp:68-108 | Both positions only grow over a run. |
| EventBusSafety.RoundUp | src/telemetry/event_bus.cpp:52-58 | The constructor's doubling loop finds the least power of two that is at least the request, and at least one. |
| EventBusSafety.OneSlotOverwrites | src/telemetry/event_bus.cpp:74-85 | A concrete run on a one-slot ring in which a push overwrites an unread record. |
| EventBusSafety.SafeIffTwoSlots | src/telemetry/event_bus.cpp:52-108 | A queue built for `capacity` records keeps all of this in every run if and only if `capacity >= 2`. |
| EventBusLedger.Ledger | src/telemetry/event_bus.cpp:120-134 | In every run: calls offered = pushed + all drop counters + refusals outside priorities 0..3 + calls in flight; the counters of the other queue's priorities stay zero; every caller is in the queue its priority routes to. |
| EventBusLedger.LedgerInRange | src/telemetry/event_bus.cpp:120-134 | While only priorities below 4 are offered the uncounted term is zero. |
| EventBusLedger.NothingUncounted | src/telemetry/event_bus.cpp:128-132 | Priorities below 4 are never refused without being counted. |
| EventBusLedger.DropCountersExact | src/telemetry/event_bus.cpp:128-132 | Each per-queue, per-priority counter equals the number of refused calls of that queue and priority, counted over the history. |
| EventBusLedger.QueueRunInside | src/telemetry/event_bus.cpp:120-142 | Any run of the bus projects to a run of either queue alone, so the queue theorems apply to both. |
| MpscQueue.Ring.constructor | src/telemetry/event_bus.cpp:52-64 | The ring object has the rounded capacity and starts empty. |
| MpscQueue.Ring.TryPush | src/telemetry/event_bus.cpp:68-87 | Used by one thread at a time the ring is a bounded FIFO: a push appends, or changes nothing, and is refused exactly when `capacity` records are held. |
| MpscQueue.Ring.TryPop | src/telemetry/event_bus.cpp:89-108 | A pop removes and returns the oldest record; it fails exactly on an empty ring. |
| ConditionLexer.Lexer.Next | src/detect/condition_parser.cpp:136-201 | The lexer object hands out exactly the tokens of the text, one per call, advancing each time, then `End` for ever. |
| ConditionLexer.Lexer.Scan | src/detect/condition_parser.cpp:145-200 | One token and its length at a position without blanks. |
| ConditionLexer.Lexer.ScanWord | src/detect/condition_parser.cpp:195-199 | The longest run of bare characters. |
| ConditionLexer.Lexer.SkipBlanks | src/detect/condition_parser.cpp:136-140 | Stops at the first character that is not a blank. |
| ConditionParser.Parser.ParseOperandHere | src/detect/condition_parser.cpp:337-384 | The parser object consumes what the grammar says, or records the first error, which later ones do not replace. |
| ConditionParser.Parser.ParseListHere | src/detect/condition_parser.cpp:386-414 | The same for a parenthesised list. |
| ConditionParser.Parser.ParseComparisonHere | src/detect/condition_parser.cpp:416-470 | The same for a comparison. |
| ConditionParser.Parser.ParseNotHere | src/detect/condition_parser.cpp:309-335 | The same for `not` and parentheses. |
| ConditionParser.Parser.ParseAndHere | src/detect/condition_parser.cpp:290-307 | The same for `and`, looping over further operands; terminates because each round consumes a token. |
| ConditionParser.Parser.ParseOrHere | src/detect/condition_parser.cpp:271-288 | The same for `or`. |
| ConditionParser.ParseCondition | src/detect/condition_parser.cpp:478-489 | On every text parsing terminates with a tree or a reason, never both, and which one is the grammar's answer. |
| ConditionPrinter.LexUndoesRender | src/detect/condition_parser.cpp:136-201 | Lexing any list of spellable tokens written out gives that list back. |
| ConditionPrinter.TokenScans | src/detect/condition_parser.cpp:136-201 | A spelled token followed by a blank scans as itself, whatever follows. |
| ConditionRoundTrip.ParseUndoesPrint | src/detect/condition_parser.cpp:271-489 | For every well-formed tree, lexing and parsing its printed text gives back exactly that tree. |
| ConditionRoundTrip.CondBack | src/detect/condition_parser.cpp:271-335 | The same inside any context, which fixes the precedence not > and > or: parentheses are printed only where a looser operator sits under a tighter one. |
| ConditionRoundTrip.ComparisonBack | src/detect/condition_parser.cpp:416-470 | A printed comparison parses back, including the forced-literal rule to the right of `event_type`. |
| ConditionRoundTrip.ItemsBack | src/detect/condition_parser.cpp:386-414 | A printed list of literals parses back. |
| ConditionRoundTrip.NotAField | src/detect/condition_parser.cpp:214-224 | No field is missed by the heuristic that reports unknown fields. |
| ConditionSafety.ParsedIsWellFormed | src/detect/condition_parser.cpp:271-489 | Whatever the text, a returned tree is well-formed: and/or have at least two children, lists occur exactly under `in`, are non-empty and hold only literals, no substring test on a numeric field. |
| ConditionSafety.ImageIsWellFormed | src/detect/condition_parser.cpp:242-489 | A tree is the parse of some text if and only if it is well-formed. |
| ConditionSafety.CharacterAcceptedIff | src/detect/condition_parser.cpp:163-199 | A single character is an operand if and only if it is no blank, bracket, comma, `=` or quote: a digit as a number, anything else as a one-character string; the quote alone is rejected. The lexer's comments leave all illegal characters to the parser to reject. |
| ConditionSafety.StrayCharacterAccepted | src/detect/condition_parser.cpp:170-199 | Such a character stands on the right of every comparison, of any field and operator, that takes a string. |
| ConditionSafety.EqualsNeverBare | src/detect/condition_parser.cpp:110-129 | No bare token of any text contains `=`. |
| ConditionSafety.LexLexed | src/detect/condition_parser.cpp:136-201 | Which tokens any text can produce at all. |
| ConditionWords.WholeWordIff | src/detect/condition_parser.cpp:109-129 | A text is lexed as one bare word, itself, if and only if it is a run of letters, digits and the characters `/._-:*+@[]`, or a single character that is no blank, bracket, comma or `=`. |
| ConditionWords.LongWordsAreListed | src/detect/condition_parser.cpp:195-200 | In every text a bare word of more than one character holds only letters, digits and those characters. |
| ConditionWords.WordEnds | src/detect/condition_parser.cpp:195-200 | Such a run ends at the first other character: what follows it is lexed on its own. |
| ConditionWords.NoTokensIff | src/detect/condition_parser.cpp:136-144 | A text has no token if and only if it is blank: spaces, tabs, line feeds, vertical tabs, form feeds, carriage returns. |
| ConditionWords.EmptyConditions | src/detect/condition_parser.cpp:478-484 | A condition of spaces, tabs and line ends is empty; with another blank among them it lacks an operand; any other is what its tokens parse to. |
| ConditionWords.ReservedIff | src/detect/condition_parser.cpp:208-211 | A word is refused as reserved if and only if it is `and`, `or`, `not`, `in`, `contains` or `startswith`. |
| ConditionWords.UnknownFieldIff | src/detect/condition_parser.cpp:213-224 | A word is refused as an unknown field if and only if it continues the name of one of the seven families with a dot and is the path of no field. |
| ConditionWords.NumberIsRead | src/detect/condition_parser.cpp:370-380 | The decimal spelling of a number is read as that number up to 9223372036854775807, and as an overflow above. |
| ConditionWords.NumberIff | src/detect/condition_parser.cpp:226-234 | A word that is not shaped like a field is a number, or one too large, if and only if it is a run of digits. |
| ConditionWords.EqualsWord | src/detect/condition_parser.cpp:332-380 | A field's path, ` = ` and a plain word are parsed as the comparison of that field with that text. |
| ConditionWords.SubstringTestsIff | src/detect/condition_parser.cpp:430-476 | `contains` and `startswith` can be asked of a field in some accepted text if and only if the field is no number. |
| ConditionWords.FilePathIs | src/detect/condition_parser.cpp:57 | For instance `file.path = /etc/shadow`, and every other plain word in place of the path. |
| RuleAst.PathRoundTrip | src/detect/condition_parser.cpp:41-100 | Every field is found by its own path, and by no other field's. |
| RuleAst.IdentifyPath | src/detect/condition_parser.cpp:41-100 | No two fields share a path. |
| RuleAst.FieldIdFromPath | src/detect/condition_parser.cpp:41-100 | A path that is found names the field it is found for. |
| RuleEval.InRewrites | src/detect/rule_engine.cpp:350-386 | `x in (v1,...,vn)` evaluates as `x = v1 or ... or x = vn` on every event if and only if `x` is a field (scalar, array or missing) or a literal equal to no `vi`; a literal is never in a list. |
| RuleEval.ItemsAsEqualities | src/detect/rule_engine.cpp:243-305 | The field half, for scalar, array-element and missing fields alike. |
| RuleMeaning.ComparisonMeans | src/detect/rule_engine.cpp:211-386 | A field compared with a literal evaluates as `docs/rule-dsl-v1.md` says: a missing text is empty, a missing number makes every comparison false, `contains` and `startswith` hold exactly when the text can be split around the spelling, an array field holds when some element does. |
| RuleMeaning.NotEqualIsNegationIff | src/detect/rule_engine.cpp:243-306 | For every field, `!=` with a literal is the negation of `=` if and only if the literal is a number where the field is one, and a scalar number is present, or an array field has elements that all agree on equalling the literal. With no elements both are false, and with elements that disagree both hold. |
| RuleMeaning.ArrayNotEqualIff | src/detect/rule_engine.cpp:273-306 | The array half: there are elements, and all of them equal the literal or none does. |
| RuleMeaning.ScalarNotEqualIff | src/detect/rule_engine.cpp:243-272 | The scalar half: texts always, numbers when present and compared with a number. |
| RuleFields.ProcessTexts | src/detect/rule_engine.cpp:17-52 | `event_type`, `process.comm`, `process.exe` and `container.container_id` name the fields that read the event's type, name, executable and container, under every operator and literal. |
| RuleFields.ProcessNumbers | src/detect/rule_engine.cpp:24-39 | `process.pid`, `process.ppid`, `process.uid` and `process.gid` read the numbers of these names. |
| RuleFields.FileTexts | src/detect/rule_engine.cpp:53-61 | `file.path`, `file.action` and `file.new_mode` read these texts of a file event, and nothing of another. |
| RuleFields.FileNumbers | src/detect/rule_engine.cpp:62-74 | `file.ino`, `file.mask`, `file.new_uid` and `file.new_gid` read these numbers of a file event, and are missing from another. |
| RuleFields.NetworkTexts | src/detect/rule_engine.cpp:75-80 | `network.sip` and `network.dip` likewise. |
| RuleFields.NetworkNumbers | src/detect/rule_engine.cpp:81-86 | `network.family` and `network.protocol` likewise. |
| RuleFields.NetworkPorts | src/detect/rule_engine.cpp:87-93 | `network.sport` and `network.dport` likewise. |
| RuleFields.DnsFields | src/detect/rule_engine.cpp:94-100 | `dns.domain` and `dns.qtype` likewise. |
| RuleFields.PrivTexts | src/detect/rule_engine.cpp:101-106 | `priv.request` and `priv.name` likewise. |
| RuleFields.PrivNumbers | src/detect/rule_engine.cpp:107-112 | `priv.target_id` and `priv.effective_lo` likewise. |
| RuleFields.PrivRequests | src/detect/rule_engine.cpp:113-119 | `priv.target_pid` and `priv.request_value` likewise. |
| RuleFields.NamespaceTexts | src/detect/rule_engine.cpp:120-128 | `ns.source`, `ns.target` and `ns.fstype` likewise. |
| RuleFields.NamespaceKinds | src/detect/rule_engine.cpp:129-134 | `ns.nstype_name` and `ns.target_ns` likewise. |
| RuleFields.NamespaceNumbers | src/detect/rule_engine.cpp:135-143 | `ns.flags`, `ns.fd` and `ns.nstype` likewise. |
| RuleFields.NamespaceNames | src/detect/rule_engine.cpp:275-284 | `ns.names[]` holds when one of the event's names does. |
| RuleFields.AncestorFields | src/detect/rule_engine.cpp:285-305 | The three `process.ancestors[]` paths hold when the pid, the name or the executable of one of the ancestors does. |
| RuleFields.FileRuleHoldsIff | src/detect/rule_engine.cpp:53-55 | From rule text to event: `file.path = word` is accepted and holds exactly on file events with that path, for every plain word. |
| RuleFields.ExecutableRuleHoldsIff | src/detect/rule_engine.cpp:44-47 | The same for `process.exe = word` and the event's executable. |
| RuleFields.FieldsEqualIff | src/detect/rule_engine.cpp:310-322 | Two fields are equal if and only if both are scalar, of one kind, and equal some literal both. |
| RuleFields.FieldsDifferIff | src/detect/rule_engine.cpp:322-326 | Two fields differ if and only if both have a value, of one kind, and are not equal; no other operator holds between them. |
| RuleFields.LiteralFirstIff | src/detect/rule_engine.cpp:329-348 | With the literal on the left, `=` and `!=` mean the same as the other way round for a scalar field of the literal's kind; everything else is false. |
| RuleFields.LiteralsIff | src/detect/rule_engine.cpp:339-347 | Two literals are compared by kind, then by value. |
| RuleEval.EvalAllMeaning | src/detect/rule_engine.cpp:388-408 | `and` holds exactly when every child does. |
| RuleEval.EvalAnyMeaning | src/detect/rule_engine.cpp:388-408 | `or` holds exactly when some child does. |
| RuleEval.PresentIff | src/detect/rule_engine.cpp:17-209 | Of the scalar fields, a number is present exactly when the event carries its family; a text always is, and reads as empty without its family. |
| RuleEval.ResolveScalar | src/detect/rule_engine.cpp:17-209 | Exactly the array fields have no scalar value. |
| RulePrefilter.MaskSound | src/detect/rule_engine.cpp:504-535 | A condition that holds on an event lets the event's type bit through its compiled mask. |
| RulePrefilter.ItemsMaskSound | src/detect/rule_engine.cpp:504-535 | The same for an `in` list of event types, and some element spells the type. |
| RulePrefilter.BucketSound | src/detect/rule_engine.cpp:539-602 | A condition that holds was filed under the event's own bucket or the common one. |
| RulePrefilter.BitIsSingle | src/detect/rule_engine.hpp:93-94 | Every event type, also an unknown one, is tested with exactly one bit of the unconstrained mask. |
| RuleBuckets.FamilyBuckets | src/detect/rule_engine.cpp:539-561 | An event type that begins with `file.`, `process.`, `priv.`, `ns.`, `dns.` or `network.` has that family's bucket, and `network.dns` that of `dns`. |
| RuleBuckets.OtherBuckets | src/detect/rule_engine.cpp:539-561 | Every other event type, with or without a dot, has the common bucket. |
| RuleBuckets.BucketOfTestIff | src/detect/rule_engine.cpp:563-584 | A test of the event type with `=` or `in` is filed under a bucket of its own if and only if every event that passes the test is of that bucket. |
| RuleBuckets.OtherTestsHaveNone | src/detect/rule_engine.cpp:563-568 | Every other comparison is filed under the common bucket. |
| RuleBuckets.BucketOfAllIff | src/detect/rule_engine.cpp:586-597 | A conjunction is filed under a bucket if and only if some part names it and no part names another. |
| RuleEngine.Engine.Build | src/detect/rule_engine.cpp:604-619 | Fails with the first rule whose template does not compile; otherwise every rule is in exactly its bucket, in load order, none missing. |
| RuleEngine.Engine.ScanBucket | src/detect/rule_engine.cpp:621-653 | Skipping by mask finds the first rule of the bucket that holds, as the plain scan would. |
| RuleEngine.Engine.Evaluate | src/detect/rule_engine.cpp:621-653 | Returns the first rule in load order that holds among the event's bucket, else among the common bucket, with that rule's rendered text; nothing if there is none. |
| RuleEngine.PickIffSomeRuleHolds | src/detect/rule_engine.cpp:621-653 | Evaluation triggers if and only if some loaded rule's condition holds: bucket and mask never hide a match. |
| RuleEngine.PickIsFirstIff | src/detect/rule_engine.hpp:110-112 | The picked rule is the first in load order, as documented, if and only if no holding rule of the common bucket was loaded before the first holding rule of the event's own bucket. |
| RuleEngine.LoadOrderNotKept | src/detect/rule_engine.hpp:110-112 | Two rules on which the documented load order is not kept. |
| RuleEngine.FirstOfBucket | src/detect/rule_engine.cpp:621-653 | The first holding compiled rule of a bucket is the first holding rule of the load order filed there. |
| OutputTemplate.PrintUndoesCompile | src/detect/rule_engine.cpp:423-469 | Whenever a template compiles, its literal segments and `%` plus each path give the template back, and no segment names an array field. |
| OutputTemplate.CompileFailsIff | src/detect/rule_engine.cpp:423-469 | Compilation fails if and only if some percent sign starts a non-empty path that refers to nothing renderable. |
| OutputTemplate.ParseOutputTemplate | src/detect/rule_engine.cpp:423-469 | The source's scanning loop computes that compilation, error included. |
| OutputTemplate.NextPiece | src/detect/rule_engine.cpp:426-445 | Bounds of the next reference: text, percent sign and path partition the template. |
| RuleOutput.ReferenceIs | src/detect/rule_engine.cpp:430-466 | A percent sign and the letters, digits, dots and underscores after it refer to the field of that path, `%rule.name` or `%rule.priority`; text before and after stays. |
| RuleOutput.FieldIsShown | src/detect/rule_engine.cpp:640-650 | A rule whose text ends in a reference to a field shows that field there. |
| RuleOutput.TextIsShown | src/detect/rule_engine.cpp:410-421 | A text field is shown as the text it equals. |
| RuleOutput.NumberIsShown | src/detect/rule_engine.cpp:410-421 | A number is shown in decimal, and not at all when the event does not carry it. |
| RuleOutput.ShownInOrder | src/detect/rule_engine.cpp:640-650 | Text, rule name, priority and fields are shown one after the other. |
| RuleOutput.FirstRefused | src/detect/rule_engine.cpp:604-619 | Building reports the first rule in load order whose text does not compile, and none if all do. |
| Decimal.IntTextIsUnique | src/alerts/notify_router.hpp:35 | The decimal spelling of a number denotes it, has no colon, and is no other number's. |
| NotifyLedger.LedgerHolds | src/alerts/notify_dispatcher.hpp:16-20 | In every reachable state, across any reloads: routed + digests = merged + suppressed + dropped + queued + in flight + sent + failed; merged = counted in digests + pending in live windows + discarded by the 4096-window cap; windows exist only while aggregation is on; queue and maps stay within their bounds. |
| NotifyLedger.StepBooks | src/alerts/notify_dispatcher.cpp:21-246 | Every lock-held section keeps both ledgers. |
| NotifyLedger.SpacingHolds | src/alerts/notify_dispatcher.cpp:47-81 | In every run two items queued under one key, digests included, with no reload and no clearing of `last_sent_` between them, are at least the silence window apart. |
| NotifyLedger.SilenceLostIffCleared | src/alerts/notify_dispatcher.cpp:65-69 | Queueing an alert ends another key's silence if and only if it is queued and overflows the 4096-key map. |
| NotifyRouting.PassesIff | src/alerts/notify_router.hpp:11-28 | In the list low, medium, high, critical, an alert passes a minimum if and only if it is at or above it. |
| NotifyRouting.RoutesIff | src/alerts/notify_router.hpp:11-28 | An unlisted severity counts as medium; an unlisted or empty minimum acts as high. |
| NotifyRouting.AlertRoutedIff | src/alerts/notify_dispatcher.cpp:130-144 | An alert is taken up if and only if dispatching is on, there is a notifier, and its place in that list is at least the minimum's; otherwise only the clock moves. |
| NotifyRouting.NotifierIsForUrl | src/alerts/notify_dispatcher.cpp:26-33 | In every run the notifier is the one for the configured URL, and there is none without one. |
| NotifyRouting.SameKeyIff | src/alerts/notify_router.hpp:30-44 | Alerts of rules without a bar in their names share a key if and only if they are of one rule and about one subject: a process for process events, else the file, else the process, else nothing. |
| NotifyRouting.SameRuleSameKeyIff | src/alerts/notify_router.hpp:30-44 | Under one rule only the subject decides, bar or no bar. |
| NotifyRouting.BarConfusesRules | src/alerts/notify_dispatcher.cpp:50 | With a bar in a rule's name, alerts of two rules can share a key. |
| NotifyRouting.WindowsInTicks | src/alerts/notify_router.hpp:46-54 | A silence or aggregation window of m minutes is active for m times 60,000,000,000 ns, and off at m of zero or less. |
| NotifyRouting.ItemOutcome | src/alerts/notify_dispatcher.cpp:47-81 | An item is suppressed if its key is silenced, dropped if 1024 are waiting, and else the last in the queue. |
| NotifyRouting.KeysRemembered | src/alerts/notify_dispatcher.cpp:65-69 | A queued item's key is remembered with the time, beside the others unless that makes more than 4096. |
| NotifyRouting.WindowsKept | src/alerts/notify_dispatcher.cpp:173-181 | Opening a window keeps the others unless that makes more than 4096. |
| NotifySilence.SilenceLostRun | src/alerts/notify_dispatcher.cpp:49-70 | A run with one reload, 4097 keys queued and sent, and the first of them queued again with less than its silence window in between and nothing suppressed. |
| NotifySilence.Flood | src/alerts/notify_dispatcher.cpp:65-70 | Up to 4096 keys can be queued and sent in a run that remembers every one of them. |
| NotifyDigests.SentByOpeningHolds | src/alerts/notify_dispatcher.cpp:47-113 | In every run, across reloads, a key with a live window was last sent no later than the window was opened. |
| NotifyDigests.EndedDigestIsHeard | src/cli/config.hpp:32-34 | With an aggregation window no shorter than the silence window, the digest of an ended window is not silenced, in any run and at any time. |
| NotifyDigests.DigestsHeardIff | src/cli/config.hpp:31-34 | While aggregation is on, no sweep of any run under a configuration silences a digest if and only if its aggregation window is at least as long as its silence window. |
| NotifyDigests.SilencedSweep | src/alerts/notify_dispatcher.cpp:49-56 | For any shorter window, a run that opens it, merges one alert and sweeps at its end, and loses the digest. |
| NotifyDigests.DefaultsSilenceDigests | src/cli/config.hpp:31-34 | With the default windows of ten and five minutes sweeps do silence digests. |
| NotifyDigests.LateAlertQueuedIff | src/alerts/notify_dispatcher.cpp:168-187 | An alert that finds its window ended but not swept is queued if and only if there is room, its key was not silenced, and settling the window has not just queued a digest that silences it. |
| NotifyLedger.WindowRemembers | src/alerts/notify_dispatcher.cpp:148-181 | In every run a live window holds exactly the alerts merged since it was opened, whatever else happened in between: how many, the first and the last. |
| NotifyLedger.DigestSummarises | src/alerts/notify_dispatcher.cpp:84-98 | In every run the digest of a window counts exactly those alerts, carries the last one's context and the first and last one's times. |
| NotifyLedger.SweepLeavesOpenWindows | src/alerts/notify_dispatcher.cpp:100-113 | A sweep flushes exactly the windows past their end; the others are untouched and still open. |
| NotifyLedger.OpenWindowEndsLater | src/alerts/notify_dispatcher.cpp:115-128 | A window is open exactly while the clock is before its end. |
| NotifyLedger.TakeFindsNotifier | src/alerts/notify_dispatcher.cpp:220-222 | In every run that never empties the URL over waiting items, the worker that takes an item has a notifier to send it with. |
| NotifyLedger.StepDeliverable | src/alerts/notify_dispatcher.cpp:21-246 | Every step keeps a notifier for whatever waits, if reloads are of that kind. |
| NotifyLedger.ReloadDeliverableIff | src/alerts/notify_dispatcher.cpp:21-43 | After a reload whatever waits has a notifier if and only if there is a URL, or the queue is empty and no window has merged alerts (when it turns aggregation off: every such window's digest is silenced). |
| NotifyReload.ReloadStrandsIff | src/alerts/notify_dispatcher.cpp:21-43 | From any reachable state in which whatever waits has a notifier: after a reload, some continuation without another reload reaches the worker taking an item with no notifier if and only if the reload empties the URL while the queue is not empty or some window has merged alerts (when it turns aggregation off: some window whose digest is not silenced). |
| NotifyReload.StrandsIff | src/alerts/notify_dispatcher.cpp:205-231 | From any reachable state such a continuation exists if and only if there is no notifier and something waits. |
| NotifyReload.StrandedRun | src/alerts/notify_dispatcher.cpp:220-231 | A run of three operations - URL set, critical alert, URL emptied - that ends with the worker able to take the alert and no notifier. |
| NotifyReload.SweepQueuesIff | src/alerts/notify_dispatcher.cpp:100-113 | A sweep of an empty queue queues something if and only if some ended window has merged alerts whose digest is not silenced at that time. |
| NotifyLedger.FlushAllQueues | src/alerts/notify_dispatcher.cpp:84-98 | Settling windows, in any order, leaves the queue empty if and only if it was empty and each window merged nothing or has its digest silenced. |
| NotifyLedger.EnqueueAccounts | src/alerts/notify_dispatcher.cpp:47-81 | Offering one item ends in exactly one of suppressed, dropped and queued, and touches no other account. |
| NotifyDispatcher.Dispatcher.constructor | src/alerts/notify_dispatcher.hpp:40-47 | A new dispatcher is in the initial state. |
| NotifyDispatcher.Dispatcher.UpdateConfig | src/alerts/notify_dispatcher.cpp:21-43 | One reload step, settling every window when aggregation is turned off. |
| NotifyDispatcher.Dispatcher.EnqueueWithSilence | src/alerts/notify_dispatcher.cpp:47-81 | Suppress, drop or queue; only a queued item takes the window slot. |
| NotifyDispatcher.Dispatcher.OccupySlot | src/alerts/notify_dispatcher.cpp:65-69 | Remembers the key, clearing the map when it outgrows 4096 keys. |
| NotifyDispatcher.Dispatcher.FlushAggWindow | src/alerts/notify_dispatcher.cpp:84-98 | Settles and erases one window. |
| NotifyDispatcher.Dispatcher.FlushKeys | src/alerts/notify_dispatcher.cpp:37-40 | Settles a set of windows in an arbitrary order. |
| NotifyDispatcher.Dispatcher.FlushExpired | src/alerts/notify_dispatcher.cpp:100-113 | The sweep as one step. |
| NotifyDispatcher.Dispatcher.NextAggFlushDeadline | src/alerts/notify_dispatcher.cpp:115-128 | The earliest end among the open windows; none exactly when aggregation is off or nothing is open. |
| NotifyDispatcher.Dispatcher.SweepAndPlan | src/alerts/notify_dispatcher.cpp:205-216 | After the worker's sweep no window is past its end, and the deadline it waits for is the earliest end and strictly in the future. |
| NotifyDispatcher.Dispatcher.Aggregate | src/alerts/notify_dispatcher.cpp:148-185 | Merges exactly when the key has a window that is still open; otherwise settles an ended one and opens a fresh one. |
| NotifyDispatcher.Dispatcher.OpenHere | src/alerts/notify_dispatcher.cpp:173-181 | Opens a window; past 4096 the map is cleared and the pending counts in it are discarded. |
| NotifyDispatcher.Dispatcher.Dispatch | src/alerts/notify_dispatcher.cpp:130-188 | Level routing, aggregation, silence and queue as one step. |
| NotifyDispatcher.Dispatcher.TakeOne | src/alerts/notify_dispatcher.cpp:220-222 | The worker takes the oldest item. |
| NotifyDispatcher.Dispatcher.Deliver | src/alerts/notify_dispatcher.cpp:225-244 | One attempt and at most two retries, stopping at the first success; counted sent if any attempt succeeds, else failed. |
| NotifyWorker.NoWakeupIsLost | src/alerts/notify_dispatcher.cpp:121-188 | In every run of callers and worker, spurious wake-ups included, a worker that waits without having been notified sees an empty queue, and the deadline it waits for is no later than the end of any live window. |
| NotifyWorker.WorkWakes | src/alerts/notify_dispatcher.cpp:205-216 | Whenever an item is queued or a window has ended, a waiting worker has been notified or its deadline has passed. |
| NotifyWorker.EveryWakeIsNeeded | src/alerts/notify_dispatcher.cpp:182-184 | No notification of an alert can be left out, the one on opening a window included: a worker waiting without a deadline would miss an item or a window's end. |
| NotifyWorker.SilentCallKeepsPlan | src/alerts/notify_dispatcher.cpp:156-167 | An alert that notifies nobody queues nothing, opens no window and moves no window's end. |
| NotifyWorker.TurnIsOpen | src/alerts/notify_dispatcher.cpp:205-216 | A worker that is not sending can sweep and plan at any later time, in some order and with some earliest end. |
| NotifyWorker.RunsAreRuns | src/alerts/notify_dispatcher.cpp:200-223 | A run of callers and worker is a run of the dispatcher, so that what holds in all of those holds here. |
| SnapshotTransaction.BaselineDb.ApplySnapshot | src/storage/baseline_db.cpp:263-545 | Succeeds exactly when no statement whose outcome is looked at fails; then table, audit log, snapshot row and counters are those of the difference between the rows read and the scan. A failure at any such statement leaves all three tables as before, though the removed counter keeps its increment. |
| SnapshotTransaction.BaselineDb.ReadRows | src/storage/baseline_db.cpp:301-324 | Reading stops at the first step that does not deliver a row, whether the last row was read or the step failed: the rows read are any part of the table of that size. |
| SnapshotTransaction.BaselineDb.WriteAll | src/storage/baseline_db.cpp:375-537 | What follows BEGIN, up to and including COMMIT. |
| SnapshotRead.CutIsHarmlessIff | src/storage/baseline_db.cpp:301-324 | A committed run that read only part of the table gives the table, audit rows and counters of the whole difference if and only if no unread stored path is scanned or in scope without exclusion; otherwise the counters are wrong. |
| SnapshotRead.CutContentsRightIff | src/storage/baseline_db.cpp:463-502 | The stored files come out right after such a run if and only if no unread path should have been removed. |
| SnapshotRead.FullReadIsWhole | src/storage/baseline_db.cpp:309-324 | The rows read are the table if and only if as many steps deliver a row as the table has rows. |
| SnapshotRead.UnnoticedReadFailure | src/storage/baseline_db.cpp:309-324 | Two runs over one unchanged file: the first read step of the second fails, that run succeeds all the same, and the file is logged as added a second time where nothing should be logged. |
| SnapshotTransaction.BaselineDb.WriteChanges | src/storage/baseline_db.cpp:463-489 | The loop over the scanned files in path order: one audit row and one upsert for each that is new or differs, nothing for the rest. |
| SnapshotTransaction.BaselineDb.RemoveGone | src/storage/baseline_db.cpp:490-502 | The loop over the stored files in path order: one audit row and one delete for each in scope that the scan missed. |
| SnapshotTransaction.BaselineDb.CountRemoved | src/storage/baseline_db.cpp:365-369 | The removals are counted before the transaction begins. |
| SnapshotTransaction.BaselineDb.IndexEntries | src/storage/baseline_db.cpp:325-328 | Of two entries for one path the later wins. |
| SnapshotLaws.OutcomeContents | src/storage/baseline_db.cpp:463-502 | The stored files afterwards are (old minus in-scope unscanned) overridden by scanned. |
| SnapshotLaws.StampedIffChanged | src/storage/baseline_db.cpp:416-448 | Exactly the rows whose content is new carry the run's id, label and time; the others keep theirs. |
| SnapshotLaws.AuditReplays | src/storage/baseline_db.cpp:390-414 | For a run that read the whole table: replaying the new audit rows forward turns the old contents into the new, and taking them back from last to first turns new into old; each row's "before" is what the rows ahead of it left. |
| SnapshotLaws.UndoUndoesRedo | src/storage/baseline_db.cpp:390-414 | Any chained list of audit rows can be taken back. |
| SnapshotLaws.CountsAddUp | src/storage/baseline_db.cpp:463-502 | Added + modified + unchanged = number of scanned paths; new size = old size + added - removed. |
| SnapshotLaws.AuditRowCount | src/storage/baseline_db.cpp:463-502 | One audit row for each added, modified or removed file. |
| SnapshotLaws.ScannedCountAgreesIff | src/storage/baseline_db.cpp:543 | For any argument list, the scanned counter agrees with the other three if and only if no path is listed twice; the one caller lists none twice. |
| SnapshotLaws.ScannedKeys | src/storage/baseline_db.cpp:325-328 | The scanned map holds exactly the listed paths, and as many as listed only without duplicates. |
| SnapshotLaws.AgainChangesNothing | src/storage/baseline_db.cpp:463-502 | Running the same snapshot again changes no row, writes no audit row and counts every scanned path as unchanged. |
| SnapshotSpec.ScopeCovers | src/storage/baseline_db.cpp:330-343 | A recursive scope covers its path and everything beneath it, a flat one its path and its children, a file only itself. |
| SnapshotSpec.TrailingSlashScope | src/storage/baseline_db.cpp:340-342 | A recursive scope written with a trailing slash, "/" among them, covers a path below it if and only if that path has a second slash there. |
| SnapshotScope.ExcludedIff | src/storage/baseline_db.cpp:344-353 | A path is excluded if and only if it equals an exclude or continues one with a slash. |
| SnapshotScope.InScopeIff | src/storage/baseline_db.cpp:354-366 | A path is in scope if and only if some scope covers it and no exclude protects it. |
| SnapshotScope.RemovedIff | src/storage/baseline_db.cpp:491-520 | A stored file is gone after the run if and only if it was not listed, some scope covers it, and no exclude protects it. |
| SnapshotScope.ProtectedIsLeftAlone | src/storage/baseline_db.cpp:344-366 | A stored file that was not listed and that an exclude protects keeps its row, and no row of the log names it. |
| SnapshotScope.LastEntryCounts | src/storage/baseline_db.cpp:326-329 | Of the entries for one path the last gives its attributes. |
| SnapshotScope.LoggedIff | src/storage/baseline_db.cpp:463-520 | A row stands in the log of a run if and only if it says what the run did to its path: added or modified, with the states before and after, or removed. |
| SnapshotScope.ChangesAscend | src/storage/baseline_db.cpp:463-489 | The rows for scanned files come in ascending order of their paths. |
| SnapshotScope.RemovalsAscend | src/storage/baseline_db.cpp:491-520 | So do the rows for removed files. |
| TextOrder.BeforeIff | src/storage/baseline_db.cpp:326-329 | That order puts a beginning of a text before it, and else decides by the first place of difference. |
| JsonWriter.AppendJsonString | src/baseline/monitor.cpp:1098-1141 | The writer terminates on every byte string, although a rejected byte is read again, and appends the quoted body of that string. |
| JsonString.BodyLegalIff | src/baseline/monitor.cpp:1072-1141 | The body is legal JSON (section 7 of RFC 8259), and well-formed UTF-8 (section 4 of RFC 3629), if and only if the input does not stop inside a character. |
| JsonString.LegalIsWellFormed | src/baseline/monitor.cpp:1098-1141 | Every legal body is well-formed UTF-8. |
| JsonString.UnescapeUndoesBody | src/baseline/monitor.cpp:1098-1141 | For every input that does not stop inside a character, unescaping the body gives the input with each maximal ill-formed piece replaced by U+FFFD. |
| JsonString.SanitizedWellFormed | src/baseline/monitor.cpp:1098-1141 | On well-formed input nothing is replaced and nothing is unfinished. |
| JsonString.RoundTrip | src/baseline/monitor.cpp:1098-1141 | Well-formed UTF-8 comes back unchanged. |
| JsonString.ReplacementIs | src/baseline/monitor.cpp:1106-1114 | What stands for an ill-formed piece is the character U+FFFD. |
| JsonString.AsciiIsWritten | src/baseline/monitor.cpp:1116-1133 | A control character is written with its two-character escape if the grammar has one, and with four lower-case hexadecimal digits otherwise; other ASCII characters but quote and backslash stay. |
| JsonString.EndsUnfinishedSkip | src/baseline/monitor.cpp:1106-1119 | An unfinished end starts where the writer starts a new piece. |
| Utf8.AutomatonStep | src/baseline/monitor.cpp:1072-1096 | One step of the table-driven automaton accepts, rejects or goes on exactly as the grammar of well-formed characters says. |
| JsonWriter.CompleteCode | src/baseline/monitor.cpp:1072-1096 | The accumulated code point of a multi-byte character is never an ASCII value, so it is never escaped by mistake. |
| JsonWriter.ProgressReject | src/baseline/monitor.cpp:1106-1114 | After a reject the pending bytes are taken back and replaced once, and the byte is read again unless it stood alone. |
| RuleMerge.MergeRules | src/baseline/monitor.cpp:774-816 | One pass over the configuration gives exactly the monitored files a set, and each set is the merge of that file's rules in configuration order. |
| RuleMerge.AdmitRule | src/baseline/monitor.cpp:798-815 | A full set gives up its first weakest rule, and only to a strictly stronger one. |
| RuleMerge.KeepsStrongest | src/baseline/monitor.cpp:798-815 | What is kept is a sub-multiset of the file's rules, and no discarded rule is strictly stronger than a kept one. |
| RuleMerge.MergedSize | src/baseline/monitor.cpp:798-815 | Exactly min(n, 4) rules are kept. |
| RuleMerge.FewAreKeptWhole | src/baseline/monitor.cpp:799-800 | Four rules or fewer are all kept, in order. |
| RuleMerge.Weakest | src/baseline/monitor.cpp:803-809 | The chosen victim is no stronger than any, and the first such. |
| RuleMatch.EncodedHitsIff | bpf/event.h:23 | The stored mask answers each kind of access as configured; renames and mappings never hit. |
| RuleAnswer.EncodedIs | src/baseline/monitor.cpp:781-794 | A blocking rule is stored with action 3, any other with 1; the severity is kept, and the mask has bit 0 for reads, 1 for writes, 3 for chmod, 4 for chown, 5 for unlink and no other. |
| RuleAnswer.ConfiguredAnswer | bpf/bpf_common.h:38-66 | The configured rules that concern an access answer 3 if one of them blocks, 1 if there are some and none blocks, 0 if there are none, with the highest of their severities. |
| RuleAnswer.KernelAnswer | src/baseline/monitor.cpp:774-816 | That is what the kernel answers over the merged rules of a file with up to four. |
| RuleAnswer.OneWriteRule | src/baseline/monitor.cpp:782 | A write to a file with one write rule is answered 3 or 1, as the rule blocks or not. |
| RuleAnswer.StrongestAreKept | src/baseline/monitor.cpp:801-812 | No rule that the merge discards is stronger than one it keeps, strength being 256 times the action plus the severity. |
| RuleMatch.MatchRuleSet | bpf/bpf_common.h:37-62 | The kernel loop returns whether any kept rule hits, and the maximum action and maximum severity among the hitting ones. |
| RuleMatch.AnswerIsUnique | bpf/bpf_common.h:37-62 | That description determines the result. |
| RuleMatch.FewAnswerAlike | src/baseline/monitor.cpp:774-816 | With at most four rules the kernel answers exactly as the full list would. |
| RuleMatch.NeverAnswersMore | src/baseline/monitor.cpp:774-816 | With any number it never matches or exceeds what the full list gives. |
| RuleStrength.AnswerSurvivesIff | src/baseline/monitor.cpp:796-815 | On a file whose rules all differ in (action, severity), the kernel answers an access as the configuration would if and only if the access hits no rule, or some hitting rule of the highest action and some hitting rule of the highest severity each have fewer than four stronger rules. |
| RuleStrength.SurvivesEveryOrderIff | src/baseline/monitor.cpp:796-815 | On any file, ties included, the kernel answers an access as the configuration would in every order of the file's rules if and only if the access hits no rule, or some hitting rule of the highest action has fewer than four rules not weaker than it among those that are not such rules themselves, and the same holds for the highest severity. |
| RuleStrength.AnswerSurvivesBetween | src/baseline/monitor.cpp:796-815 | On any file it is enough that such rules have fewer than four others that are not weaker, and necessary that they have fewer than four stronger ones. |
| RuleStrength.KeptIff | src/baseline/monitor.cpp:796-815 | With all strengths different a rule is kept if and only if fewer than four rules of its file are stronger. |
| RuleStrength.FourStrongerDiscard | src/baseline/monitor.cpp:801-812 | A rule with four or more strictly stronger ones on its file is discarded, ties or not. |
| RuleStrength.FewNotWeakerKeep | src/baseline/monitor.cpp:801-812 | A rule with fewer than four others that are not weaker is kept, ties or not. |
| RuleStrength.KeptAbove | src/baseline/monitor.cpp:796-815 | Of the rules above any bar the merge keeps as many as there are, up to four. |
| RuleMatch.ActionSurvivesIfAllHit | src/baseline/monitor.cpp:801-815 | When an access hits every rule of the file the action survives the merge. |
| RuleMatch.MatchCanBeLost | src/baseline/monitor.cpp:801-815 | Five rules for which a write no longer matches at all. |
| ProcessTree.ProcessTree.constructor | src/telemetry/process_tree.hpp:44 | A new tree is empty. |
| ProcessTree.ProcessTree.Apply | src/telemetry/process_tree.cpp:167-269 | Fork, exec and exit update map, list and position index in step, and do to nodes and recency what the specification says. |
| ProcessTree.ProcessTree.Upsert | src/telemetry/process_tree.cpp:319-337 | Inserting replaces or pushes to the front, then evicts from the back until within the cap. |
| ProcessTree.ProcessTree.TouchLru | src/telemetry/process_tree.cpp:339-343 | Splicing moves the pid's cell to the front and keeps every stored position valid. |
| ProcessTree.ProcessTree.SweepTombstones | src/telemetry/process_tree.cpp:288-307 | Erases the due tombstones from all three structures and leaves the order of the rest. |
| ProcessTree.ProcessTree.FindExact | src/telemetry/process_tree.cpp:276-286 | Lookup that refuses a node of another start time. |
| ProcessTree.CutIndex | src/telemetry/process_tree.cpp:297-302 | Erasing through a stored position removes that pid's cell and no other. |
| ProcessLaws.RunsTold | src/telemetry/process_tree.cpp:167-343 | After any sequence of bootstrap loads, events and sweeps: map and list hold the same pids, each once and under its own key, at most 100000; the list is in order of last use; a node is a tombstone exactly when the last operation about its pid was an exit, and carries that exit's time. |
| ProcessLaws.StepAgrees | src/telemetry/process_tree.cpp:167-343 | Every operation keeps map and list in agreement. |
| ProcessLaws.StepPlaces | src/telemetry/process_tree.cpp:319-343 | Every operation about a pid puts its node in place and moves it to the front, known pid or new. |
| ProcessLaws.EvictsLeastRecent | src/telemetry/process_tree.cpp:330-336 | An operation about a pid leaves that pid in the tree and all other nodes as they were, except that a full tree taking in a new pid loses the one pid whose last use is longest ago. |
| ProcessLaws.SweepExactIff | src/telemetry/process_tree.cpp:288-307 | A sweep removes exactly the pids whose last operation was an exit at least 60 s ago if and only if the clock has reached 60000 ms or there is no tombstone; before that the unsigned deadline wraps and every tombstone goes. |
| ProcessLaws.EventRecorded | src/telemetry/process_tree.cpp:167-269 | What an event leaves behind for its pid: identity from forks and execs, parent kept by an exec, an exit changing only the mark and its time. |
| ProcessLaws.ForkRecorded | src/telemetry/process_tree.cpp:169-189 | After a fork the pid has a new node with the event's identity, the start time and executable of /proc, no container, and at most 15 bytes of the name. |
| ProcessLaws.ExecRecorded | src/telemetry/process_tree.cpp:216-242 | After an exec of a known pid: the old parent; the event's start time or else the old one; the executable of /proc, else the event's, else the old one; the container of /proc. |
| ProcessLaws.FirstExecRecorded | src/telemetry/process_tree.cpp:194-215 | After an exec of an unknown pid: the event's identity and start time, the executable of /proc or else the event's, the container of /proc. |
| ProcessLaws.FirstExitRecorded | src/telemetry/process_tree.cpp:250-264 | After an exit of an unknown pid: a tombstone with the event's identity and no executable or container. |
| ProcessLaws.OtherRecorded | src/telemetry/process_tree.cpp:244-249 | After an exit of a known pid: its node as a tombstone and otherwise as it was. Events of other kinds change nothing. |
| ProcessLaws.ReuseHidesOld | src/telemetry/process_tree.cpp:219-224 | After an exec that reports a start time the pid is found under that start time only, alive. |
| ProcessLaws.ReuseResetsIff | src/telemetry/process_tree.cpp:216-231 | An exec that detects a reused pid leaves the node of a new process if and only if the old parent was the new one and an executable is known or none was recorded. |
| ProcessLaws.ReuseKeepsOldParent | src/telemetry/process_tree.cpp:216-231 | Where no executable is readable, the new process shows the old one's parent and executable. |
| AncestorWalk.AncestorsOf | src/telemetry/enricher.cpp:6-48 | The walk returns the nodes along the parent chain as far as it goes on, at most eight, staying inside its nine-slot array; it stops short only at pid 0, a missing node or a repeat. |
| AncestorWalk.Seen | src/telemetry/enricher.cpp:23-29 | The repeat check searches exactly the pids visited so far. |
| AncestorWalk.LongestPrefix | src/telemetry/enricher.cpp:22-45 | No longer prefix of the chain within the bound goes on, and every shorter one does. |
| AncestorWalk.AncestorsAreParents | src/telemetry/enricher.cpp:6-48 | On any tree, cyclic or not, the returned pids are distinct, non-zero and not the event's, and each is the recorded parent of the one before. |
| AncestorWalk.AncestorsTold | src/telemetry/enricher.cpp:6-48 | Each ancestor is shown with the name and executable the tree holds for its pid; the first is the parent recorded for the event's pid, or the event's own where the tree lost it. |
| DnsName.ParseDnsQuery | bpf/net_watch.bpf.c:105-161 | The kernel walker, reading memory that may be unreadable past some point and clamping the copy, reports what the unclamped specification says. |
| DnsName.ReportedIff | bpf/net_watch.bpf.c:105-161 | A query is reported if and only if a legal name (labels of 1 to 63 octets, 255 in all, sections 2.3.4 and 3.1 of RFC 1035) of at most 31 labels and two more octets stand after the header in the first 512 readable octets; the type is those two octets and the buffer holds the whole name, never cut. |
| DnsName.WindowIs | bpf/net_watch.bpf.c:105-115 | The walker sees memory as far as it is readable, within the claimed length and 512 octets. |
| DnsName.LabelsIff | bpf/net_watch.bpf.c:113-143 | The walk finds a label list if and only if its wire form stands there within the limits. |
| DnsName.ManyLabelsRefused | bpf/net_watch.bpf.c:113-143 | A legal name standing in the window is refused if and only if it has more than 31 labels. |
| DnsName.WireUnique | bpf/net_watch.bpf.c:113-143 | At most one name stands at a position. |
| DnsName.WalkFails | bpf/net_watch.bpf.c:118-137 | Each of the walker's reasons to give up means no acceptable name stands there. |
| DnsText.DnsQnameToString | src/baseline/monitor_network.cpp:45-64 | The decoder returns the labels joined by dots, or nothing if a length octet is too large or runs past the end. |
| DnsText.NameSurvivesTransfer | src/baseline/monitor_network.cpp:105-112 | Every reported name reaches user space whole: the decoder never takes its error branch and reads back the walked labels. |
| DnsText.TextDeterminesLabels | src/baseline/monitor_network.cpp:45-64 | The text determines the labels as long as none contains a dot. |
| DnsText.DotInLabelIsLost | src/baseline/monitor_network.cpp:58-60 | A dot inside a label is not told apart from a separator. |
| DnsText.ShortTextDeterminedIff | src/baseline/monitor_network.cpp:58-60 | A text of 1 to 63 octets determines the legal name it spells if and only if it has no dot but at its ends. |
| Ulid.UlidEncode | src/storage/event_store.cpp:50-77 | The 26 characters are the symbols of the 26 five-bit groups. |
| Ulid.GroupValue | src/storage/event_store.cpp:53-60 | Each five bytes and their eight digits denote the same number: the masks and shifts lose no bit. |
| UlidOrder.DigitsKeepTheNumber | src/storage/event_store.cpp:50-77 | The 26 base-32 digits denote the same 128-bit number as the 16 bytes. |
| UlidOrder.LexIsNumeric | src/storage/event_store.cpp:50-77 | Among sequences of one length dictionary order is numeric order, in any base. |
| UlidOrder.SymbolOrder | src/storage/event_store.cpp:47 | The alphabet is ascending and has no repeated symbol. |
| UlidOrder.SymbolCode | src/storage/event_store.cpp:47 | The symbols are the digits and the upper-case letters in order, without I, L, O and U. |
| UlidOrder.HandedInOrder | src/storage/event_store.cpp:96-110 | What one more successful call hands out comes last; nothing is handed out after a failure. |
| UlidOrder.TextOrderIsTimeThenRandom | src/storage/event_store.cpp:50-95 | Ids compare as texts the way their 48-bit times compare, then their random parts; equal texts mean equal bytes. |
| UlidOrder.GenerateUlid | src/storage/event_store.cpp:81-109 | The id encodes sixteen bytes: the time modulo 2^48, then the first ten bytes handed out over however many calls, each byte never handed out replaced by the one mixed for its place. |
| UlidOrder.FillRandom | src/storage/event_store.cpp:95-104 | The loop over short reads places the handed-out bytes in order, without gap or overlap, and leaves the time alone. |
| UlidOrder.LaterSortsAfter | src/storage/event_store.cpp:81-95 | An id made in a later millisecond sorts after, as long as times fit 48 bits. |

## Left out

- EventBusSteps.RunsKeepInv: interleavings are sequentially consistent and positions unbounded; memory orderings and 64-bit wrap-around are not modelled, nor is overflow of the doubling loop for requests above half the address range.
- MpscQueue.Ring.TryPush: one thread at a time, so the compare-and-swap succeeds; contention is in the step model.
- NotifyLedger.SpacingHolds: across a reload no spacing is claimed, since the window length may change.
- SnapshotTransaction.BaselineDb.ApplySnapshot: atomicity is stated for the failures the code looks at; a failing read step is not among them and is the subject of `SnapshotRead`. ROLLBACK is taken to succeed, and no other connection writes between the read and BEGIN.
- RuleStrength.SurvivesEveryOrderIff: with ties the condition is exact for all orders of the file's rules together; for one given order the exact condition is `RuleMatch.AnswerKeptIff`, in terms of what was discarded.
- DnsText.ShortTextDeterminedIff: for texts too long for one label, which splits are legal depends on the distances between all dots; only the sufficient condition of `DnsText.TextDeterminesLabels` is stated.
- NotifyWorker.NoWakeupIsLost: shutdown, which notifies all, is not modelled; nor is how soon a notified worker gets the lock.
- UlidOrder.GenerateUlid: the bytes that replace missing randomness are an argument; nothing is said about how random any of them are.
- DnsName.ParseDnsQuery: user memory does not change between the probes and the final copy.
- EventBusLedger.Ledger: counting the outcome of a call is one step with its return.
- Strict priority of the high queue over the low one: the consumer drains the low queue once it has started on it, so it does not hold for single events.
- Linearisable "empty" answers of `try_pop`: it may report empty while a later position is published.
- Latency statistics, event batching counters, alert throttling, watermark levels and `ParseSinceSpec`: easy.
- Error message texts and token offsets of the condition parser: reasons are an enumeration.
- Character classes of the lexer are those of the "C" locale; overflow of `std::stoll` is a reason of its own.
- Whitelist matcher cache and `cached_ancestors_of`: stale answers are accepted by their design.
- `DeleteBaselineEntries` and the list and retention queries: their meaning rests on SQL text matching.
- `std::filesystem::path::parent_path`: a parameter of the snapshot request; the results hold for any function in its place.
- `/proc` reads, clocks, random bytes, SQLite, curl, BPF loading and the ring buffers: arguments or arbitrary outcomes.
- Iteration order of unordered maps: arbitrary, and the dispatcher's results hold for every order; ordered maps are walked in byte order of their keys.
- Alert fields that neither routing, silencing nor digests look at, and log lines.
- Asset collectors, command-line and configuration parsing, HTML and console output, and the vendored logging library.
