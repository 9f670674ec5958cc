# Debate arena: graph store and heuristic analyser in Dafny

The debate arena lets users build a directed graph of debate arguments and
ask for an automated strength and fallacy analysis of each one. An argument
is a claim, evidence, a counter or a question. Arguments are connected by
typed relations: supports, refutes, questions and assumes. This project models
the two parts of the program that hold real logic, and proves properties about
them.

- **The graph store** (`lib/store.ts`). It holds two maps, arguments by id and
  relations by id, and has four mutations: `addArgument`, `addRelation`,
  `updateArgument` and `deleteArgument`. Deleting an argument also deletes
  every relation that touches it. `Store.DebateStore` is a class with the two
  maps as fields. Its methods are specified against pure map functions
  (`Updated`, `Detached`). The lemmas about those functions give frame
  conditions, referential integrity (`Linked`), idempotence of deletion and
  the vote round trip.
- **The heuristic analyser** (`mockAnalyzeArgument` in `lib/utils.ts`). It
  tests the lower-cased text for keywords. From those tests it builds an
  ordered list of fallacies, a score clamped to [0, 100], and feedback made
  of fixed sentences. `Analyzer.Analyze` states the result declaratively.
  `Analyzer.MockAnalyzeArgument`, `Analyzer.ScoreArgument` and
  `Analyzer.ComposeFeedback` follow the
  program's steps (running score, pushes, appends, final trim) and are proved
  equal to it. Lemmas give the score range, the fallacy order, when each
  fallacy and sentence appears, and case-insensitivity.
- **The interface's calls into the store** (`Arena`). These are
  `handleAddArgument` (trims the text and drops blank input), `onConnect` and
  `handleVote`, which sends the displayed vote count plus the increment (±1)
  as the new `votes` field. That moves the stored count by exactly ±1 only
  when the displayed count is current.

The modules are `Types` (the closed enums of `lib/types.ts`), `Text`
(JavaScript's `trim`, `includes`, `join` and `length`, plus ASCII case mapping),
`Store`, `Analyzer` and `Arena`.

Some facts about the code that the model keeps:
- The store validates nothing. Content is not checked, relation endpoints are
  not checked, and an absent id makes `updateArgument` do nothing without an
  error.
- Voting is an ordinary `updateArgument` call, not a store operation.

## Model

| member | source | states |
|---|---|---|
| `Store.DebateStore.constructor` | lib/store.ts:32-42 | the store starts with the single seed claim "1" by "User" with 0 votes, and no relations; it is referentially intact |
| `Store.DebateStore.AddArgument` | lib/store.ts:44-61 | files `{id, type, content, author: "User", createdAt, votes: 0}` under the returned id "arg_"+stamp. Other arguments and all relations are unchanged. The map grows by one when the id is new. Integrity is kept |
| `Store.DebateStore.AddRelation` | lib/store.ts:63-69 | files `{id, source, target, type}` under "rel_"+stamp and leaves the arguments untouched. Endpoints are not checked and self-loops are accepted. An intact store stays intact iff both endpoints exist |
| `Store.DebateStore.UpdateArgument` | lib/store.ts:71-76 | an absent id changes nothing. A present id has its record merged with the patch; all other records, the key set and the relations stay the same |
| `Store.DebateStore.DeleteArgument` | lib/store.ts:78-87 | the loop over relation keys leaves exactly the arguments minus `id` and the relations that do not touch `id`; integrity is preserved |
| `Store.Updated` | lib/store.ts:71-76 | the key set never changes (even if the patch carries another `id`); other entries are kept; an absent id is a no-op |
| `Store.MergeFacts` | lib/store.ts:74 | `Object.assign` with an empty patch is the identity; applying a patch twice is applying it once; on each of the six fields a later patch wins when it supplies the field, and the earlier value is kept when it leaves it out |
| `Store.IdsFromStamps` | lib/store.ts:47-67 | ids built from distinct stamps differ, and an argument id never equals a relation id |
| `Store.DeleteCascades` | lib/store.ts:78-87 | after deletion `id` is gone; no relation touches it; a relation is kept iff it does not touch `id`; everything kept is unchanged |
| `Store.DeleteKeepsLinked` | lib/store.ts:78-87 | if every relation endpoint is an argument before deletion, the same holds after |
| `Store.DeleteIdempotent` | lib/store.ts:78-87 | deleting the same argument twice has the effect of deleting it once |
| `Store.InsertArgumentKeepsLinked` | lib/store.ts:51-58 | adding an argument keeps referential integrity |
| `Store.InsertRelationLinkedIff` | lib/store.ts:63-69 | adding a relation keeps integrity exactly when both endpoints are arguments |
| `Store.UpdateKeepsLinked` | lib/store.ts:71-76 | updating an argument keeps integrity whatever the patch |
| `Store.EdgeIdsDistinct` | components/DebateArena.tsx:56-57 | in a valid store, the edges drawn with the relation ids share an id only when they are the same relation |
| `Store.VoteRoundTrip` | components/ArgumentNode.tsx:43-45 | the vote update +1 followed by −1 on the refreshed count restores the argument map exactly |
| `Arena.HandleVote` | components/ArgumentNode.tsx:43-45 | a vote is `updateArgument(id, {votes: shown + increment})`: only that argument's `votes` changes |
| `Arena.VoteUpThenDown` | components/ArgumentNode.tsx:43-45 | clicking up then down leaves both maps of the store as they were |
| `Arena.Submission` | components/DebateArena.tsx:93-98 | blank input (whitespace only) submits nothing; otherwise the submitted text is non-empty with no whitespace at either end |
| `Arena.HandleAddArgument` | components/DebateArena.tsx:93-98 | the form adds the trimmed text as a new argument, does nothing for blank text, and never stores empty content |
| `Arena.HandleConnect` | components/DebateArena.tsx:84-91 | a connection with both ends given becomes one relation of the selected kind; otherwise nothing changes |
| `Text.Trim` | components/DebateArena.tsx:94-95 | `trim()` leaves no ECMAScript whitespace at either end, and is empty iff the text is whitespace only |
| `Text.ContainsIff` | lib/utils.ts:9-21 | `includes` holds exactly when the word occurs at some index |
| `Text.Utf16Length` | lib/utils.ts:32-36 | `length` counts UTF-16 code units: between the number of characters and twice that, and equal to it for BMP-only text |
| `Text.LowerAsciiFacts` | lib/utils.ts:7 | lowering keeps the length, is idempotent, undoes upper-casing, and keeps every non-letter such as `?` |
| `Analyzer.Analyze` | lib/utils.ts:3-60 | strength always lies in [15, 100] and at most three fallacies are reported |
| `Analyzer.MockAnalyzeArgument` | lib/utils.ts:3-60 | the scoring pass followed by the feedback assembly returns exactly `Analyze` |
| `Analyzer.ScoreArgument` | lib/utils.ts:4-38 | the running score, adjusted test by test and clamped, is the clamped additive score, and the pushed fallacies are the detected ones in order |
| `Analyzer.ComposeFeedback` | lib/utils.ts:40-59 | the sentences appended with trailing blanks and then trimmed give the sentences joined by single blanks |
| `Analyzer.TrimmedDraft` | lib/utils.ts:40-59 | trimming the assembled text removes only the final blank, and removes nothing when the citation sentence ends it |
| `Analyzer.StrengthRange` | lib/utils.ts:5-38 | the unclamped score is 70 plus the adjustments and lies in [15, 105], so the strength is min(100, score) and the lower clamp never applies |
| `Analyzer.FallaciesInOrder` | lib/utils.ts:4-26 | the fallacies are a subsequence of [Hasty Generalization, Appeal to Authority, Begging the Question] with no repeats |
| `Analyzer.FlaggedInOrder` | lib/utils.ts:9-26 | whichever of the three tests fire, the pushed names form a subsequence of the fixed order with no repeats |
| `Analyzer.FallacyTriggers` | lib/utils.ts:9-26 | each fallacy appears iff its test fires; Begging the Question appears iff the text has `?` and the type is not question |
| `Analyzer.FeedbackTier` | lib/utils.ts:40-47 | the feedback starts with "Strong…" iff strength ≥ 75, "Decent…" iff 50 ≤ strength < 75, "Weak…" iff strength < 50 |
| `Analyzer.FeedbackNamesFallacies` | lib/utils.ts:49-53 | the second sentence is "Contains logical fallacies: " plus the names joined by ", " when there are fallacies, and "No obvious logical fallacies detected." iff there are none |
| `Analyzer.CitationAdvice` | lib/utils.ts:55-57 | the feedback ends with the citation advice iff the type is evidence and the lowered text has no digit, "research", "study" or "data" |
| `Analyzer.FeedbackTrimmed` | lib/utils.ts:59 | the feedback is non-empty, has no trailing whitespace, and trimming it changes nothing |
| `Analyzer.CaseInsensitive` | lib/utils.ts:7-36 | the lower-cased or upper-cased (ASCII) variant of a text gets exactly the same analysis |

## Left out

- Rendering, layout, styling and drag handling in `components/BasicGraph.tsx`,
  `components/DebateArena.tsx` and `components/ArgumentNode.tsx` are not
  modelled. Only the calls those components make into the store are.
- `app/api/analyze/route.ts` is not modelled. It is an HTTP handler that calls
  a hosted language model over the network and reads environment variables.
- No analysis orchestration or per-argument analysis state is modelled,
  because none exists in these files. The `aiAnalysis` and `isAnalyzing`
  fields declared in `lib/types.ts:12-18` are never set. The store's own
  record type (`lib/store.ts:5-12`) does not have them.
- `Date.now()` and `Math.random()` are replaced by parameters. The `stamp`
  parameter stands for the whole `${Date.now()}_${random}` part of an id,
  clock included, and the creation time becomes `createdAt`. The code does
  not guarantee fresh ids. When a stamp repeats, the model overwrites the old
  entry, as the code would.
- The Zustand/Immer state container is not modelled. Each `set` callback is
  one method of the store class. Subscriptions and re-rendering are not
  modelled.
- `toLowerCase` is modelled for the ASCII letters only. For the keyword
  tests this loses nothing. Every other character that lowers to an ASCII
  letter is either U+212A (the Kelvin sign, which becomes `k`, a letter in no
  keyword) or U+0130, which becomes `i` followed by U+0307. No keyword
  contains an `i` followed by that mark, so U+0130 can never complete one.
  Full Unicode case mapping is still not modelled as a string function. The
  same applies to `Text.UpperAscii`, which the case-insensitivity lemma uses.
- The regular-expression engine is not modelled. The two patterns are encoded
  as explicit predicates: a digit followed by `%` or by " percent", a digit
  anywhere, and the listed words.
- An update patch that sets a field explicitly to `undefined` is not
  modelled. A patch field is either supplied with a value or left out.
- Arena.VoteUpThenDown: where the displayed vote count comes from is not
  modelled. `Arena.HandleVote` takes any count, so a stale count can be
  passed to it. Only `Arena.VoteUpThenDown` assumes that the display shows
  the store's current count.
- `votes` and `createdAt` are JavaScript numbers (doubles), exact only up to
  2^53. The model uses unbounded integers, so rounding beyond that is not
  modelled.
- A JavaScript string can hold a lone UTF-16 surrogate, which a Dafny `char`
  cannot. Such strings are not modelled. `Text.Utf16Length` counts each
  character outside the Basic Multilingual Plane as a surrogate pair.
- Clearing the input box after submission (`setNewArgContent("")`) is
  interface state and is not modelled.
