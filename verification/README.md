# Per-participant trial plan, modelled in Dafny

The survey in `app.js` runs in the browser. It turns a stimulus table and a
participant id into a reproducible experiment. This project models the
plan-generation core of that script and proves properties of the model:

- the 53-bit string hash `cyrb53`;
- the hash-driven Fisher–Yates shuffle `seededShuffle`;
- the variant selector `chooseVariantForParticipant`;
- the flag parser `interpretBoolean`;
- the table partitioner `prepareExperimentPlan`;
- the masked-label assignment `assignMethodMasks`;
- the per-participant plan `prepareParticipantTimeline`;
- the attention configuration `buildAttentionConfig` and `mapAttentionStimulus`;
- the interleaving of attention checks among identity blocks in
  `buildMainTimelineForParticipant`;
- at the edges, the CSV loader (`parseCsv`, `splitCsvLine`), the CSV export
  (`toCsv`, `csvEscape`) and `sanitizeForHtml`.

Every operation is a pure function over immutable datatypes. A JavaScript
string is a `string` (`seq<char>`). A stimulus row is a `map<string, string>`,
where a missing key reads as the empty string in `||` chains. An object whose
key order matters is a sequence of buckets ordered by property order, which
puts integer-like keys first in ascending order and then the other keys in
insertion order. The two loops that matter for the proofs also exist as
methods, with loop invariants tying them to the functional definitions:
`Shuffle.FisherYatesLoop` and `Timeline.InterleaveLoop`.

Modules, one per file:

| module | file | models |
|---|---|---|
| `Seqs` | seqs.dfy | generic sequence helpers (filter, map, distinct, flatten) |
| `JsString` | js_string.dfy | `trim`, ASCII `toLowerCase`, `String(value)`, `join` |
| `Rows` | rows.dfy | field access with `||` defaults, property keys |
| `PropertyOrder` | property_order.dfy | the order of `Object.keys` |
| `Buckets` | buckets.dfy | insertion-ordered `Map`/object of arrays |
| `Hash` | hash.dfy | `cyrb53` with `Math.imul` and 32-bit wrap-around |
| `Shuffle` | shuffle.dfy | `seededShuffle` |
| `Variant` | variant.dfy | `chooseVariantForParticipant` |
| `Partition` | partition.dfy | `prepareExperimentPlan` |
| `Masks` | masks.dfy | `METHOD_LABELS`, `assignMethodMasks` |
| `Attention` | attention.dfy | `interpretBoolean`, `mapAttentionStimulus`, `buildAttentionConfig`, `getDefaultObviousPair` |
| `ParticipantPlan` | participant_plan.dfy | `prepareParticipantTimeline`, `getDefaultPracticeStimuli` |
| `Timeline` | timeline.dfy | `buildMainTimelineForParticipant` and its check interleaving |
| `Csv` | csv.dfy | `parseCsv`, `splitCsvLine` |
| `CsvExport` | csv_export.dfy | `csvEscape`, `toCsv` |
| `Html` | html.dfy | `sanitizeForHtml` |

Two behaviours of the code that are easy to miss:

- A table that has training rows but no training row with an `image_url`
  gives an empty practice list. The built-in placeholders are used only when
  there are no training rows at all (`ParticipantPlan.TrainingStimuliCases`).
- The kind of a row does not depend on the other rows. The key of an
  obvious-pair row without a group or identity does, because it is
  `obvious_<number of groups so far>` (`Partition.ObviousKey`).

## Model

| member | source | states |
|---|---|---|
| Hash.Cyrb53 | app.js:130 | the hash of any string is below 2^53: 21 bits of one accumulator above the 32 bits of the other |
| Hash.CodeUnits | app.js:120 | the string is read as UTF-16 code units; a string inside the basic plane gives one unit per character, with the same value |
| Hash.KnownAnswerA | app.js:116-131 | `cyrb53("a")` is 7929297801672961 |
| Hash.KnownAnswerB | app.js:116-131 | `cyrb53("b")` is 8684336938537663 |
| Hash.KnownAnswerRevenge | app.js:116-131 | `cyrb53("revenge")` is 4051478007546757 |
| Hash.Cyrb53Loop | app.js:116-131 | the source's loop, which updates both accumulators in place for each code unit, computes the recursive definition, and the result stays below 2^53 |
| Hash.KnownAnswerRevenue | app.js:116-131 | `cyrb53("revenue")` is 8309097637345594: two words that differ in one letter get different hashes |
| Shuffle.Swap | app.js:109-111 | the swap exchanges positions i and j and leaves every other position alone |
| Shuffle.SwapPermutes | app.js:109-111 | a swap keeps the multiset of elements |
| Shuffle.SwapPartner | app.js:108 | the partner index `seed % (i + 1)` never exceeds i |
| Shuffle.ShuffleFrom | app.js:106-112 | the swaps from index i down to 1 keep the length; the permutation is stated by Shuffle.ShuffleFromPermutes |
| Shuffle.ShuffleFromPermutes | app.js:106-112 | the loop from index i down to 1 only permutes the list |
| Shuffle.SeededShuffle | app.js:100-114 | the result has the same length and the same multiset as the input; a list of length at most one is returned unchanged |
| Shuffle.FisherYatesLoop | app.js:105-112 | the imperative loop, which swaps in place, computes the recursive definition |
| Shuffle.SeededShuffleLoop | app.js:100-114 | the whole function, written with the loop, equals `SeededShuffle` and permutes its input |
| Shuffle.ShuffleKeepsDistinctBy | app.js:100-114 | elements that are distinct under some projection stay distinct after the shuffle |
| Shuffle.ShuffleSameElements | app.js:100-114 | an element is in the shuffled list exactly when it is in the input |
| Variant.ChooseVariant | app.js:133-143 | no variant for an empty list; the only variant for a one-element list; otherwise always a member of the list |
| Variant.ChooseVariantByHash | app.js:133-143 | a non-empty list yields the element at the hash of participant, identity and method, joined by vertical bars, modulo the length |
| JsString.TrimSpec | app.js:96 | `trim` gives a trimmed text that occurs inside the input |
| JsString.TrimStartSpec | app.js:96 | the leading part removed is all whitespace, and the result starts with a non-blank character or is empty |
| JsString.TrimEndSpec | app.js:96 | the same at the end |
| JsString.TrimOfPadded | app.js:96 | a trimmed text padded with whitespace on both sides trims back to itself |
| JsString.TrimIdempotent | app.js:96 | trimming twice is trimming once |
| JsString.Lower | app.js:96 | lower-casing keeps the length and maps each character through the ASCII lower-case table |
| JsString.DecimalRoundTrip | app.js:96 | `String(n)` for an integer is a canonical decimal that reads back as n |
| JsString.CanonicalDecimalRoundTrip | app.js:96 | every canonical decimal is `String` of its value |
| JsString.IntToDecimal | app.js:96 | the text of a negative integer is a minus sign before the text of its magnitude |
| JsString.IntToDecimalIsOne | app.js:96-97 | the text of an integer is `"1"` exactly when the integer is 1 |
| JsString.Or | app.js:245-249 | `a \|\| b` on strings is a when a is non-empty and b otherwise |
| Attention.InterpretBoolean | app.js:89-98 | booleans pass through; null and undefined are false; a string is true exactly when its trimmed, lower-cased text is one of 1, true, yes, y |
| Attention.InterpretBooleanPadded | app.js:96-97 | a truthy word in any letter case, padded with whitespace, is true |
| Attention.InterpretBooleanInt | app.js:96-97 | a number is true exactly when it is 1 |
| Rows.FieldValue | app.js:454-456 | a field is `undefined` exactly when the row lacks the key |
| Rows.Lookup | app.js:332 | `obj[key] \|\| fallback` gives the stored value when it is non-empty and the fallback otherwise |
| Rows.PropertyKey | app.js:363 | an `undefined` property key is the text `"undefined"` |
| Partition.Classify | app.js:245-276 | the kind of a row by the tests in source order: attention type, then phase, then identity and method; its meaning is stated by Partition.KindsSplitRows and Partition.MainRowFields (no contract of its own) |
| Partition.AddRow | app.js:250-276 | the body of the `forEach` callback: the row goes to the part of its kind (no contract of its own; Partition.PartitionComplete and the rows below state the effect over a whole table) |
| Partition.PrepareExperimentPlan | app.js:235-287 | the callback folded over the rows in table order (no contract of its own; stated by Partition.PartitionComplete, Partition.IdentitiesAreGrouping, Partition.MethodNamesAreDistinct, Partition.InstructionalAndTrainingRows and Partition.ObviousGroups) |
| Partition.ObviousKey | app.js:256-259 | the key of an obvious-pair row is its group, else its identity, else a fallback `obvious_<n>` key, and never empty |
| Partition.MainRowFields | app.js:270 | a row filed under an identity has a non-empty identity and method |
| Partition.InstructionalAndTrainingRows | app.js:244-277 | the instructional and training lists are the input rows of those kinds, in table order |
| Partition.IdentitiesAreGrouping | app.js:270-284 | the identities are the main rows grouped by identity id |
| Partition.MethodNamesAreDistinct | app.js:270-280 | the method names are the distinct methods of the main rows |
| Partition.IdentityIds | app.js:272-284 | identity ids appear in first-seen order and are never empty |
| Partition.IdentityEntries | app.js:270-284 | each identity holds exactly the main rows with its id, in table order, and at least one |
| Partition.MethodNames | app.js:270-280 | method names appear in first-seen order and are never empty |
| Partition.ObviousGroups | app.js:255-265 | every obvious-pair group is non-empty, holds only obvious-pair rows, and each row sits under its own key |
| Partition.GroupedRowsAreObviousRows | app.js:255-265 | the groups hold exactly the obvious-pair rows, as a multiset |
| Partition.IdentityRowsAreMainRows | app.js:270-276 | the identities hold exactly the main rows, as a multiset |
| Partition.KindsSplitRows | app.js:251-276 | every row is exactly one of instructional, obvious pair, training, main or dropped |
| Partition.PartitionComplete | app.js:235-287 | the five outputs together hold every input row exactly once, and each holds only rows of its kind |
| Masks.MethodLabelsDistinct | app.js:5 | the eight labels are distinct and non-empty |
| Masks.AvailableLabels | app.js:293 | the alphabet is the first max(n, 4) labels, capped at the eight that exist |
| Masks.ShuffledLabels | app.js:293-294 | the shuffled alphabet has the same labels, distinct and non-empty |
| Masks.MaskAt | app.js:297 | `shuffled[i] \|\| shuffled[i % length]` is always one of the shuffled labels |
| Masks.MaskAtIsModular | app.js:297 | with non-empty labels, that expression is `shuffled[i % length]` |
| Masks.AssignMethodMasks | app.js:289-300 | every method, and nothing else, gets a mask from the alphabet; no methods give an empty map |
| Masks.AssignFrom | app.js:296-298 | the `forEach` that fills the mask map gives a key to every method name and to nothing else |
| Masks.AssignFromAt | app.js:296-298 | with distinct method names, method i gets the mask computed at index i |
| Masks.MaskOfMethod | app.js:289-300 | method i gets `shuffled[i % length]` |
| Masks.MasksDistinct | app.js:289-300 | with at most eight distinct methods, no two methods share a mask |
| Masks.MasksRepeatAfterEight | app.js:289-300 | with more than eight methods, method i + 8 gets the same mask as method i |
| Attention.MapAttentionStimulus | app.js:466-476 | the stimulus keeps its row, image and variant; the thumbnail is the row's own when it has one and the image otherwise; the true method is the row's method or `Unknown` when that is empty; the mask is the method's non-empty mask or `—` |
| Attention.DefaultObviousPair | app.js:515-546 | the built-in pair has two different non-empty images, non-empty masks, and `left` as the correct side |
| Attention.ChooseKey | app.js:429-438 | a chosen group key names a group with at least two rows |
| Attention.ChosenKeyIsFirstQualifying | app.js:430-438 | the chosen key is the first key in property order whose group qualifies |
| Attention.ChooseKeyNone | app.js:429-438 | no group is chosen exactly when every group has fewer than two rows |
| Attention.ChosenKeyPrefersIndices | app.js:430-438 | when a qualifying group has an integer-like key, the chosen key is integer-like too, because such keys come first |
| Attention.ChooseGroup | app.js:429-438 | a chosen group has at least two rows |
| Attention.PairFromGroup | app.js:439-459 | the pair from the first two rows of the group shuffled with the key `pid` + `\|attention_pair` (no contract of its own; stated by Attention.PairFromGroupRows and Attention.PairOfCorrect) |
| Attention.BuildAttentionConfig | app.js:410-464 | both checks are always present: the instructional prompt and the pair prompt are non-empty and both sides of the pair carry a mask; the choice of pair is stated by Attention.PlanPair |
| Attention.PairOf | app.js:444-459 | the pair shows the first row on the left and the second on the right, with a non-empty prompt and identity |
| Attention.PairOfCorrect | app.js:454-458 | the correct side is `right` exactly when the first row's flag is false and the second row's flag is true |
| Attention.PairFromGroupRows | app.js:439-459 | the two rows shown are two different entries of the chosen group |
| Attention.InstructionalPrompt | app.js:416-427 | the instructional prompt is never empty; it is the first instructional row's prompt when it has one, and the default when there are no instructional rows |
| Attention.DefaultPairWhenNoGroup | app.js:460-462 | without a qualifying group, the built-in pair is used |
| Attention.PlanPair | app.js:255-265 | on the groups the partitioner builds, no group of two rows gives the built-in pair, and otherwise the pair comes from the chosen group; the distinct keys the other lemmas need hold there |
| Attention.GroupPairWhenGroup | app.js:439-459 | with a qualifying group, the pair is built from the chosen group |
| ParticipantPlan.MethodTrial | app.js:318-338 | a trial carries its method, identity and chosen row; it has an image; its mask is the method's mask when that is non-empty, and `?` otherwise |
| ParticipantPlan.MethodTrialPresent | app.js:318-338 | a method whose rows all have images always yields a trial |
| ParticipantPlan.MethodGroupsDistinct | app.js:305-316 | the per-identity method groups have distinct method names |
| ParticipantPlan.MethodGroupsRows | app.js:305-316 | each method group is non-empty and holds only usable rows of its method |
| ParticipantPlan.MethodTrialsDistinct | app.js:317-339 | no two trials of an identity share a true method |
| ParticipantPlan.MethodTrialsRows | app.js:317-339 | every trial shows a usable row of its identity |
| ParticipantPlan.IdentityBlockOf | app.js:303-353 | a block has at least one trial and is a permutation of the method trials |
| ParticipantPlan.IdentityBlockTrials | app.js:317-352 | a block's trials have distinct methods and each shows a usable row of the identity |
| ParticipantPlan.IdentityBlockPresent | app.js:340-342 | an identity gets a block exactly when one of its rows has both a method and an image |
| ParticipantPlan.IdentityStimuli | app.js:303-354 | one block per identity that yields a trial, in identity order (no contract of its own; stated by ParticipantPlan.IdentityStimuliShape and ParticipantPlan.IdentityStimuliComplete) |
| ParticipantPlan.IdentityStimuliShape | app.js:303-354 | every block is non-empty and belongs to a table identity; with distinct identity ids the blocks have distinct ids |
| ParticipantPlan.IdentityStimuliComplete | app.js:303-354 | an identity with a usable row always appears among the blocks |
| ParticipantPlan.TrainingTrial | app.js:359-369 | a training trial keeps its row and image and falls back to numbered `practice_N`, `Practice N` and non-empty labels |
| ParticipantPlan.TrainingFromRows | app.js:357-369 | the training trials are the rows with an image, in table order |
| ParticipantPlan.DefaultPracticeStimuli | app.js:478-513 | the placeholders are two trials with images, the clean reference, and different methods |
| ParticipantPlan.TrainingStimuliCases | app.js:356-370 | no training rows give the placeholders; otherwise one trial per row with an image, and none when no row has one |
| ParticipantPlan.TrainingFallbackIdsDistinct | app.js:360 | two training rows without identity at different positions get different fallback ids |
| ParticipantPlan.TrainingMaskOfMissingMethod | app.js:363 | a training row without a method is masked by the map's `"undefined"` entry, else by `Demo N` |
| ParticipantPlan.PreloadImages | app.js:374-406 | the insertion-ordered set of non-empty images (no contract of its own; stated by ParticipantPlan.PreloadImagesSpec) |
| ParticipantPlan.PrepareParticipantTimeline | app.js:302-408 | the blocks, training trials, attention configuration and preload list (no contract of its own; stated by ParticipantPlan.PreloadCoversTimeline, ParticipantPlan.TrainingStimuliCases and the block rows above) |
| ParticipantPlan.PreloadImagesSpec | app.js:374-406 | the preload list holds each non-empty candidate image once, in first-seen order, and nothing else |
| ParticipantPlan.TrialImagesAreCandidates | app.js:375-392 | every identity and training trial's image and thumbnail is a preload candidate |
| ParticipantPlan.PreloadCoversTimeline | app.js:302-408 | every image the plan shows is preloaded, and no preload entry is empty |
| ParticipantPlan.BlockImagesNonEmpty | app.js:306-338 | every identity trial has a non-empty image, taken from its row |
| Timeline.Interleave | app.js:690-708 | the `forEach` over the blocks with the check queue (no contract of its own; stated by the Timeline rows below) |
| Timeline.InterleaveIsReference | app.js:686-708 | the `forEach` with its queue equals a direct definition: block 0, then check 1, blocks up to `floor(n/2)`, then check 2, the other blocks, then the rest of the queue |
| Timeline.InterleaveLoop | app.js:686-708 | the imperative loop computes that reference |
| Timeline.InterleaveChecks | app.js:686-708 | every check appears exactly once, in queue order |
| Timeline.InterleaveBlocks | app.js:686-708 | the blocks appear in order and intact |
| Timeline.InterleaveFirstCheck | app.js:692-695 | the first check follows block 0 |
| Timeline.InterleaveSecondCheck | app.js:696-701 | the second check follows block `floor(n/2)` |
| Timeline.InterleaveFewBlocks | app.js:690-708 | with one block both checks follow it; with none the checks follow each other |
| Timeline.InterleaveTwoChecksPlaced | app.js:692-705 | with two checks and at least two blocks, no check is left for the end of the queue |
| Timeline.MainTimeline | app.js:655-715 | preload, training, comprehension check, the interleaved blocks and checks, then the closing trials (no contract of its own; stated by Timeline.MainTimelineAttention and Timeline.MainTimelineIdentities) |
| Timeline.MainTimelineAttention | app.js:655-715 | the main timeline holds the two attention trials once each, instructional first |
| Timeline.MainTimelineIdentities | app.js:655-715 | the main timeline holds every identity block once, in order |
| Csv.SplitCsvLine | app.js:209-233 | a line always gives at least one cell, because the last cell is pushed after the loop; the cells are stated by Csv.SplitCsvLineTrimmed, Csv.SplitPlainLine and Csv.EmptyQuotedFieldLine |
| Csv.SplitCsvLineTrimmed | app.js:224-232 | every cell comes out trimmed |
| Csv.SplitPlainLine | app.js:209-233 | a line without quotes splits at every comma into the trimmed pieces |
| Csv.EmptyQuotedFieldLine | app.js:213-216 | an empty quoted field between plain fields reads as one quote character |
| Csv.EmptyQuotedFieldLineStrict | app.js:209-233 | with doubled quotes honoured only inside quotes, that field reads as empty |
| Csv.StripBom | app.js:156 | a leading byte-order mark is removed, and nothing else |
| Csv.ReplaceCr | app.js:163 | every carriage return becomes a newline and every other character is kept |
| Csv.NormalizeNewlines | app.js:163 | the normalised text holds no carriage return; that each CRLF pair and each lone carriage return becomes one newline is stated by Csv.NormalizeIsOnePass |
| Csv.NormalizeIsOnePass | app.js:163 | the two global replacements equal one left-to-right pass that turns CRLF and CR into LF |
| Csv.NormalizeWithoutCr | app.js:163 | text without carriage returns is left alone |
| Csv.SplitLinesOfPlainLines | app.js:164-187 | a newline outside quotes ends a line: lines without quotes or newlines, joined by newlines, are cut back into exactly those lines when the last is non-empty |
| Csv.SplitLinesQuotedNewline | app.js:164-187 | a newline between an opening and a closing quote does not end the line: a line with one quoted stretch holding newlines, then a newline and a plain line, is cut into those two lines |
| Csv.SplitLinesRejoin | app.js:164-187 | joining the split lines with newlines gives the text back, up to one final newline |
| Csv.MakeRecord | app.js:200-203 | a record has exactly the header names as keys |
| Csv.MakeRecordAt | app.js:201-203 | a header takes the cell at its last position, or the empty text when the line is short |
| Csv.DataRecords | app.js:195-205 | one record per data line, built from that line's cells |
| Csv.DataRecordsTrimmed | app.js:195-205 | every value of a parsed record is trimmed |
| Csv.ParseCsv | app.js:154-207 | strip the byte-order mark, split into lines, read the header line and one record per non-blank later line (no contract of its own; stated by Csv.ParseCsvBlank, Csv.DataRecords and Csv.DataRecordsTrimmed) |
| Csv.ParseCsvBlank | app.js:156-159 | a blank text, after the byte-order mark, has no records |
| CsvExport.EscapeText | app.js:1724-1728 | text that needs quoting comes out between quotes; other text comes out unchanged |
| CsvExport.CsvEscape | app.js:1721-1723 | null and undefined become the empty cell |
| CsvExport.PlainNumbersUnquoted | app.js:1724-1728 | booleans and integers are never quoted |
| CsvExport.QuotedReadsAsStrict | app.js:1726 | a quoted cell read with doubled quotes honoured only inside quotes gives its text back |
| CsvExport.QuotedReadsAsWritten | app.js:1726 | the loader's splitter reads a quoted cell back unchanged unless the text is all quotes, which gains one |
| CsvExport.EscapedLineStrict | app.js:1714-1715 | a line of escaped trimmed cells splits back into the cells |
| CsvExport.EscapedLineAsWritten | app.js:1714-1715 | the loader's splitter does the same when no cell is made only of quotes |
| CsvExport.MisreadCell | app.js:1726 | a cell made only of quotes is read back by the loader with one quote too many |
| CsvExport.FieldOf | app.js:1714 | a missing field reads as `undefined` |
| CsvExport.RowTexts | app.js:1714 | each row yields one cell text per header, in header order |
| CsvExport.RowLine | app.js:1714-1715 | a row line is the escaped cell texts joined with commas |
| CsvExport.RowLines | app.js:1713-1716 | one line per row |
| CsvExport.ToCsv | app.js:1709-1711 | no headers give the empty text |
| CsvExport.ToCsvReadsBack | app.js:1704-1718 | the export is the header line and one line per row joined with CRLF; a row line whose texts are trimmed splits back into those texts under the corrected splitter, which honours doubled quotes only inside quotes |
| CsvExport.ToCsvReadsBackAsWritten | app.js:1713-1716 | the loader's own splitter reads a row line back as the row's texts when they are trimmed and none is made only of quotes |
| CsvExport.HeaderLineReadsBack | app.js:1706-1712 | headers without quotes or commas read back from the header line |
| CsvExport.FirstRowWithoutKeys | app.js:1706-1711 | a first row without keys gives the empty export, whatever the header keys |
| Html.SanitizeForHtml | app.js:80-81 | null and undefined become the empty text |
| Html.SanitizeText | app.js:82-86 | the five global replacements in source order (no contract of its own; stated by the Html rows below) |
| Html.SanitizeIsEscapeEach | app.js:80-87 | the five replacements in order escape each character on its own |
| Html.SanitizedIsSafe | app.js:80-87 | sanitized text holds no angle bracket and no quote |
| Html.SanitizeRoundTrip | app.js:80-87 | decoding the five references gives the value's text back |
| Html.SanitizeFixed | app.js:80-87 | sanitizing leaves text unchanged exactly when it holds none of the five characters |
| Html.SanitizeTwice | app.js:80-87 | sanitizing is idempotent exactly when the text holds none of the five characters |
| PropertyOrder.ObjectKeysPermutation | app.js:430 | `Object.keys` lists every key, reordered |
| PropertyOrder.ObjectKeysIndicesFirst | app.js:430 | integer-like keys come first, in ascending order |
| PropertyOrder.ObjectKeysNamedOrder | app.js:430 | the other keys keep insertion order |
| PropertyOrder.ObjectKeysWithoutIndices | app.js:1707 | without integer-like keys, the order is insertion order |
| Buckets.AddTo | app.js:272-275 | `get(k).push(x)` creates a bucket for a new key at the end and otherwise appends to the key's bucket |
| Buckets.GroupByKeys | app.js:281-284 | the bucket keys are the distinct keys in first-seen order |
| Buckets.GroupByItems | app.js:281-284 | each bucket holds exactly the items with its key, in order |
| Buckets.GroupByFlatten | app.js:281-284 | the buckets together hold every item once |

## Left out

- Rendering, DOM events, jsPsych trial objects, `fetch`, file download and
  the quiz flow are outside the plan generator and are not modelled.
- The participant id and `Date.now()` fallback are inputs (`pid`), not read
  from the page.
- Timeline: each trial of the main timeline is a token. Its payload (HTML,
  survey questions) is not modelled. The training block is one token, and the
  preload node is present exactly when a flag says the preload list is
  non-empty.
- Timeline.MainTimelineAttention: assumes both attention trials are queued,
  because `buildAttentionConfig` always sets both parts.
- The SVG data URLs of the default practice stimuli and the default obvious
  pair are opaque non-empty constants. Their `encodeURIComponent` text is not
  reproduced.
- Numbers in rows and exported values are integers (`JsValue.Int`). Floating
  point and `String` of non-integers are not modelled.
- JsString.Lower: lower-cases ASCII letters only. Every comparison in the
  core is against ASCII words without a `k`, and the Kelvin sign is the only
  non-ASCII character that lower-cases into ASCII, so the outcomes agree.
- Strings are sequences of Unicode scalar values. Lone surrogates cannot be
  represented. `cyrb53` reads the UTF-16 code units of the scalar values.
- Keys that collide with `Object.prototype` members, such as `__proto__`,
  are not modelled.
- Attention.PairOf: the `second || first` fallback is dead code, because the
  chosen group always has at least two rows. The model takes the second row.
- Attention.ChooseKeyNone, Attention.NoneQualifies,
  Attention.ChosenKeyPrefersIndices, Attention.DefaultPairWhenNoGroup and
  Attention.GroupPairWhenGroup require distinct group keys. Object keys are
  always distinct. `Partition.ObviousGroups` proves it for the groups
  `prepareExperimentPlan` builds, and `Attention.PlanPair` applies the
  lemmas there without the requirement.
- ParticipantPlan: the variant choice is a parameter in the lemmas about
  trials (`Chooser`). `VariantChooser` instantiates it with `ChooseVariant`,
  and `VariantChooserChoosesMember` shows that it picks a member.
- Csv.ParseCsv: uses the splitter as written, including the misreading of
  `""`. The corrected splitter is proved separately.
- CsvExport.ToCsv: values are primitives; objects and arrays in a row are
  not modelled. Header names are written unescaped, as in the source.
- CsvExport.ToCsvReadsBack: reads each exported row line back with the
  corrected splitter, and only when the row's texts are trimmed.
  `CsvExport.ToCsvReadsBackAsWritten` uses the loader's splitter and also
  needs no cell made only of quotes. Neither reads the whole file with
  `parseCsv`. `parseCsv` also trims cells and rewrites
  carriage returns inside quoted text, so a full file round trip does not hold.
- CsvExport.ExportRow: the key order is not tied to the field map. A
  JavaScript object lists each own key once; the model takes the order as
  given, and a listed key without a field reads as `undefined`.
- The statistical claims about `cyrb53` and the shuffle (avalanche, balance
  across participants) are not stated. They are not facts about any single
  input.

## Findings

| source | as written | input that shows it | evidently intended | confidence | as-written member | corrected member |
|---|---|---|---|---|---|---|
| app.js:213-216 | `splitCsvLine` turns `""` into one quote character even outside quotes | the line `a,"",b` splits into `a`, `"`, `b` | an empty quoted field reads as the empty cell | not executed | Csv.EmptyQuotedFieldLine | Csv.EmptyQuotedFieldLineStrict |
| app.js:1726 | an exported cell made only of quotes does not read back with the loader's splitter | the value `"` exports as `""""` and reads back as `""` | every exported cell reads back as itself | not executed | CsvExport.MisreadCell | CsvExport.EscapedLineStrict |
