# geomatcher — a Dafny model of the game logic

geomatcher is a browser game. Each round loads up to six countries and up to
six statistics from `ranks.csv`. The player drags each country onto the bucket
of one statistic. A full board can be submitted, and its score is the sum of
the placed countries' values for their buckets. After three rounds the game
is complete, and "Play again" starts over.

This project models the logic behind that screen and proves properties of it:

- `Text` (`text.dfy`) covers the JavaScript string built-ins the loader relies
  on: `trim`, `split` with a one-character separator, `String(n)`, and
  `Number(s)` for decimal integers.
- `Dataset` (`dataset.dfy`) turns the CSV text into a round. It finds the
  statistic columns, fills the emoji map and one record per line with loops,
  selects up to six rows and six statistics in a given order, and builds the
  countries and the empty buckets.
- `Board` (`board.dfy`) holds the derived values `slotsFilled`, `roundScore`
  and `totalScore`, and the bucket update a drop makes. Its lemmas state what
  a drop changes, what it leaves alone and how it moves the count and the
  score.
- `CountryList` (`country_list.dfy`) holds `assignedIds` and the list
  component's drag state, a class with `MouseDown` and `MouseUp`. The
  `MouseDown` guard refuses to start a drag for a country already on the
  board.
- `App` (`app.dfy`) holds the screen's state as class `Game`. Its methods
  load a round, dismiss the instructions, start a drag, drop, submit and play
  again. Each method keeps the invariant `Valid()`:
  - the round lies in 1..3;
  - one result is recorded per finished round;
  - with unique bucket ids, no country sits in two buckets;
  - the country being dragged is not yet placed.
- `Score` (`score.dfy`) models `getScoreForRank`, and `rankToColor` as a
  four-tier classifier in integer arithmetic. It is proved equal to the
  fraction-based original over the reals.
- `Shuffle` (`shuffle.dfy`) models `seededShuffle`. The mulberry32 generator
  is a class holding its `bv32` state. The shuffle is an imperative
  Fisher–Yates loop over a fresh array, proved equal to a function of the
  input and the seed. That function returns a permutation of the input and
  fails only on an undefined element.
- `Types` and `Wrappers` hold the `Country`, `Bucket` and `RoundResult`
  records and the `Option` and `Result` types.

The bucket field `label` is named `caption`, because `label` is a Dafny
keyword.

## Model

| member | source | states |
|---|---|---|
| `Text.Trim` | src/App.tsx:34 | the trimmed text is no longer than the input and starts and ends with a non-white-space character |
| `Text.TrimSlice` | src/App.tsx:34 | the trimmed text is a contiguous slice of the input, and everything before and after that slice is white space |
| `Text.TrimFixed` | src/App.tsx:34 | a string with no white space at either end is its own trim |
| `Text.Split` | src/App.tsx:34 | `split` yields at least one piece, no piece contains the separator, and joining the pieces with the separator gives the input back |
| `Text.SplitJoin` | src/App.tsx:42-43 | splitting a join of separator-free pieces gives exactly those pieces back |
| `Text.NatToString` | src/App.tsx:68 | `String(idx)` is a non-empty run of decimal digits with no leading zero, whose value is `idx` |
| `Text.ParseNum` | src/App.tsx:72 | `Number` gives a number exactly when the trimmed cell is blank or a numeral (optional sign, then digits). A blank cell is 0, `d`/`+d` is the decimal value of `d`, `-d` is its negation, and a negative result needs a leading minus sign |
| `Text.SignedDigits` | src/App.tsx:72 | a non-blank trimmed string is read exactly when it is a numeral: digits give their value, `+d` the value of `d`, `-d` its negation; anything else is rejected |
| `Text.NumberOfString` | src/App.tsx:68 | parsing `String(n)` gives `n` back |
| `Text.NumberOfNegative` | src/App.tsx:72 | a minus sign before the decimal form of `n > 0` parses to `-n` |
| `Dataset.Lines` | src/App.tsx:34 | the trimmed text split at newlines always has at least one line |
| `Dataset.StatColumns` | src/App.tsx:52-54 | the statistic columns are exactly the header columns other than `Abbreviation`, `Country` and `Emoji`, each kept as often as it occurs in the header, and there are no more of them than columns |
| `Dataset.StatColumnsDistinct` | src/App.tsx:52-54 | distinct header columns give distinct statistic columns |
| `Dataset.RecordKeys` | src/App.tsx:58-59 | a record built from a line has exactly the header's column names as keys |
| `Dataset.Record` | src/App.tsx:58-59 | no contract of its own; `Dataset.RecordKeys` and `Dataset.RecordLookup` state its keys and values |
| `Dataset.RecordLookup` | src/App.tsx:59 | a record keeps, for each column name, the cell at that name's last position, or `''` when the line is too short |
| `Dataset.ZipColumns` | src/App.tsx:46-49 | the `forEach` loop builds the record whose keys are the column names, and each column's value is the cell at its last occurrence |
| `Dataset.Or` | src/App.tsx:68-71 | the string fallback of `id`, `name`, `abbreviation` and `emoji` yields one of its two operands, and it is empty only when both are |
| `Dataset.StatValue` | src/App.tsx:72 | the cell read by `Number`, with 0 as fallback, is the parsed number, and 0 for a blank, missing or non-numeric cell |
| `Dataset.CountryOf` | src/App.tsx:66-73 | the id is the abbreviation when it is non-empty, else the name when that is non-empty, else the position in decimal, so it is never empty. `name`, `abbreviation` and `emoji` are the row's cells (`''` when missing). The `ranks` keys are exactly the chosen statistics, and each value is the parsed cell of the row |
| `Dataset.Select` | src/App.tsx:63-64 | the selection holds `min(6, n)` elements, the `k`-th being element `order[k]` of the input, so every selected element comes from the input |
| `Dataset.SelectDistinct` | src/App.tsx:63-64 | selecting by a permutation from distinct elements gives distinct elements |
| `Dataset.Rows` | src/App.tsx:56-61 | there is one parsed record per data line, and record `k` is data line `k` split at commas and keyed by the header's columns |
| `Dataset.Countries` | src/App.tsx:66-74 | there is one country per selected row, and country `k` is `CountryOf` of row `k` at position `k` (so its id chain, name, abbreviation, emoji and values come from that row). Each has a non-empty id and exactly the chosen statistics as `ranks` keys |
| `Dataset.Buckets` | src/App.tsx:76-83 | there is one bucket per chosen statistic, with `id` and `label` equal to the statistic, `emoji` the statistic's entry in the emoji map (`''` when missing) and an empty slot, and the bucket ids are exactly the statistics |
| `Dataset.RoundOf` | src/App.tsx:66-83 | the round is the converted countries and buckets; every bucket starts empty with `id = label` one of the statistics, and every country has a non-empty id and exactly the bucket ids as `ranks` keys |
| `Dataset.LoadedRound` | src/App.tsx:34-83 | a round is loaded exactly when the trimmed text has at least three lines and a non-empty header and emoji line. A loaded round has at most 6 countries and at most 6 buckets. Every bucket starts empty, with `id = label` a non-reserved header column. Every country has a non-empty id, and its `ranks` keys are exactly the bucket ids |
| `Dataset.LoadedBucketOrder` | src/App.tsx:64-79 | the buckets follow the statistic order: bucket `k` is statistic column `statOrder[k]` |
| `Dataset.LoadedCountry` | src/App.tsx:56-74 | loaded country `k` is `CountryOf` of the record of data line `rowOrder[k]`, at position `k`, over the selected statistics: its id chain `Abbreviation`, `Country`, `String(k)`, its name, abbreviation, emoji and values all come from that line |
| `Dataset.LoadedBucketEmoji` | src/App.tsx:46-80 | every loaded bucket's emoji is its statistic's cell in the emoji line (the second line), or `''` when that cell is missing |
| `Dataset.LoadedBucketIdsDistinct` | src/App.tsx:52-54 | when the header has no repeated column, the loaded buckets have distinct ids |
| `Dataset.LoadedValues` | src/App.tsx:63-72 | a loaded country's value for a statistic is that statistic's cell in the country's own data line (picked by the row order), read as a number, and 0 when missing, blank or not a number |
| `Dataset.SelectedValue` | src/App.tsx:63-72 | the `k`-th selected country takes its values from data line `order[k]` |
| `Dataset.ParseRows` | src/App.tsx:56-61 | the `map` over the data lines returns the record of every line, in order |
| `Dataset.ParseRound` | src/App.tsx:34-83 | the parsing code (early returns, `forEach` fills, selection, conversion) returns exactly `LoadedRound` |
| `Board.SlotsFilled` | src/App.tsx:109-112 | `slotsFilled` lies between 0 and the number of buckets |
| `Board.SlotsFilledExtremes` | src/App.tsx:109-112 | `slotsFilled` equals the bucket count exactly when every slot is filled, and is 0 exactly when none is |
| `Board.Find` | src/App.tsx:117 | `find` returns nothing exactly when no country has the id, and otherwise the first country with that id |
| `Board.FindIndex` | src/App.tsx:117 | the index is that of the first country with the id, or the number of countries when none has it |
| `Board.ValueOf` | src/App.tsx:117-118 | no contract of its own; `Board.ValueOfFirstMatch` states its value |
| `Board.ValueOfFirstMatch` | src/App.tsx:117-118 | an id no country has reads 0; otherwise the value is the first country with that id's value for the statistic, and 0 when it lacks the statistic |
| `Board.Contribution` | src/App.tsx:116-118 | no contract of its own; `Board.PlaceContribution` states what filling a bucket adds, and `Board.RoundScoreEmpty` that empty slots add nothing |
| `Board.RoundScore` | src/App.tsx:114-120 | no contract of its own; `Board.RoundScoreEmpty` and `Board.PlaceRoundScore` state its value on an empty board and its change on a drop |
| `Board.TotalScore` | src/App.tsx:122-124 | once the game is complete the total is just the sum of the recorded scores |
| `Board.RoundScoreEmpty` | src/App.tsx:114-120 | a board with no country placed scores 0 |
| `Board.SumScoresAppend` | src/App.tsx:122-124 | recording one more result adds exactly its score to the sum of recorded scores |
| `Board.OpenSlots` | src/App.tsx:98-103 | the number of slots a drop can fill is 0 exactly when no bucket with that id has an empty slot |
| `Board.OpenSlotsUnique` | src/App.tsx:98-103 | with unique bucket ids a drop can fill at most one slot |
| `Board.Place` | src/App.tsx:98-103 | no contract of its own; `Board.PlaceChangesOnlyTarget`, `Board.PlaceNeverOverwrites`, `Board.PlaceSlotsFilled` and `Board.PlaceRoundScore` state what the drop changes |
| `Board.PlaceChangesOnlyTarget` | src/App.tsx:98-103 | a drop keeps the number of buckets. It changes only an empty-slot bucket whose id matches, and only its slot, which then holds the dropped country |
| `Board.PlaceNeverOverwrites` | src/App.tsx:100 | a filled slot is never overwritten: a second drop on the same bucket changes nothing |
| `Board.PlaceSlotsFilled` | src/App.tsx:98-112 | a drop raises `slotsFilled` by exactly the number of open matching slots |
| `Board.DropSlotsFilled` | src/App.tsx:98-112 | with unique ids a drop never decreases `slotsFilled` and raises it by at most one |
| `Board.PlaceContribution` | src/App.tsx:115-118 | filling one bucket adds the placed country's value for that bucket to what the bucket contributes |
| `Board.PlaceRoundScore` | src/App.tsx:98-120 | a drop raises `roundScore` by the dropped country's value for the bucket, once per slot filled |
| `Board.PlaceKeepsExclusive` | src/App.tsx:98-104 | with unique ids, dropping a country that sits in no bucket keeps every country in at most one bucket |
| `Board.PlaceKeepsIds` | src/App.tsx:98-103 | a drop keeps every bucket id, so it keeps the ids unique exactly when they were |
| `Board.GuardedDropKeepsInvariant` | src/App.tsx:98-104 | a drop of an unplaced country preserves "unique ids imply no country in two buckets" |
| `Board.UnguardedDropBreaksExclusive` | src/App.tsx:96-106 | `handleDrop` alone does not ensure exclusivity: dropping a country already placed puts it in two buckets |
| `CountryList.AssignedIds` | src/components/CountryList.tsx:14 | `assignedIds` holds one id per filled slot, and an id is in it exactly when some bucket holds it; a single bucket gives its id when filled and nothing when empty |
| `CountryList.AssignedIdsAppend` | src/components/CountryList.tsx:14 | the ids of two runs of buckets are the first run's ids followed by the second's, so with the one-bucket case the list is the filled slots in bucket order, each as often as it is placed |
| `CountryList.IsAssigned` | src/components/CountryList.tsx:49 | no contract of its own; `CountryList.IsAssignedIffPlaced` states when it holds |
| `CountryList.IsAssignedIffPlaced` | src/components/CountryList.tsx:49 | a card is shown as assigned exactly when its country sits in some bucket |
| `CountryList.ExclusiveAssignedIdsDistinct` | src/components/CountryList.tsx:14 | on a board where no country sits twice, `assignedIds` has no repeated id |
| `CountryList.CountryList.constructor` | src/components/CountryList.tsx:12-13 | the list starts with no dragged card and no drag position |
| `CountryList.CountryList.MouseDown` | src/components/CountryList.tsx:18-25 | a drag starts (and `onDragStart` is called) exactly when the country is not in `assignedIds`. It then records the card and the pointer position. Otherwise nothing changes |
| `CountryList.CountryList.MouseUp` | src/components/CountryList.tsx:39-41 | both `draggedId` and `dragPos` are cleared |
| `App.RecordRound` | src/App.tsx:129-137 | appending `{round, score}` keeps the rounds consistent, advancing below round 3 or completing at round 3, and adds `score` to the recorded sum |
| `App.EmptyBoardValid` | src/App.tsx:76-83 | a freshly loaded board with every slot empty satisfies the board invariant |
| `App.Game.constructor` | src/App.tsx:19-26 | the screen mounts at round 1 with no results, no board, the instructions shown and nothing dragged |
| `App.Game.Filled` | src/App.tsx:109-112 | no contract of its own; it is `Board.SlotsFilled` of the current buckets, and `App.Game.Drop`, `App.Game.SetBoard` and `App.Game.Submit` state how it changes |
| `App.Game.CurrentRoundScore` | src/App.tsx:114-120 | no contract of its own; it is `Board.RoundScore` of the current board, and `App.Game.Drop` and `App.Game.SetBoard` state how it changes |
| `App.Game.CurrentTotal` | src/App.tsx:122-124 | no contract of its own; it is `Board.TotalScore` of the current state, and `App.Game.Submit` states that the recorded results then add up to it |
| `App.Game.LoadRound` | src/App.tsx:29-85 | nothing changes once the game is complete or when the text has no round. Otherwise the loaded countries and empty buckets replace the board, which then has no slot filled and scores 0. The rounds are untouched and the invariant holds |
| `App.Game.SetBoard` | src/App.tsx:66-83 | the loaded countries and empty buckets replace the board, `slotsFilled` and `roundScore` become 0, and the invariant holds |
| `App.Game.DismissInstructions` | src/App.tsx:88-90 | the instructions are hidden and nothing else changes |
| `App.Game.StartDrag` | src/App.tsx:92-94 | with the list's guard, a drag starts exactly for a country not on the board. It then becomes the pending country in both the game and the list. The invariant is kept |
| `App.Game.EndDrag` | src/components/CountryList.tsx:39-44 | the list's drag state is cleared |
| `App.Game.Drop` | src/App.tsx:96-106 | with no pending country (null or empty) nothing changes. Otherwise the buckets become the guarded placement and the pending country is cleared. `roundScore` grows by the country's value per filled slot, `slotsFilled` rises by 0 or 1 with unique ids, and no country ends up in two buckets |
| `App.Game.Submit` | src/App.tsx:126-138 | a board with an empty slot changes nothing. A full one appends exactly `{round, roundScore}`, whose sum with the earlier results is the total shown before the submission. It then advances the round below 3 or completes the game at 3, and the board stays as it was |
| `App.Game.FinishRound` | src/App.tsx:129-137 | the current round's score is appended as its result, the next round starts or the game completes, and the invariant (including one recorded result per finished round while in play and three once complete) holds |
| `App.Game.PlayAgain` | src/App.tsx:140-145 | from any state: round 1, no results, game not complete, instructions shown, board untouched |
| `Score.ScoreForRank` | src/utils/score.tsx:2-7 | no rank or rank 0 scores 0. Rank 1 scores `20 * total` and rank `total > 1` scores 0. Every rank in `1..total` scores a non-negative multiple of 20 |
| `Score.ScoreBelowFirst` | src/utils/score.tsx:6 | a rank `k` from 2 to `total` scores `20 * (total - k)` |
| `Score.ScoreStrictlyDecreasing` | src/utils/score.tsx:4-6 | for `1 <= k < m <= total`, rank `k` scores strictly more than rank `m` |
| `Score.RankToColor` | src/utils/score.tsx:11-18 | 🟩 whenever `total < 2`; with `total >= 2`, rank 1 is 🟩 and rank `total` is 🟥 |
| `Score.RankToColorMatchesFraction` | src/utils/score.tsx:11-18 | the integer classifier agrees on every input with the classification of the fraction `(rank - 1) / (total - 1)` against 0.2, 0.5 and 0.8 |
| `Score.RankToColorMonotone` | src/utils/score.tsx:13-17 | at a fixed total, a larger rank never gets a better tier |
| `Score.RankToColorTiers` | src/utils/score.tsx:14-17 | 🟩 iff `5(rank-1) <= total-1`; 🟨 iff not 🟩 and `2(rank-1) <= total-1`; 🟧 iff neither and `5(rank-1) <= 4(total-1)`; 🟥 otherwise |
| `Shuffle.Draw` | src/utils/shuffle.tsx:4-6 | the mixed state is an unsigned numerator below 2^32, so each output lies in [0, 1) |
| `Shuffle.InitialState` | src/utils/shuffle.tsx:1-3 | no contract of its own: the seed modulo 2^32, which is what the int32 conversion sees of an integer seed |
| `Shuffle.MixStep` | src/utils/shuffle.tsx:4-6 | no contract of its own: statement `k` of the three mixing statements |
| `Shuffle.Mix` | src/utils/shuffle.tsx:4-6 | no contract of its own: the three mixing statements in order; `Shuffle.Draw` bounds its numerator |
| `Shuffle.SwapIndex` | src/utils/shuffle.tsx:14 | `Math.floor(rand() * (i + 1))` lies in `[0, i]` |
| `Shuffle.ProductIsMul` | src/utils/shuffle.tsx:14 | the product in the swap index, computed by repeated addition, is `u * (i + 1)` |
| `Shuffle.ProductBound` | src/utils/shuffle.tsx:14 | for `u < 2^32`, `u * n <= n * 2^32 - n`, which keeps the swap index at most `i` |
| `Shuffle.Mulberry32.constructor` | src/utils/shuffle.tsx:1 | the captured seed is the seed modulo 2^32 |
| `Shuffle.Mulberry32.Next` | src/utils/shuffle.tsx:2-7 | each call advances the seed by `0x6D2B79F5` modulo 2^32 before mixing, and returns the numerator of the mixed advanced seed |
| `Shuffle.Swap` | src/utils/shuffle.tsx:18-20 | the swap exchanges positions `i` and `j`, keeps the length and keeps every other position |
| `Shuffle.SwapPermutes` | src/utils/shuffle.tsx:18-20 | a swap preserves the multiset of elements |
| `Shuffle.ShuffleFrom` | src/utils/shuffle.tsx:13-21 | no contract of its own; `Shuffle.ShuffleFromPermutes`, `Shuffle.ShuffleFromDefined` and `Shuffle.ShuffleFromChecked` state its outcome, and `Shuffle.SeededShuffle`'s loop is proved equal to it |
| `Shuffle.Shuffled` | src/utils/shuffle.tsx:10-23 | the outcome is a function of the array and the seed. A length 0 or 1 array comes back unchanged. A successful result has the same length and the same multiset of elements, and an array with no undefined element is never rejected |
| `Shuffle.ShuffleFromPermutes` | src/utils/shuffle.tsx:13-21 | the loop from any index down only reorders the elements |
| `Shuffle.ShuffleFromDefined` | src/utils/shuffle.tsx:15-17 | the loop never throws on an array with no undefined element |
| `Shuffle.ShuffleFromChecked` | src/utils/shuffle.tsx:13-21 | a successful loop from `i` down leaves the positions above `i` untouched, and leaves a defined element at every position from 1 to `i` |
| `Shuffle.ShuffledOutcome` | src/utils/shuffle.tsx:15-17 | the shuffle throws only if the input holds an undefined element. After success, every position but the first holds a defined element |
| `Shuffle.NextSwapIndex` | src/utils/shuffle.tsx:14 | one generator call advances the state by the increment and gives the swap index of the advanced state's output |
| `Shuffle.ShufflePass` | src/utils/shuffle.tsx:14-20 | one loop pass either agrees with the specified loop continuing from `i - 1` with the advanced generator, or the specified loop throws at `i` |
| `Shuffle.SwapDefined` | src/utils/shuffle.tsx:15-20 | the pass goes on exactly when `arr[i]` and `arr[j]` are both defined. Then the two are exchanged; otherwise the array is unchanged |
| `Shuffle.SeededShuffle` | src/utils/shuffle.tsx:10-23 | the input array is not modified. The method succeeds exactly when `Shuffled` does, and returns a fresh array holding `Shuffled`'s result (so a permutation of the input) |

## Left out

- Fetching `ranks.csv`, promise chaining, and the `useEffect` that re-runs the load when `round` or `gameComplete` changes (src/App.tsx:29-33, 85) are I/O and framework code. The text is a parameter of `App.Game.LoadRound`, and the caller decides when to load.
- The `sort(() => Math.random() - 0.5)` selections (src/App.tsx:63-64) are nondeterministic, and a random comparator is no well-defined order. The model takes the two orders as permutation parameters (`rowOrder`, `statOrder`), and `Dataset.Select` takes the first six.
- `Text.ParseNum`: `Number(s)` is modelled only for an optional sign followed by decimal digits, after trimming. Fractions, exponents, hexadecimal, `Infinity` and other numerals are treated as not a number, and so become 0. Values are integers, not doubles.
- `Shuffle.Mulberry32.constructor`: the seed is an integer, taken modulo 2^32. JavaScript keeps `seed` as a double and adds the increment in floating point. This agrees with `bv32` addition only while the integer sum stays below 2^53, and fractional seeds are not modelled.
- `Shuffle.SwapIndex`: the index is `floor(u * (i + 1) / 2^32)` in exact integers. The floating-point product `rand() * (i + 1)` is exact, and so agrees, while `u * (i + 1) < 2^53`.
- The pointer position `mousePos` and its `mousemove` listener (src/App.tsx:27, 147-159), the list's auto-scroll (src/components/CountryList.tsx:27-37), and the document listener registration (src/components/CountryList.tsx:22-23, 42-43) are event wiring and pixel geometry. `MouseDown` takes the pointer position as a parameter.
- Drop hit-testing and bucket colouring (`getBucketColor`, src/components/BucketGrid.tsx) are floating-point rendering, and BucketGrid.tsx is not part of this model. The header, instruction card, final page and footer components are presentation only. The final page's total is the sum of the recorded results, the value `App.Game.FinishRound` relates to the shown total.
- `App.Game.Submit` requires `!gameComplete`. The source does not check this, but once the game is complete the footer holding the submit button is not rendered (src/App.tsx:161-206).
- Exclusivity (no country in two buckets) is stated only for boards with unique bucket ids. With a repeated statistic column, one drop fills every empty bucket with that id, which `Board.PlaceSlotsFilled` and `Board.PlaceRoundScore` state exactly.
- `getScoreForRank` is modelled but called nowhere in the game. Round scores use the CSV values directly, as the source does.
- Ranks and totals are integers. Non-integer `number` arguments to `getScoreForRank` and `rankToColor` are not modelled, and `rankPosition` undefined is `None`.
- `Score.RankToColorReal` divides exactly, but the source compares IEEE doubles: `(rank - 1) / (total - 1)` is rounded, and so are the literals 0.2, 0.5 and 0.8. The rounding cannot move a fraction across a cut point while `total - 1` stays below about 10^15, so `Score.RankToColorMatchesFraction` speaks for the source only within that range.
