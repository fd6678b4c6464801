# Football picks tracker — the data model

The tracker keeps a board of football games. Each game has predictions from
expert sources: a market, a pick, a line, an optional confidence, notes and a
link. The browser script `app.js` renders the board and lets the user add, edit
and delete games and predictions. It also computes a few summaries:

- a per-game consensus pick;
- market coverage;
- the strongest consensus games;
- the highest-confidence picks;
- a pick bar per market block.

Boards loaded from local storage or an imported file go through a normaliser
first. This project models that data core in Dafny and proves what its
operations compute.

Modules, in dependency order:

- `Wrappers`: `Option`.
- `Text`: `String.prototype.trim` over the full JavaScript white-space set.
  Also ASCII `toLowerCase`, `includes`, `join` and `split`, with lemmas that
  relate them.
- `Json`: a parsed JSON value, with:
  - JavaScript truthiness and nullishness;
  - property access;
  - `String(v)`;
  - `filter(Boolean)`.
  Numbers are abstracted to `Finite(int) | NaN | PosInfinity | NegInfinity`.
- `Records`: the normalised `Game` and `Prediction` records.
  - Fields the code does not interpret keep their raw value.
  - Unknown keys, which the object spread copies, live in `extra`.
- `Collections`: list machinery shared by the summaries.
  - Counting.
  - First-occurrence deduplication.
  - The entries of a counting `Map` (`Tally`).
  - A stable descending sort (`SortDesc`, an insertion sort) and `slice(0, n)`.
  - `groupBy`.
- `Markets`: `MARKET_LABELS`, `formatMarketLabel`, `getMarketMeta`.
- `Search`: `filterGame`.
- `Consensus`: `buildConsensusSummary`, `buildConsensusLeaders`, and `Math.round`
  of a percentage in exact arithmetic.
- `Aggregate`:
  - the snapshot figures;
  - the counting and sorting parts of `buildMarketBreakdown`,
    `buildConfidenceLeaders` and `buildSummaryBar`;
  - the confidence order of a market block.
- `Normalize`: `normalizeGames`. Two things it needs are supplied as parameters:
  - `newId`, a function of the position being filled, replaces `generateId`;
  - `parse`, the numeric reading of a non-blank trimmed string, replaces `Number`.
- `BoardState`:
  - Each board change is first a function of the old board: game save,
    prediction save, `deleteGame`, `deletePrediction`, and loading a parsed
    document.
  - The `Board` class holds `state.games`. Its methods make each change in
    place, and each is proved equal to its function.

The code runs loops and updates state in these places, and the model keeps the
loop or the update there:

- the counting map of `buildConsensusSummary`;
- `groupBy`;
- the grouping in `buildSummaryBar`;
- the `total += 1` and counts map of `buildMarketBreakdown`;
- the `entries.push` loop of `buildConfidenceLeaders`;
- the `state.games` updates.

The other parts are pure in the source and are functions here.

## Model

| member | source | states |
|---|---|---|
| Text.Trim | app.js:49 | the result has no white space at either end and is no longer than the input |
| Text.TrimContained | app.js:49 | the result is a substring of the input |
| Text.TrimIdempotent | app.js:49 | trimming twice is trimming once |
| Text.TrimOfTrimmed | app.js:49 | a string without surrounding white space is its own trim |
| Text.TrimPadded | app.js:49 | white space around a trimmed string is all that trim removes |
| Text.TrimEmptyIff | app.js:50 | the trim is empty exactly when the string is all white space |
| Text.TrimAvoids | app.js:495 | trimming introduces no character that was not there |
| Text.Lower | app.js:51 | same length, each character lower-cased (ASCII) |
| Text.LowerIdempotent | app.js:51 | lower-casing twice is lower-casing once |
| Text.LowerTrimmed | app.js:51 | lower-casing keeps a trimmed string trimmed |
| Text.LowerAppend | app.js:201 | lower-casing distributes over concatenation |
| Text.ContainsLower | app.js:201-202 | a substring stays a substring after lower-casing both |
| Text.ContainsTransitive | app.js:202 | a substring of a substring is a substring |
| Text.JoinContainsPart | app.js:200 | every part occurs in the join |
| Text.JoinContainsOnlyInPart | app.js:200-202 | a non-empty needle without the separator that occurs in a join occurs in one part |
| Text.LowerJoin | app.js:200-201 | lower-casing a space-join is the join of the lower-cased parts |
| Text.Split | app.js:493-494 | split gives at least one part and no part holds the separator |
| Text.JoinSplit | app.js:493-494 | joining the split parts gives back the string |
| Text.SplitJoin | app.js:493-494 | splitting a join of separator-free parts gives back the parts |
| Json.KeepTruthy | app.js:199 | the filter keeps only truthy values and never lengthens |
| Json.KeepTruthyMember | app.js:199 | a value is kept exactly when it occurs and is truthy |
| Json.Get | app.js:888-923 | reads an object's own field; a key the records read that the object lacks gives `undefined`, and so does any of those keys on a number, boolean or array, or any of them but `link` on a string |
| Records.AllPredictions | app.js:695 | the flattened list has one entry per prediction of the board, and holds each of them |
| Markets.AliasIndexFrom | app.js:52-56 | finds the first preset listing the alias, or reports that none does |
| Markets.ValueIndexFrom | app.js:64 | finds the first preset with the canonical label, or reports that none has it |
| Markets.AliasesDisjoint | app.js:10-26 | no alias is listed by two presets |
| Markets.AliasesNormal | app.js:10-26 | every alias is non-empty, lower-case and trimmed, so a lookup of lowered trimmed text can match it |
| Markets.ValuesDistinct | app.js:10-26 | canonical labels are distinct and none is `'General Picks'` |
| Markets.ValueIsOwnAlias | app.js:10-26 | each canonical label is trimmed and non-empty, and lower-cased it is one of its own aliases |
| Markets.GeneralPicksIsNoAlias | app.js:48-50 | `'General Picks'` is trimmed, no alias and no canonical label |
| Markets.AliasIndexOf | app.js:52-56 | the alias search finds exactly the preset that lists the alias |
| Markets.ValueIndexOf | app.js:64 | the canonical-label search finds each preset's own index |
| Markets.FormatBlank | app.js:48-50 | a falsy input, or text that is all white space, gives `'General Picks'` |
| Markets.FormatAlias | app.js:49-56 | an alias in any letter case with any surrounding white space gives its preset's canonical label |
| Markets.FormatPassThrough | app.js:49-57 | non-blank text matching no alias comes back trimmed and otherwise unchanged |
| Markets.FormatCases | app.js:47-58 | the result is one of `'General Picks'` for blank input, the preset label of a matching alias, or the trimmed text |
| Markets.FormatMarketLabel | app.js:47-58 | every label comes out non-empty |
| Markets.GeneralPicksFixed | app.js:47-58 | `'General Picks'` canonicalises to itself |
| Markets.PresetValueFixed | app.js:47-58 | each canonical label canonicalises to itself |
| Markets.FormatIdempotent | app.js:47-58 | every result is non-empty and canonicalising it again changes nothing |
| Markets.MetaOfCanonical | app.js:60-70 | the metadata of a label and of its canonical form agree |
| Markets.MetaOfAlias | app.js:60-68 | any spelling of an alias gets its preset's icon and description |
| Markets.MetaOfCustom | app.js:60-69 | a truthy label that is no preset and not General Picks gets the pin icon and no description |
| Markets.MarketMeta | app.js:60-70 | a falsy label gets the general metadata, and every result is the general entry, the custom entry or one preset's icon and description |
| Search.PredictionFields | app.js:191-196 | every prediction's source, market, pick and notes are searched |
| Search.FilterEmptyNeedle | app.js:184 | the empty needle keeps every game |
| Search.FilterFindsField | app.js:185-202 | a needle inside the lower-cased text of a truthy searchable field matches |
| Search.FilterIgnoresCase | app.js:183-202 | search text typed in any case and trimmed and lower-cased as at app.js:127 finds a field that contains it |
| Search.FilterOnlyInField | app.js:185-202 | a non-empty needle without a space matches only if one truthy field contains it |
| Search.FilterGame | app.js:183-202 | the empty needle always matches, and a non-empty needle matches only if it fits inside the joined lower-cased fields (a field whose conversion to text throws is converted as explained under Left out) |
| Collections.CountPositive | app.js:469-473 | a value is counted at least once exactly when it occurs |
| Collections.CountAppend | app.js:469-473 | appending a value adds one to its count and nothing to the others |
| Collections.Dedup | app.js:671-673 | the keys in first-occurrence order are distinct |
| Collections.DedupMembers | app.js:671-673 | the distinct keys are exactly the keys that occur |
| Collections.DedupAppend | app.js:671-673 | a new key goes to the end and an old one changes nothing |
| Collections.DedupOrder | app.js:671-673 | a key listed earlier first occurs earlier in the input |
| Collections.TallyOf | app.js:443-447 | the entries pair each key with its number of occurrences |
| Collections.TallySum | app.js:443-447 | the counts of a counting map add up to the number of items |
| Collections.Insert | app.js:340-344 | insertion adds exactly the one element |
| Collections.InsertSorted | app.js:340-344 | insertion keeps the order non-increasing |
| Collections.SortDesc | app.js:340-344 | the sort is a permutation into non-increasing rank |
| Collections.InsertOfRank | app.js:340-344 | insertion puts the element after the others of its rank |
| Collections.SortStable | app.js:340-344 | elements of equal rank keep their input order |
| Collections.SumOfSort | app.js:447 | sorting does not change a sum over the elements |
| Collections.Take | app.js:835 | `slice(0, n)` keeps the first `min(n, length)` elements |
| Collections.TopByRank | app.js:834-835 | the first `n` after a stable descending sort are `min(n, length)` elements of the input, in non-increasing rank, all taken from the input; none left out outranks one kept; within a rank they are the earliest |
| Collections.TopOutranks | app.js:785-786 | no element left out of the top `n` outranks one kept |
| Collections.RankedTally | app.js:443-447 | the ranked counting-map entries are non-increasing, each a key with its count, every key present, counts adding up to the input length |
| Collections.Plurality | app.js:474-475 | the first ranked entry is a key of the input with its count; no key occurs more often; a tied key first occurs later |
| Collections.TallyIncrement | app.js:471-472 | one `counts.set(key, counts.get(key) + 1)` step turns the entries for `s` into those for `s + [key]` |
| Collections.KeyIndex | app.js:471 | finds the entry with the key, or reports that none has it |
| Collections.MapSeq | app.js:783 | `map` applies the function at each position |
| Collections.Select | app.js:674 | a bucket holds, in input order, the items with its key, as many as there are |
| Collections.SelectHoldsItem | app.js:674 | each item is in the bucket of its own key |
| Collections.GroupsPartition | app.js:667-677 | every item lands in its key's bucket and the bucket sizes add up to the input length |
| Collections.GroupBy | app.js:667-677 | the keys come in first-occurrence order, there is a bucket for exactly those keys, and each bucket is the items with that key in input order |
| Consensus.RoundPercentNearest | app.js:477 | the rounded percent is the whole number nearest to `100 * count / total`, halves rounding up |
| Consensus.RoundPercentReaches40 | app.js:478 | the rounded percent reaches 40 exactly when `200 * count >= 79 * total` |
| Consensus.RoundPercentMonotonic | app.js:477 | a larger count never gives a smaller percent |
| Consensus.RoundPercentWhole | app.js:477 | all of the total is 100 percent |
| Consensus.RoundPercentRange | app.js:477 | a share of the total is between 0 and 100 percent |
| Consensus.ConsensusKeys | app.js:470 | one key per prediction: its trimmed pick, or `'Other'` for a falsy pick |
| Consensus.BuildConsensusSummary | app.js:466-480 | the counting loop and sort give exactly the consensus summary |
| Consensus.ConsensusIsPlurality | app.js:466-480 | no summary without predictions; a summary has the prediction count as total, a key of maximal count with its count, the rounded percent of at least 40, and the first-met key among ties; without a summary no key reaches 40 percent |
| Consensus.ConsensusOf | app.js:466-480 | no predictions give no summary; a summary has the prediction count as total and a percent of at least 40 |
| Consensus.Candidates | app.js:783-784 | at most one candidate per game |
| Consensus.CandidateSound | app.js:783-784 | each candidate is a game of the board with its own consensus summary |
| Consensus.CandidateComplete | app.js:783-784 | every game with a consensus is a candidate |
| Consensus.LeadersNoneIff | app.js:788 | the consensus board is absent exactly when no game has a consensus |
| Consensus.LeadersAreCandidates | app.js:783-786 | each listed game has its own consensus summary of at least 40 percent |
| Consensus.LeadersOutrank | app.js:785-786 | no game left off has a higher percent than one listed |
| Consensus.ConsensusLeadersTop | app.js:781-788 | min(3, number of games with a consensus) games in non-increasing percent, each with its own summary, none outranked by a game left off, games of equal percent in board order; absent exactly when no game has a consensus |
| Consensus.ConsensusLeaders | app.js:781-788 | absent exactly when no game has a consensus, otherwise one to three leaders |
| Aggregate.HighConfidenceBounds | app.js:694-696 | the 70%+ figure counts only predictions of the board and is zero exactly when none has confidence of 70 or more |
| Aggregate.PredictionOnBoard | app.js:695 | every flattened prediction is a prediction of some game |
| Aggregate.SnapshotOf | app.js:692-696 | the high-confidence figure never exceeds the number of picks |
| Aggregate.CountMarkets | app.js:741-749 | the loop's counts are the tally of canonical market labels and its total is the number of predictions |
| Aggregate.BuildMarketBreakdown | app.js:740-770 | the method gives exactly the market coverage rows, or none for an empty board |
| Aggregate.SharesOf | app.js:758 | one row per entry |
| Aggregate.SharesSum | app.js:758-771 | the row counts add up to the entry counts |
| Aggregate.RowsOrdered | app.js:756 | rows are in non-increasing count order |
| Aggregate.RowsCount | app.js:756-770 | each row is a market with its number of picks and its rounded share |
| Aggregate.RowsCover | app.js:746-747 | every prediction's canonical market has a row |
| Aggregate.MarketBreakdownCounts | app.js:740-770 | absent exactly for an empty board; otherwise the counts add up to the number of predictions, in non-increasing order, each a canonical market with its count and rounded share, and every prediction's market has a row |
| Aggregate.MarketBreakdown | app.js:740-770 | absent exactly when the board has no predictions |
| Aggregate.MarketBreakdownPercents | app.js:766-770 | with at least one prediction, the rounded shares of all rows add up to 100 within half a point per row |
| Aggregate.SharesPercentError | app.js:770 | over any rows, twice the total times the sum of rounded percents is within one total per row of 200 times the sum of counts |
| Aggregate.RowsPercentSum | app.js:758-770 | the breakdown rows of a list of labels have percents adding up to 100 within half a point per row |
| Aggregate.ConfidentIn | app.js:825-829 | a game contributes at most one entry per prediction |
| Aggregate.ConfidentInSound | app.js:825-829 | each entry of a game is one of its predictions with a confidence |
| Aggregate.ConfidentInComplete | app.js:825-829 | every prediction of the game with a confidence is an entry |
| Aggregate.Confident | app.js:823-830 | at most one entry per prediction of the board |
| Aggregate.ConfidentSound | app.js:823-830 | each entry is a prediction with a confidence, paired with its game |
| Aggregate.ConfidentComplete | app.js:823-830 | every prediction with a confidence is an entry, paired with its game |
| Aggregate.ConfidentNoneIff | app.js:832 | there are no entries exactly when no prediction has a confidence |
| Aggregate.ConfidentTopOnBoard | app.js:823-835 | every listed pick is a prediction of its game with a confidence |
| Aggregate.BuildConfidenceLeaders | app.js:822-835 | the push loop, sort and slice give exactly the highest-confidence board |
| Aggregate.ConfidenceLeadersTop | app.js:822-835 | absent exactly when no prediction has a confidence; otherwise the first five confident picks (all if fewer), each on the board with a confidence, in non-increasing confidence, none outranked by a pick left out, ties in encounter order |
| Aggregate.ConfidenceLeaders | app.js:822-835 | absent exactly when no prediction has a confidence, otherwise one to five picks |
| Aggregate.BuildSummaryBar | app.js:442-447 | grouping by pick and ranking the groups gives exactly the pick bar |
| Aggregate.SummaryBarCounts | app.js:442-447 | segments in non-increasing size, each a pick (or `'Other'`) with its number of predictions, every pick present, sizes adding up to the number of predictions |
| Aggregate.SummaryBar | app.js:442-447 | segments are in non-increasing size |
| Aggregate.ByConfidenceOrder | app.js:340-344 | a permutation in non-increasing confidence with missing as -1, stable among equal ranks, no unrated prediction before a rated one of confidence 0 or more |
| Aggregate.ByConfidence | app.js:340-344 | a permutation of the block in non-increasing confidence, missing counting as -1 |
| Normalize.TrimIfText | app.js:891-895 | strings are trimmed, other values pass through |
| Normalize.FillId | app.js:890-900 | a non-nullish id is kept and a nullish one replaced by a generated id |
| Normalize.NormalizeGames | app.js:887-925 | normalisation completes exactly when no game and no prediction entry is `null` or `undefined` (the throw of `String` and `Number` on an object with its own `toString` key is not modelled, see Left out) |
| Normalize.NormalizeGame | app.js:888-923 | the game has a non-nullish id, one prediction per raw prediction, and no record key among its extra keys |
| Normalize.NormalizePrediction | app.js:899-922 | the prediction has a non-nullish id and no record key among its extra keys (a string entry's `link` reads as `undefined`, see Left out) |
| Normalize.SpreadOfText | app.js:889 | `...s` on a string gives exactly one key per character, its decimal index, holding that one-character string |
| Normalize.SpreadOfArray | app.js:889 | `...xs` on an array gives exactly one key per element, its decimal index, holding that element |
| Normalize.IndexKeysKept | app.js:888-899 | a string or array entry normalises, and as a game or as a prediction keeps every index key of its spread in `extra` |
| Normalize.NormalizeKeepsCounts | app.js:888-898 | the number of games, and per game the number of predictions, are kept |
| Normalize.NormalizeKeepsIds | app.js:890-900 | existing ids are kept and every game and prediction has an id |
| Normalize.NormalizeTagsClean | app.js:896 | a non-array gives no tags; kept tags are truthy, and trimmed and non-empty when strings; every tag truthy after trimming is kept |
| Normalize.ConfidenceAbsent | app.js:913-915 | absent, `null` and `''` give no confidence, though `Number` would read the last two as 0 |
| Normalize.ConfidenceOfNumber | app.js:916-918 | a number is kept when finite, dropped otherwise |
| Normalize.ConfidenceOfText | app.js:919-920 | white-space text reads as 0, other text as the parsed trimmed text |
| Normalize.ConfidenceFromNumber | app.js:912-921 | a confidence is what `Number` made of the value; none means absent, `''` or not finite |
| Normalize.MarketEmptyIff | app.js:902-907 | the market is empty exactly for a falsy value, blank text, or an array that stringifies empty |
| Normalize.MarketTrimmed | app.js:902-907 | a string or falsy market normalises to trimmed text |
| Normalize.TagsFixed | app.js:896 | clean tags come back unchanged |
| Normalize.PredictionFixed | app.js:899-922 | a prediction in normal form comes back unchanged |
| Normalize.GameFixed | app.js:888-923 | a game in normal form comes back unchanged |
| Normalize.NormalFormFixed | app.js:887-925 | a board in normal form comes back unchanged |
| Normalize.PredictionNormalized | app.js:899-922 | a normalised prediction is in normal form when its market came out trimmed |
| Normalize.GameNormalized | app.js:888-923 | a normalised game is in normal form when its markets came out trimmed |
| Normalize.NormalizeIdempotent | app.js:887-925 | normalising the output again gives the same games, with any ids and parser |
| Normalize.MarketNotIdempotent | app.js:902-907 | a market `[' x']` stringifies to `' x'`, which a second pass trims to `'x'` |
| BoardState.FirstIndex | app.js:505 | finds the first record with the id, or reports that none has it |
| BoardState.FirstIndexAt | app.js:547 | the search finds the first record with the id |
| BoardState.Without | app.js:606 | the filter never lengthens |
| BoardState.WithoutMembers | app.js:606 | what is left has no record with the id and keeps every other record |
| BoardState.WithoutCount | app.js:606 | the filter is shorter by the number of records with the id |
| BoardState.WithoutAppend | app.js:614 | filtering distributes over concatenation, so order is kept |
| BoardState.WithoutAbsent | app.js:614 | filtering out an id no record has changes nothing |
| BoardState.TrimEach | app.js:495 | each part is trimmed |
| BoardState.NonEmptyMembers | app.js:496 | exactly the non-empty parts are kept |
| BoardState.FormTagsClean | app.js:492-496 | each tag from the form is non-empty, trimmed and free of commas |
| BoardState.FormTagsOfEmpty | app.js:492-496 | an empty tags field gives no tags |
| BoardState.FormTagsRoundTrip | app.js:492-496 | the tags text the edit dialog shows, `tags.join(', ')` at app.js:628, splits back into the same tags |
| BoardState.SaveGameRejected | app.js:500-503 | a game save is refused, with the board unchanged, exactly when a trimmed team name is empty |
| BoardState.PutGameReplaces | app.js:505-508 | an id match replaces the first such game, keeping its predictions |
| BoardState.PutGameAppends | app.js:505-510 | a new id appends the game |
| BoardState.PutGame | app.js:505-511 | the board grows by at most one game and holds a game with the payload's id |
| BoardState.SaveGameResult | app.js:486-511 | a save either succeeds or is refused for missing teams, and a refusal leaves the board unchanged |
| BoardState.SaveGameReplaces | app.js:486-508 | saving over an existing id replaces only that game with the form's game, keeping its predictions |
| BoardState.SaveGameAppends | app.js:486-511 | saving a new id appends exactly the form's game, with no predictions |
| BoardState.FormConfidence | app.js:532-537 | an empty slider gives no confidence, blank text 0, other text the parsed trimmed text |
| BoardState.Merge | app.js:555 | `{...old, ...payload}`: the payload's fields win and only the old record's other keys stay |
| BoardState.SavePredictionGuards | app.js:522-551 | refused, with the board unchanged, for no selected game, then an empty source or pick, then an unknown game, and saved otherwise |
| BoardState.SavePredictionScope | app.js:547-557 | a save changes only the first game with the id, and only its predictions |
| BoardState.PutPredictionMerges | app.js:553-555 | an id match merges into the first such prediction and keeps every other |
| BoardState.PutPredictionAppends | app.js:553-557 | a new id appends the payload |
| BoardState.PutPrediction | app.js:553-557 | the list grows by at most one prediction and holds one with the payload's id |
| BoardState.SavePredictionResult | app.js:522-557 | the number of games is kept, and any refusal leaves the board unchanged |
| BoardState.DeleteGameRemoves | app.js:604-609 | deleting removes every game with the id and nothing else, in order |
| BoardState.WithoutGame | app.js:606 | no remaining game has the id, each comes from the board, and the board never grows |
| BoardState.DeletePredictionScope | app.js:611-617 | only the first game with the id loses the predictions with that id; without that game nothing changes |
| BoardState.DeletePredictionAbsent | app.js:611-617 | deleting an id the game does not have changes nothing |
| BoardState.WithoutPredictionIn | app.js:611-614 | the games and their ids stay in place; only predictions can go |
| BoardState.Board.constructor | app.js:3-4 | the board starts with the given games |
| BoardState.Board.SaveGame | app.js:482-511 | `handleGameSubmit` leaves the outcome and board that the save function gives |
| BoardState.Board.SubmitGame | app.js:500-511 | the guard and upsert leave the outcome and board the payload save gives |
| BoardState.Board.SavePrediction | app.js:519-557 | `handlePredictionSubmit` leaves the outcome and board that the prediction save gives |
| BoardState.Board.DeleteGame | app.js:606 | the board becomes the filtered board |
| BoardState.Board.DeletePrediction | app.js:612-614 | the board becomes the board with that game's prediction filtered out |
| BoardState.Board.Load | app.js:941-962 | a load succeeds exactly when there is a `games` array that normalises, and then replaces the board with the normalised games; otherwise the board is unchanged (apart from the `toString` throw listed under Left out) |

## Left out

- Floating point: confidence is an integer, and percentages are computed exactly from integers. `Math.round(count / total * 100)` of a double can differ from the exact rounding at a few exact halves.
- Unicode: `toLowerCase` is modelled on ASCII letters only. Strings are sequences of characters, with no UTF-16 encoding.
- JavaScript equality and identity. `===` on ids and `Map` keys is structural equality of values here, so two distinct objects with the same contents count as equal. `NaN` never comes up because confidence is absent instead.
- `Number(x)` for strings is a supplied function `parse`.
- `generateId` is a supplied function of the position being filled.
- The UI side of the script: DOM, dialogs, forms, event binding, `alert`, `confirm` and `handleGameAction`.
  - The form fields are taken to be strings.
  - Which game or prediction is being edited is passed as an id.
  - `deleteGame` is modelled after the user has confirmed.
  - A prediction form confidence that reads as infinite gives no confidence here. The source would keep `Infinity`.
- Storage and files: `localStorage`, `JSON.parse`, export and `FileReader`. `Board.Load` takes the already parsed document. When the document has no usable `games` array, the board is left unchanged. In that case `hydrate` in the source falls back to `sampleSlate`, which is not part of this model.
- `colorForString`, `formatMatchup` and the `sampleSlate` data.
- The rendering-only `groupBy` of predictions by market in `renderGameCard` (app.js:276). It is the same `GroupBy` with another key.
- Sorting is modelled on values, as a stable insertion sort. It does not model `sort` working in place on an array.
- `normalizeGames` on a `null` or `undefined` game or prediction entry is modelled as having no result. The source throws, and its callers catch the throw.
- Consensus.ConsensusOf: requires every truthy pick to be a string (`TextPicks`). `(pick || 'Other').trim()` throws on any other truthy pick, and that throw is not modelled. The same requires, on one game's picks or on the whole board (`TextBoard`), is on Consensus.BuildConsensusSummary, Consensus.ConsensusIsPlurality, Consensus.Candidates, Consensus.ConsensusLeaders and every member built on them.
- Json.ToString and Normalize.ToNumber convert an object to `"[object Object]"` and to no finite number (`None`), as for an object without its own `toString`. In JavaScript `String(v)` and `Number(v)` throw a `TypeError` when `v`, or an element of an array `v`, is an object with its own `toString` key, because no JSON value is callable. That throw is not modelled.
- Normalize.NormalizeGames: does not model the throw of `String(prediction.market)` (app.js:906) or `Number(prediction.confidence)` (app.js:919) on such an object. It gives a result where the source throws, for example on `{"market": {"toString": "x"}}` as a prediction entry.
- BoardState.Board.Load: for the same reason it reports success and replaces the board where `handleImportFile` (app.js:950-955) catches the throw, alerts and leaves the board unchanged.
- Search.FilterGame: `join(' ')` (app.js:200) throws on a tag, team name or other field that is such an object. The model converts it to `"[object Object]"` and matches against that.
- Json.Get: reads only an object's own fields. Inherited properties of primitive values are not modelled: on a string, `link` is `String.prototype.link`, a function, which is not a JSON value. The other keys the records read are not inherited by strings, numbers, booleans or arrays.
- Normalize.NormalizePrediction: for a string prediction entry the source keeps the inherited function `String.prototype.link` as `link` (app.js:911). The model reads `link` as `undefined` there.
- Normalize.NormalizeIdempotent: requires every normalised market to come out trimmed. This is weaker than full idempotence, which fails as `Normalize.MarketNotIdempotent` shows.
- Search.FilterOnlyInField: stated for needles without a space only. A needle with a space can span two joined fields.

## Behaviour of the code worth knowing

- Tags: `normalizeGames` keeps any truthy tag (app.js:896). So a number or an object tag survives normalisation. Only string tags are trimmed, and only falsy tags are dropped.
- Team names: only the game form refuses an empty home or away team (app.js:500-503). `normalizeGames` accepts a game whose team names are empty or missing.
- Idempotence of `normalizeGames` holds only when every market comes out trimmed, as `Normalize.MarketNotIdempotent` shows.
- A string or array entry in `games` is spread like an object (app.js:889, app.js:899). Its index keys, `"0"`, `"1"` and so on, are copied into the record, as `Normalize.IndexKeysKept` states.
