# housing-mbti scoring core, modelled in Dafny

housing-mbti is a housing-personality quiz. The user answers fifteen
questions. Each answer selects an option, and each option carries category
tags (location, cost, lifestyle, building, security, screening). The tags are
collected, and every housing type of a catalog is scored against them. The
best type wins, and the top types are ranked. The answers can be packed into
a short hexadecimal share code and unpacked again, and a short base-36 result
id is derived from them by a 32-bit string hash.

This project models that core:

- `questions.dfy` holds two modules.
  - `Questions`: the fifteen-question bank (ids, option ids and tags; no
    texts) and `aggregateTags`, as a `forEach` loop over the bank that
    pushes the selected option's tags.
  - `QuestionsProperties`: what the aggregation promises.
- `scoring.dfy` (`Scoring`) has the six category matchers, `TAG_WEIGHTS`, the
  weighted type score, and `calculateScore` with its scoring and
  best-so-far loops.
- `ranking.dfy` (`Ranking`) has `getTopMatches`: a stable sort by descending
  score followed by `slice(0, n)`.
- `codec.dfy` (`Codec`) has `encodeAnswers`, `decodeAnswers` and
  `generateResultId`, as loops proved against specification functions.
- `codec_properties.dfy` (`CodecProperties`) has the codec's shape and
  alphabet, the quiz round trip, and the hash's closed form.
- `scoring_properties.dfy` (`ScoringProperties`) has properties of the
  matchers and the type score.
- `js_runtime.dfy` (`JsRuntime`) holds the ECMAScript built-ins the code
  relies on, stated over unbounded integers:
  - `ToInt32`, `<<` and `&`;
  - `%` (truncating) and `Math.floor` division;
  - `parseInt(s, 16)`, including leading white space, sign, `0x` prefix,
    the longest-digit-prefix rule and NaN, over exact integers;
  - `Number.prototype.toString(radix)`;
  - `padStart`, `padEnd` and `slice`;
  - strings as UTF-16 code units.
- `wrappers.dfy` (`Wrappers`) has an `Option` type.

The housing-type catalog (`housingTypes`, `typeOrder`) lives in a file that
is not part of this model. It is a parameter: a map from id to tag profile,
and a sequence of ids. Scores are exact `real` numbers.

## Model

| member | source | states |
|---|---|---|
| Questions.BankShape | src/data/questions.ts:23-333 | the bank has 15 questions with ids 1..15 in order, each with two or three options lettered a, b (, c) |
| Questions.OptionIdsAreCodecLetters | src/data/questions.ts:23-333 | every option id of the bank is "a", "b" or "c", a letter the share code maps to a digit of its own |
| Questions.FindOption | src/data/questions.ts:364 | `find` returns an option of the list with the wanted id, and nothing exactly when no option has that id |
| Questions.FindOptionFirst | src/data/questions.ts:364 | the option `find` returns is the first one with the id: no earlier option carries it |
| Questions.Selected | src/data/questions.ts:361-365 | an option is selected only when the question is answered and the option has the answered id |
| Questions.SelectedIff | src/data/questions.ts:361-365 | an option is selected exactly when the answer is present, non-empty and names an option of the question |
| Questions.Contribution | src/data/questions.ts:369-386 | location, cost, security and screening contribute at most one non-empty tag; lifestyle and building contribute the option's whole list when it has one |
| Questions.GatherStep | src/data/questions.ts:360-387 | one question never removes a tag from any category, and leaves everything unchanged when it selects no option |
| Questions.Gather | src/data/questions.ts:360-387 | questions none of which has a selected option gather six empty lists |
| Questions.Push | src/data/questions.ts:367-386 | each of the six lists is extended by exactly what the option contributes to that category |
| Questions.Aggregate | src/data/questions.ts:343-390 | the value `aggregateTags` returns, the fold of the bank; six empty lists for no answers |
| Questions.AggregateTags | src/data/questions.ts:343-390 | the method returns the fold of the bank over the answers, starting from six empty lists |
| Questions.ForEachQuestion | src/data/questions.ts:351-389 | the `forEach` loop leaves the fold of every question visited so far |
| Questions.VisitQuestion | src/data/questions.ts:360-387 | one callback skips a missing, empty or unknown answer, and otherwise appends the option's tags, spreading the lists |
| QuestionsProperties.GatherNothing | src/data/questions.ts:351-362 | with no answers, any run of questions gathers six empty lists |
| QuestionsProperties.AggregateEmpty | src/data/questions.ts:351-362 | `aggregateTags({})` returns six empty lists |
| QuestionsProperties.GatherIgnores | src/data/questions.ts:360-365 | an answer that selects no option of any question changes nothing |
| QuestionsProperties.AggregateIgnoresInvalid | src/data/questions.ts:360-365 | dropping an answer that selects nothing in the bank (empty value, unknown option, key that is no question id) leaves the result unchanged |
| QuestionsProperties.GatherProvenance | src/data/questions.ts:360-387 | every gathered tag comes from the selected option of some answered question |
| QuestionsProperties.AggregateProvenance | src/data/questions.ts:360-387 | every tag of `aggregateTags` comes from the selected option of an answered bank question |
| QuestionsProperties.GatherGrows | src/data/questions.ts:360-387 | answering more questions only adds tags: each category's multiset grows |
| QuestionsProperties.AggregateGrows | src/data/questions.ts:360-387 | each category's multiset of `aggregateTags` grows with the set of answers |
| QuestionsProperties.GatherBounded | src/data/questions.ts:369-386 | a category's list is no longer than the sum of the per-question caps on what one option contributes |
| QuestionsProperties.BankCapped | src/data/questions.ts:23-333 | the bank's per-question caps hold and sum to the category capacity |
| QuestionsProperties.CappedInit | src/data/questions.ts:369-386 | per-question caps that bound a run of questions still bound the run without its last question |
| QuestionsProperties.CappedLocation | src/data/questions.ts:33-43 | only Q1, Q11 and Q13 contribute a location tag, one each |
| QuestionsProperties.CappedCost | src/data/questions.ts:57-62 | only Q2 and Q10 contribute a cost tag, one each |
| QuestionsProperties.CappedLifestyle | src/data/questions.ts:23-333 | the lifestyle caps per question follow the bank |
| QuestionsProperties.CappedBuilding | src/data/questions.ts:176-186 | only Q8 contributes building tags, at most two |
| QuestionsProperties.CappedSecurity | src/data/questions.ts:262-267 | only Q12 contributes a security tag |
| QuestionsProperties.CappedScreening | src/data/questions.ts:319-329 | only Q15 contributes a screening tag |
| QuestionsProperties.AggregateBounded | src/data/questions.ts:369-386 | at most 3 location, 2 cost, 11 lifestyle, 2 building, 1 security and 1 screening tags, whatever the answers |
| QuestionsProperties.GatherPrefixGrows | src/data/questions.ts:360-387 | the tags of a prefix of the bank are a sub-multiset of the tags of the whole bank |
| QuestionsProperties.GatherAt | src/data/questions.ts:360-387 | a selected question appends its contribution after everything gathered before it |
| QuestionsProperties.PrefixKept | src/data/questions.ts:360-387 | the tags of a shorter prefix of the questions are a sub-multiset of the tags of a longer one |
| QuestionsProperties.StepKept | src/data/questions.ts:360-387 | what the questions before j gathered, plus question j's contribution, stays inside the tags of the whole run |
| QuestionsProperties.TagKept | src/data/questions.ts:360-387 | a tag contributed by an earlier question is still present after later ones |
| QuestionsProperties.KeepsDuplicates | src/data/questions.ts:369-386 | a tag contributed by two questions occurs at least twice: duplicates are kept |
| QuestionsProperties.QuietTwice | src/data/questions.ts:33-43 | answering Q1 with b and Q11 with a puts "Quiet" twice into location |
| Scoring.MatchLocation | src/lib/scoring.ts:32-43 | in [0, 1]; 0.5 without evidence; 1 exactly on a hit; 0.7 on a miss when "Mid" is on either side, else 0 |
| Scoring.MatchCost | src/lib/scoring.ts:46-50 | 0.5 without evidence, else 1 on a hit and 0.3 on a miss |
| Scoring.CountFound | src/lib/scoring.ts:57-60 | the count of the type's tags the user has is at most the number of the type's tags |
| Scoring.FoundShare | src/lib/scoring.ts:53-78 | the share lies in [0, 1], and is the default when either side is empty |
| Scoring.LifestyleMatch | src/lib/scoring.ts:53-65 | the value `matchLifestyle` returns lies in [0, 1], and is 0.3 when either side is empty |
| Scoring.BuildingMatch | src/lib/scoring.ts:68-78 | the value `matchBuilding` returns lies in [0, 1], and is 0.5 when either side is empty |
| Scoring.MatchLifestyle | src/lib/scoring.ts:53-65 | the loop returns the share of the type's lifestyle tags the user has, 0.3 when either side is empty |
| Scoring.MatchBuilding | src/lib/scoring.ts:68-78 | the loop returns the share of the type's building tags the user has, 0.5 when either side is empty |
| Scoring.CountMatches | src/lib/scoring.ts:57-60 | the whole `typeTags.forEach` loop, as a method of its own, counts the type's tags, with their repetitions, that occur in the user's list |
| Scoring.MatchSecurity | src/lib/scoring.ts:81-90 | in [0, 1]; 0.5 without evidence; 1 exactly on a hit; 0.3 for a High user and a Normal type; 0.8 for a Normal user and a High type; 0.5 for every other miss |
| Scoring.IndexOf | src/lib/scoring.ts:100 | the first position of the value, or -1 exactly when it is absent |
| Scoring.FirstChosen | src/lib/scoring.ts:99 | the first level the user chose, or -1 exactly when no level is chosen |
| Scoring.MatchScreening | src/lib/scoring.ts:93-107 | in [0, 1]; 0.5 without evidence; 1 exactly on a hit; 0.6 one level from the lowest chosen level, 0.3 further away; 0.5 on a miss when the user chose no known level |
| Scoring.Weighted | src/lib/scoring.ts:122-137 | a match in [0, 1] times a weight lies between 0 and the weight |
| Scoring.TypeScore | src/lib/scoring.ts:110-140 | 0 for an id outside the catalog, else between 0 and 55 plus 8 per lifestyle tag of the type |
| Scoring.CalculateTypeScore | src/lib/scoring.ts:110-140 | the `score +=` sequence equals the weighted sum with weights 20, 15, 8 per lifestyle tag, 10, 5 and 5 |
| Scoring.CalculateScore | src/lib/scoring.ts:143-169 | the user tags are `aggregateTags`; exactly the ids of the order are scored, each with its type score; the chosen type is the first maximum |
| Scoring.ScoreTypes | src/lib/scoring.ts:148-151 | the scoring `typeOrder.forEach` records exactly the ids of the order, each with its type score |
| Scoring.PickBest | src/lib/scoring.ts:154-162 | the best-so-far `typeOrder.forEach` returns the first id whose score no id of the order exceeds |
| ScoringProperties.CountFoundSameSet | src/lib/scoring.ts:57-60 | the count depends only on which tags the user has |
| ScoringProperties.FoundShareSameSet | src/lib/scoring.ts:53-78 | the lifestyle and building shares depend only on the set of user tags |
| ScoringProperties.DuplicateTagIgnored | src/lib/scoring.ts:53-78 | repeating a user tag changes neither share |
| ScoringProperties.CountFoundAll | src/lib/scoring.ts:57-60 | the count is full exactly when every type tag is among the user's |
| ScoringProperties.CountFoundNone | src/lib/scoring.ts:57-60 | the count is zero exactly when no type tag is among the user's |
| ScoringProperties.FoundShareExtremes | src/lib/scoring.ts:53-78 | with both sides non-empty, the share is 1 exactly when all type tags are found, and 0 exactly when none is |
| ScoringProperties.PerfectMatch | src/lib/scoring.ts:110-140 | a type with building tags whose every tag the user chose scores the maximum 55 plus 8 per lifestyle tag |
| Ranking.Pos | src/lib/scoring.ts:240 | the first position of an id in the catalog order |
| Ranking.PosOfDistinct | src/lib/scoring.ts:240 | in a duplicate-free order, an id's first position is its position |
| Ranking.Insert | src/lib/scoring.ts:242 | one insertion step of the sort adds exactly one id and keeps the rest |
| Ranking.SortByScore | src/lib/scoring.ts:240-242 | the sort is a permutation of the copied order |
| Ranking.GetTopMatchesDefault | src/lib/scoring.ts:239 | without an `n` the default 3 applies: min(3, number of types) ids, the same as `n = 3` |
| Ranking.GetTopMatches | src/lib/scoring.ts:239-244 | min(n, number of types) ids for n >= 0 (`slice` semantics for negative n), drawn from the order without repetition beyond it; all of them when n covers the order |
| Ranking.RankedTail | src/lib/scoring.ts:242 | dropping the head of a ranked list leaves it ranked |
| Ranking.ConsRanked | src/lib/scoring.ts:242 | an id that ranks before every id of a ranked list can head it |
| Ranking.InsertRanked | src/lib/scoring.ts:242 | inserting a later id into a ranked list keeps it ranked |
| Ranking.SortPrefixRanked | src/lib/scoring.ts:240-242 | sorting any prefix of the order ranks it: higher scores first, ties in catalog order |
| Ranking.TopMatchesRanked | src/lib/scoring.ts:239-244 | the top matches have non-increasing scores, and equal scores keep catalog order |
| Ranking.PrefixRanksFirst | src/lib/scoring.ts:242-243 | in a ranked list, every id of a prefix ranks before every id after it |
| Ranking.TopMatchesAreTop | src/lib/scoring.ts:239-244 | every returned id ranks before every id of the order that is left out: a higher score, or an equal score and an earlier place |
| Ranking.TopMatchesDistinct | src/lib/scoring.ts:239-244 | the top matches never repeat an id |
| Ranking.NothingBeforeFirstBest | src/lib/scoring.ts:154-162 | no id ranks before the first maximum of the order |
| Ranking.FirstBestLeads | src/lib/scoring.ts:154-162 | the type `calculateScore` picks heads `getTopMatches` |
| Codec.SortedKeys | src/lib/scoring.ts:188 | the sorted keys have one entry per key, each a key |
| Codec.SortedKeysMembers | src/lib/scoring.ts:188 | the sorted keys are exactly the keys of the answers |
| Codec.SortedKeysIncreasing | src/lib/scoring.ts:188 | the sorted keys are strictly increasing |
| Codec.TernaryDigit | src/lib/scoring.ts:191-195 | a value maps to 1 exactly when it is b, to 2 exactly when it is c, and to 0 otherwise |
| Codec.Ternary | src/lib/scoring.ts:188-196 | one base-3 digit per answer |
| Codec.TritValue | src/lib/scoring.ts:202 | `parseInt` of one encoder digit is that digit's value, at most 2 |
| Codec.ChunkAt | src/lib/scoring.ts:201-202 | the number of the padded three-digit chunk at i is at most 26, and 0 past the end of the digits |
| Codec.ChunkValue | src/lib/scoring.ts:202 | a three-digit chunk is a number at most 26 |
| Codec.Group | src/lib/scoring.ts:203 | a chunk's number is written as exactly two characters |
| Codec.GroupDigits | src/lib/scoring.ts:203 | the two characters are hex digits whose value is the chunk's number |
| Codec.Groups | src/lib/scoring.ts:199-204 | one two-character group per three-digit chunk |
| Codec.Concat | src/lib/scoring.ts:203 | joining two-character groups gives twice as many characters as groups |
| Codec.Pack | src/lib/scoring.ts:198-204 | n base-3 digits pack into 2 * ceil(n / 3) characters |
| Codec.Encoding | src/lib/scoring.ts:187-207 | N answers encode to 2 * ceil(N / 3) characters |
| Codec.EncodeAnswers | src/lib/scoring.ts:187-207 | the method returns the packed base-3 digits of the answers in ascending key order |
| Codec.PackChunks | src/lib/scoring.ts:199-204 | the loop appends one two-character group per padded three-digit chunk |
| Codec.Trits | src/lib/scoring.ts:220-222 | NaN splits into three NaN digits; a non-negative number n splits into d0, d1, d2 with d1, d2 in 0..2 and 9 * d0 + 3 * d1 + d2 = n |
| Codec.Letter | src/lib/scoring.ts:226 | a digit decodes to a exactly when it is 0, to b exactly when it is 1, and to c otherwise, NaN included |
| Codec.ChunkLetters | src/lib/scoring.ts:224-226 | three letters, each a, b or c; c, c, c for NaN |
| Codec.LettersOf | src/lib/scoring.ts:215-226 | three letters per parsed number, each a, b or c |
| Codec.ChunkNumbers | src/lib/scoring.ts:215-217 | one parsed number per two-unit slice, the last slice possibly shorter |
| Codec.Slots | src/lib/scoring.ts:224-229 | the answers are keyed 1..min(15, number of letters) |
| Codec.SlotsStep | src/lib/scoring.ts:224-229 | one letter fills the next slot while slots remain, and is dropped after 15 |
| Codec.Decoding | src/lib/scoring.ts:210-236 | any string decodes to keys 1..min(15, 3 * ceil(units / 2)), each holding a, b or c |
| Codec.DecodeAnswers | src/lib/scoring.ts:210-236 | the result is never null: always the decoding of the string |
| Codec.DecodeCodeUnits | src/lib/scoring.ts:212-232 | the loop over two-unit slices fills the slots with the letters of every parsed number |
| Codec.PlaceDigits | src/lib/scoring.ts:224-229 | the whole `[d0, d1, d2].forEach` loop, as a method of its own, fills the next slots while `questionIndex <= 15` |
| Codec.AnswerString | src/lib/scoring.ts:173-174 | with one-character answers, the joined string has one character per answer |
| Codec.Join | src/lib/scoring.ts:174 | joining one-character answers of k keys gives k characters |
| Codec.HashStep | src/lib/scoring.ts:179-180 | one hash step stays a 32-bit signed integer |
| Codec.HashOf | src/lib/scoring.ts:176-181 | the hash of any run of code units is a 32-bit signed integer |
| Codec.ResultId | src/lib/scoring.ts:183 | at least one character, every character a base-36 digit |
| Codec.GenerateResultId | src/lib/scoring.ts:172-184 | the method returns the base-36 digits of the absolute hash of the answer string |
| Codec.HashStepAt | src/lib/scoring.ts:177-180 | one pass of the loop body takes the hash of a prefix to the hash of the prefix one unit longer |
| Codec.HashWhole | src/lib/scoring.ts:177 | once the loop has run over every unit, the prefix hashed is the whole string |
| Codec.HashCodeUnits | src/lib/scoring.ts:176-181 | the loop computes the hash of the string's UTF-16 code units |
| CodecProperties.ChunksOfThree | src/lib/scoring.ts:200 | a step-3 loop over n characters runs ceil(n / 3) times |
| CodecProperties.ChunksOfTwo | src/lib/scoring.ts:215 | a step-2 loop over n units runs ceil(n / 2) times |
| CodecProperties.SortedRange | src/lib/scoring.ts:188 | the sorted keys 1..n are 1, 2, ..., n |
| CodecProperties.TernaryOfRange | src/lib/scoring.ts:188-196 | for keys 1..n, digit i encodes answer i + 1 |
| CodecProperties.PackShape | src/lib/scoring.ts:199-204 | 2 * ceil(n / 3) hex digits, each pair the value of its chunk |
| CodecProperties.EncodingLength | src/lib/scoring.ts:187-207 | N answers encode to 2 * ceil(N / 3) characters |
| CodecProperties.EncodingGroups | src/lib/scoring.ts:198-204 | every character is a hex digit, and every pair is a number at most 26 |
| CodecProperties.ForeignLetterEncodesAsA | src/lib/scoring.ts:191-195 | an answer other than a, b, c encodes exactly like a |
| CodecProperties.LettersAreLetters | src/lib/scoring.ts:224-229 | every decoded digit is a, b or c |
| CodecProperties.DecodeShape | src/lib/scoring.ts:210-236 | any string decodes to keys 1..min(15, 3 * ceil(units / 2)), each holding a, b or c |
| CodecProperties.DecodeNonHex | src/lib/scoring.ts:217-226 | the non-hex "zz" parses to NaN and decodes to c, c, c |
| CodecProperties.TritLetterOfDigit | src/lib/scoring.ts:191-194 | the encoder's digit of a letter names that letter again |
| CodecProperties.ChunkDigits | src/lib/scoring.ts:202-222 | splitting a chunk's number into three base-3 digits gives back the chunk's digits |
| CodecProperties.GroupParses | src/lib/scoring.ts:203-217 | parsing a written group in base 16 gives back its number |
| CodecProperties.ChunkRoundTrip | src/lib/scoring.ts:199-229 | one chunk encoded and decoded gives back its three letters, padding as a |
| CodecProperties.PairValue | src/lib/scoring.ts:217 | `parseInt` of two hex digits is their base-16 value |
| CodecProperties.ParsePairs | src/lib/scoring.ts:215-217 | the decoder parses an all-hex string pair by pair |
| CodecProperties.PackNumbers | src/lib/scoring.ts:203-217 | the decoder's numbers of an encoding are exactly the encoder's chunk numbers |
| CodecProperties.PackLetters | src/lib/scoring.ts:199-229 | the letters decoded from an encoding are the encoded letters, padding as a |
| CodecProperties.RoundTrip | src/lib/scoring.ts:187-236 | for answers 1..n in a/b/c: decoding the code gives back the first min(15, n) answers, and padding slots hold a |
| CodecProperties.CompletedAnswers | src/data/questions.ts:360-365 | answers that select an option of every question are keyed 1..15 and hold a/b/c |
| CodecProperties.QuizRoundTrip | src/lib/scoring.ts:187-236 | a completed quiz decodes back to exactly its answers |
| CodecProperties.HashStepWraps | src/lib/scoring.ts:179-180 | one step `(h << 5) - h + c` then `h & h` is ToInt32(31 * h + c) |
| CodecProperties.HashIsPoly | src/lib/scoring.ts:176-181 | the hash is the 32-bit wrap of the polynomial sum of the code units in base 31 |
| CodecProperties.ResultIdShape | src/lib/scoring.ts:172-184 | 1 to 6 base-36 digits whose value is the absolute hash |
| CodecProperties.HashBound | src/lib/scoring.ts:176-183 | the absolute hash is at most 2^31 |
| JsRuntime.ToInt32 | src/lib/scoring.ts:179-180 | a 32-bit signed result congruent to the input modulo 2^32 |
| JsRuntime.ShiftLeft | src/lib/scoring.ts:179 | `a << count` is a 32-bit signed integer |
| JsRuntime.ShiftLeftWraps | src/lib/scoring.ts:179 | `a << count` is a times 2^(count mod 32), wrapped to 32 bits |
| JsRuntime.BitAnd | src/lib/scoring.ts:180 | `a & b` is a 32-bit signed integer, and `x & x` is ToInt32(x) |
| JsRuntime.AndSelfWraps | src/lib/scoring.ts:180 | the bitwise and of x's 32-bit pattern with itself, read back as signed, is ToInt32(x) |
| JsRuntime.JsRem | src/lib/scoring.ts:221-222 | `%` truncates: the remainder has the dividend's sign and magnitude below the divisor |
| JsRuntime.FloorDiv | src/lib/scoring.ts:220-221 | `Math.floor(a / b)` is the largest q with b * q <= a |
| JsRuntime.CodeUnits | src/lib/scoring.ts:178 | a string has one or two UTF-16 code units per character |
| JsRuntime.PadStart | src/lib/scoring.ts:203 | the padded length is the larger of the target and the original |
| JsRuntime.PadEnd | src/lib/scoring.ts:201 | the padded length is the larger of the target and the original |
| JsRuntime.Slice | src/lib/scoring.ts:201 | a slice is clipped to the string's end |
| JsRuntime.SliceTo | src/lib/scoring.ts:243 | `slice(0, n)` keeps a prefix of min(n, length), counting negative n from the end |
| JsRuntime.ToRadixString | src/lib/scoring.ts:183 | a single digit exactly for numbers below the radix |
| JsRuntime.ToRadixStringDigits | src/lib/scoring.ts:183 | every character is a digit of the radix, with no leading zero |
| JsRuntime.ToRadixStringRoundTrip | src/lib/scoring.ts:183 | reading the digits back gives the number |
| JsRuntime.ToRadixStringLength | src/lib/scoring.ts:183 | a number below radix^k has at most k digits |
| JsRuntime.HexDigitPrefixLongest | src/lib/scoring.ts:217 | `parseInt` reads the longest prefix of hex digits |
| JsRuntime.TrimStartSuffix | src/lib/scoring.ts:217 | `parseInt` first drops exactly the leading white space |
| JsRuntime.ParseIntHex | src/lib/scoring.ts:217 | NaN exactly when no hex digit follows the white space, sign and `0x`; a negative result only after a leading minus |
| JsRuntime.ParseIntHexTwoDigits | src/lib/scoring.ts:217 | two hex digits parse to their base-16 value |

## Left out

- The catalog `housingTypes`/`typeOrder` is defined in a file that is not part of this model. It is a parameter, and nothing is assumed about its contents.
- Scores are exact reals. IEEE-754 rounding of `0.7 * 20`, `matches / length` and the sums is not modelled, so ties that floating point might break are kept as exact ties.
- Scoring.CalculateScore: requires a non-empty `typeOrder`. With an empty one the source would return an undefined type id.
- Ranking.GetTopMatches: requires every id of the order to have a score. With a missing score the comparator yields NaN and the engine's sort order is implementation-defined. The copy made by `slice()` before sorting is implicit, since the model works on values.
- Ranking.TopMatchesRanked: ranking and distinctness are stated for a duplicate-free `typeOrder`.
- ScoringProperties.PerfectMatch: requires non-empty user lifestyle and building lists and a type with at least one building tag. With an empty user list the defaults 0.3 and 0.5 apply, and a type without building tags always gets the default 0.5; in both cases the maximum is not reached.
- Answers are a map from integers. `Object.keys` returns strings that are turned back into numbers, and non-integer keys are not modelled.
- `decodeAnswers` never returns null: its `catch` branch is unreachable, because `slice`, `parseInt`, `Math.floor` and `%` do not throw. Malformed input decodes to letters (NaN digits become c), and the model has no null case.
- The question and option texts, page headings, the pages, the React state, `localStorage` and routing are left out. They hold no scoring logic.
- The repository's earlier four-axis binary scoring design has no code in the modelled files, and is not modelled.
- Codec.PlaceDigits and Scoring.CountMatches each model a whole inner `forEach` loop (`[d0, d1, d2].forEach` in the decoder, `typeTags.forEach` in the matchers) as a method of its own, called from the outer loop. Scoring.ScoreTypes and Scoring.PickBest likewise hold the two `typeOrder.forEach` loops of `calculateScore`, called in turn. The order of effects is unchanged.
- JsRuntime.ParseIntHex: digits are read into an exact integer. The Number conversion of long digit strings (rounding above 2^53) is not modelled; the decoder only passes strings of at most two code units.
