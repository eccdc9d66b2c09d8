# Pai gow poker hand evaluator — a Dafny model

The repository picks the best way to split a seven-card pai gow poker hand.
The player's seven cards are split every possible way into a two-card low
hand and a five-card high hand, 21 splits in all. Each split is played
against every split of every seven-card hand the dealer could hold. The
splits are then ranked by wins, then draws. The repository has two
implementations:

- `paigow.cpp`, the parallel C++ version. Cards are rank bit masks plus a
  suit index. A `Combinations` class enumerates k-subsets of positions in
  lexicographic order and can jump straight to the i-th one. It uses the
  combinatorial number system, with `Choose` computing binomial
  coefficients. `ScoreLowHand` and `ScoreHighHand` score the two hands with
  bitwise and/or, popcount, ctz and clz. A `GameReduce` body object splits,
  plays ranges of dealer hands, joins and finally sorts the 21 player hands.
- `poker.py`, the Python prototype. Cards are two-character strings and
  `hand_value` reads hands by grouping equal faces. `evaluate_hands` plays
  the player's splits against the dealer's splits of one seven-card hand
  and returns the best, second-best and worst split.
- `tools/combinatorics.py` gives `factorial` and `choose`.

The model keeps each file's form:

- The C++ enumerator and reducer are classes over arrays, with `modifies`
  clauses, and their loops are methods proved against specification
  functions.
- `Choose`, `ScoreHighHand`, `ParseHand`, `hand_value` and the
  `evaluate_hands` loops are methods with loop invariants.
- The pure Python helpers and the scoring rules are functions with lemmas.
- Python exceptions become `Failure` values of a `Result`.

Modules and what they model:

| module | models |
|---|---|
| `Masks` | unsigned bit masks as sets of bit positions: value, popcount, ctz, clz, and unsigned comparison as lexicographic order of the set bits from the top |
| `Cards` | `Card`, `ParseCard`, `ParseHand` |
| `Binomial`, `KSubsets`, `Combinations` | `Choose`; lexicographic k-subset order; the `Combinations` class |
| `LowHand`, `HighHand` | `ScoreLowHand`, `ScoreHighHand` |
| `Tallies`, `GameReduce`, `Sorting` | the play rule, the `GameReduce` class and its sort; a stable insertion sort used by the Python side |
| `Combinatorics` | `tools/combinatorics.py` |
| `PokerCards`, `PokerScore`, `PokerRanking`, `PokerGame` | `poker.py` |

## Model

| member | source | states |
|---|---|---|
| Binomial.Binom | paigow.cpp:292-303 | the reference binomial coefficient: zero when k > n, at least one otherwise |
| Binomial.Pascal | paigow.cpp:292-303 | Pascal's rule for the reference binomial |
| Binomial.BinomAll | paigow.cpp:292-303 | there is one way to take all n items |
| Binomial.BinomSevenTwo | paigow.cpp:75-87 | there are 21 ways to take two of seven cards |
| Binomial.Choose | paigow.cpp:292-303 | the two-loop product-then-divide computation returns exactly the binomial coefficient, for every n and k including k > n |
| Binomial.QuotientIsBinom | paigow.cpp:292-303 | the falling product over k! divides exactly and equals the binomial coefficient, including the unsigned start value when k > n + 1 |
| Combinatorics.Countdown | tools/combinatorics.py:3-4 | `xrange(n, 1, -1)` lists n down to 2 and is empty below 2 |
| Combinatorics.FactorialRecurrence | tools/combinatorics.py:3-4 | factorial(0) == factorial(1) == 1 and factorial(n) == n * factorial(n - 1) |
| Combinatorics.FactorialIsProduct | tools/combinatorics.py:3-4 | factorial(n) is the product 1 * ... * n |
| Combinatorics.FactorialPositive | tools/combinatorics.py:3-4 | factorial is at least 1 for every integer, negative ones included |
| Combinatorics.FactorialsDivide | tools/combinatorics.py:7-8 | n! == C(n, k) * (n - k)! * k! for k <= n |
| Combinatorics.ChooseQuotient | tools/combinatorics.py:7-8 | the divisor of choose is positive, and choose is that floor quotient |
| Combinatorics.ChooseIsBinom | tools/combinatorics.py:7-8 | choose(n, k) equals the reference binomial coefficient for k <= n |
| Combinatorics.ChooseEndsAndSymmetry | tools/combinatorics.py:7-8 | choose(n, 0) == choose(n, n) == 1 and choose(n, k) == choose(n, n - k) |
| Combinatorics.BinomSymmetric | tools/combinatorics.py:7-8 | C(n, k) == C(n, n - k) |
| Combinatorics.ChooseAboveN | tools/combinatorics.py:7-8 | for k > n choose returns 0, except choose(0, 1) == 1 because factorial(-1) is 1 |
| KSubsets.ScanBack | paigow.cpp:134-151 | the backward scan stops at the last position that is not at its maximum, n - k + i |
| KSubsets.SuccessorNoneIffLast | paigow.cpp:134-151 | next() has no successor exactly when the subset is the last one, {n-k, ..., n-1} |
| KSubsets.SuccessorStep | paigow.cpp:134-151 | the successor is again a k-subset, and its lexicographic rank is one higher |
| KSubsets.SuccessorIsNextInOrder | paigow.cpp:134-151 | the successor is lexicographically greater, with no k-subset strictly between them |
| KSubsets.LexLessIffRank | paigow.cpp:134-151 | lexicographic order of k-subsets agrees with their rank, in both directions |
| KSubsets.RankInjective | paigow.cpp:154-178 | two k-subsets with the same rank are equal |
| KSubsets.RankBound | paigow.cpp:154-178 | every k-subset of n has rank below C(n, k) |
| KSubsets.RankPlusCns | paigow.cpp:154-178 | lexicographic rank plus the combinatorial-number value of the reflected subset is C(n, k) - 1 |
| KSubsets.NthEnumeratesAll | paigow.cpp:154-178 | every k-subset appears in the enumeration, at the position of its rank |
| KSubsets.NthDistinct | paigow.cpp:154-178 | distinct positions of the enumeration give distinct subsets |
| KSubsets.NthSuccessor | paigow.cpp:134-151 | the subset at position i + 1 is the successor of the one at position i |
| KSubsets.NthLast | paigow.cpp:134-151 | the subset at the last position is {n-k, ..., n-1} and has no successor |
| Combinations.SuccessorFromScan | paigow.cpp:134-151 | bumping the scanned position and refilling a run after it gives the lexicographic successor |
| Combinations.DecodedIsNth | paigow.cpp:154-178 | the digits the greedy decoding writes, reflected, are the subset at position i |
| Combinations.Combinations.constructor | paigow.cpp:116-125 | the enumerator starts at {0, ..., num-1} |
| Combinations.Combinations.Next | paigow.cpp:134-151 | advances to the lexicographic successor and returns true, or returns false and leaves the subset unchanged after the last one |
| Combinations.Combinations.FillRun | paigow.cpp:143-148 | keeps the prefix and makes the tail consecutive from position i |
| Combinations.Combinations.JumpTo | paigow.cpp:154-178 | returns i < C(total, num); on success the subset is the one at position i of the enumeration, and on failure it is unchanged |
| Combinations.Combinations.WriteDigits | paigow.cpp:160-172 | the greedy loop writes strictly decreasing digits below total whose combinatorial-number value is x |
| Cards.RankCard | paigow.cpp:36-40 | a rank below 13 gives a valid card with that rank |
| Cards.ParseCard | paigow.cpp:306-333 | a rank character sets exactly its own rank bit and any other sets none; a known suit character is decoded and any other gives suit 0 |
| Cards.ParseOfCode | paigow.cpp:306-333 | parsing a valid card's two-character code gives the card back |
| Cards.CodeOfParse | paigow.cpp:306-333 | a rank and a suit character parse to a valid card whose code is those two characters |
| Cards.ParsedHand | paigow.cpp:336-347 | one card per pair of characters, card j read from characters 2j and 2j+1 |
| Cards.ParseHand | paigow.cpp:336-347 | overwriting the newline with NUL and parsing two characters at a time gives one card per pair of the rest of the line, and for an odd-length rest of a newline-terminated line one more card whose suit character is that NUL |
| Cards.ReadPairs | paigow.cpp:342-343 | the loop that stops at a NUL where a card would start yields one card per pair of the characters before that NUL |
| Cards.OddLineLastCard | paigow.cpp:336-347 | a newline-terminated line with an odd-length rest gives (length + 1) / 2 cards, the last from its lone last character with suit 0 |
| Cards.ParseHandText | paigow.cpp:336-347 | the text of a hand of valid cards, with a trailing newline, parses back to the hand |
| LowHand.LowScoreValue | paigow.cpp:380-389 | a pair scores the pair bit plus its rank bit; otherwise the score is the sum of the two rank bits |
| LowHand.LowScoreSymmetric | paigow.cpp:380-389 | the low score does not depend on the order of the two cards |
| LowHand.PairOutranksNonPair | paigow.cpp:380-389 | any pair scores above any non-pair |
| LowHand.KeyLessScoresLess | paigow.cpp:380-389 | ordering by (pair, high rank, low rank) gives a smaller score |
| LowHand.LowScoreOrder | paigow.cpp:380-389 | score order is exactly (pair, high rank, low rank) order, and equal scores mean equal keys |
| HighHand.MaskShape | paigow.cpp:399-406 | the groups, pairs, trips and quads masks are nested, and their popcounts sum to five |
| HighHand.FlushIsDistinct | paigow.cpp:409-412 | a flush has five distinct ranks |
| HighHand.StraightTest | paigow.cpp:413 | the test popcount == 5 and ctz + clz == 27 holds exactly when the five ranks are consecutive |
| HighHand.ScoreCategory | paigow.cpp:392-459 | the score lies in the million-band of its poker category |
| HighHand.FourGroupsCategory | paigow.cpp:424-430 | four distinct ranks score as one pair |
| HighHand.ThreeGroupsKind | paigow.cpp:432-441 | with three distinct ranks, two pairs are category 2 and trips category 3 |
| HighHand.ThreeGroupsBand | paigow.cpp:432-441 | the three-rank scores lie in the two-pair and trips bands |
| HighHand.TwoGroupsKind | paigow.cpp:443-454 | with two distinct ranks, quads are category 7 and a full house category 6 |
| HighHand.TwoGroupsBand | paigow.cpp:443-454 | the two-rank scores lie in the full-house and quads bands |
| HighHand.HigherCategoryWins | paigow.cpp:392-459 | a hand of a higher category always scores higher |
| HighHand.NoWheel | paigow.cpp:413 | A-2-3-4-5 is not a straight |
| HighHand.HighCardDecides | paigow.cpp:409-421 | among five-rank hands of one category, the highest differing rank decides |
| HighHand.PairRankDecides | paigow.cpp:424-430 | between one-pair hands, the higher pair scores higher |
| Masks.ValueOrder | paigow.cpp:409-421 | unsigned words compare like their set bits listed from the top, compared lexicographically, and are equal exactly when those lists are |
| HighHand.ExactMasks | paigow.cpp:425-451 | the four, three-but-not-four, pairs-but-not-three and single masks are the ranks held by exactly 4, 3, 2 and 1 cards |
| HighHand.CategoryGroups | paigow.cpp:407-456 | each category has a fixed number of distinct ranks, so two hands of one category take the same case of the switch |
| HighHand.FiveGroupsKey | paigow.cpp:409-421 | with five different ranks the tie-break ranks are the ranks from the highest |
| HighHand.OnePairKey | paigow.cpp:424-430 | a one-pair hand's tie-break ranks are the pair's rank, then the other three from the highest |
| HighHand.OnePairScore | paigow.cpp:424-430 | the one-pair score packs the pair's rank above a kicker mask below 8192 |
| HighHand.TwoPairsKey | paigow.cpp:432-438 | a two-pairs hand's tie-break ranks are the higher pair, the lower pair, then the odd card |
| HighHand.TwoPairsScore | paigow.cpp:432-438 | the two-pairs score packs the higher pair's rank plus one (32 - clz), the lower pair and the odd card at 256, 16 and 1 |
| HighHand.TripsKey | paigow.cpp:432-440 | a three-of-a-kind hand's tie-break ranks are the three's rank, then the other two from the higher |
| HighHand.TripsScore | paigow.cpp:432-440 | the three-of-a-kind score packs the three's rank above a kicker mask below 8192 |
| HighHand.QuadsKey | paigow.cpp:443-448 | a four-of-a-kind hand's tie-break ranks are the four's rank, then the odd card's |
| HighHand.QuadsScore | paigow.cpp:443-448 | the four-of-a-kind score packs the four's rank and the odd card's at 16 and 1 |
| HighHand.FullHouseKey | paigow.cpp:443-453 | a full house's tie-break ranks are the three's rank, then the pair's |
| HighHand.FullHouseScore | paigow.cpp:443-453 | the full-house score packs the three's rank and the pair's at 16 and 1 |
| HighHand.FiveGroupsOrder | paigow.cpp:409-421 | in the nothing, straight, flush and straight-flush categories, score order is lexicographic order of the ranks from the top, and equal scores mean equal ranks |
| HighHand.OnePairOrder | paigow.cpp:424-430 | between one-pair hands, score order is lexicographic order of (pair, kickers from the top), and equal scores mean equal ranks |
| HighHand.TwoPairsOrder | paigow.cpp:432-438 | between two-pairs hands, score order is lexicographic order of (higher pair, lower pair, odd card), and equal scores mean equal ranks |
| HighHand.TripsOrder | paigow.cpp:432-440 | between three-of-a-kind hands, score order is lexicographic order of (three, kickers from the top), and equal scores mean equal ranks |
| HighHand.QuadsOrder | paigow.cpp:443-448 | between four-of-a-kind hands, score order is lexicographic order of (four, odd card), and equal scores mean equal ranks |
| HighHand.FullHouseOrder | paigow.cpp:443-453 | between full houses, score order is lexicographic order of (three, pair), and equal scores mean equal ranks |
| HighHand.TieBreakOrder | paigow.cpp:405-456 | within any one category, score order is lexicographic order of the ranks taken by how many cards hold them, then by rank, from the top; equal scores exactly when those ranks are equal |
| HighHand.SuitMasksCount | paigow.cpp:398-403 | the loop's mask bits are exactly the ranks of the cards it keeps |
| HighHand.HandMasksFiveCards | paigow.cpp:398-403 | leaving out the two low-hand positions gives masks holding five cards |
| HighHand.FoldSuits | paigow.cpp:398-403 | the loop builds the four suit masks of the cards outside the low hand |
| HighHand.ScoreHighHand | paigow.cpp:392-459 | the score of the five high-hand cards is the category switch over their masks, and lies in the category's band |
| Tallies.TallyVsTotal | paigow.cpp:247-256 | playing one split against s dealer splits records |s| results |
| Tallies.RangeSumSplit | paigow.cpp:264-271 | the results of a range of dealer hands are the sum of the results of its two parts |
| Tallies.RangeSumTotal | paigow.cpp:230-261 | a range of e - b dealer hands with n results each records (e - b) * n results |
| GameReduce.CompareIsStrictWeakOrder | paigow.cpp:374-377 | the comparator is irreflexive and transitive, and its ties (equal wins and draws) are transitive, as std::sort requires |
| GameReduce.SplitScores | paigow.cpp:197-214 | a seven-card hand has 21 scored splits |
| GameReduce.PlayerSplits | paigow.cpp:197-214 | the constructor's 21 player hands |
| GameReduce.DealerHandDistinct | paigow.cpp:240-241 | a dealer hand taken from a pool of distinct cards has distinct cards |
| GameReduce.HandTallyTotal | paigow.cpp:243-257 | one dealer hand gives each player split 21 results |
| GameReduce.RangeTallyTotal | paigow.cpp:230-261 | a range of e - b dealer hands gives (e - b) * 21 results |
| GameReduce.FullRunTotal | paigow.cpp:530-532 | built from the player's cards and run over all C(N, 7) dealer hands, every player split has played 21 * C(N, 7) games |
| GameReduce.PartitionJoin | paigow.cpp:218-271 | splitting a range of dealer hands, playing each part from zero and joining gives the results of the whole range |
| GameReduce.ScoreSplit | paigow.cpp:199-202 | the low and high scores of split j |
| GameReduce.GameReduce.constructor | paigow.cpp:191-215 | the 21 player hands are the splits in enumeration order, with their scores and zero results |
| GameReduce.GameReduce.Split | paigow.cpp:218-227 | the copy has the same scores and zero results |
| GameReduce.GameReduce.Join | paigow.cpp:264-271 | adds the other body's wins, draws and losses hand by hand |
| GameReduce.GameReduce.PlaySplit | paigow.cpp:247-256 | records one result against one dealer split for every player hand |
| GameReduce.GameReduce.PlayDealerHand | paigow.cpp:243-257 | plays every player hand against all 21 splits of one dealer hand |
| GameReduce.GameReduce.Accumulate | paigow.cpp:230-261 | the results grow by exactly the results of dealer hands b..e |
| GameReduce.GameReduce.Finish | paigow.cpp:274-285 | the hands are a permutation sorted by wins then draws, and best, second best and worst are read off it |
| GameReduce.SortHands | paigow.cpp:277 | the array becomes a permutation of itself in descending comparator order |
| Sorting.SortDesc | poker.py:146 | sorting keeps length and contents |
| Sorting.SortDescending | poker.py:146 | the result is in descending order |
| Sorting.SortStable | poker.py:146 | equal keys keep their original order, as Python's sort is stable |
| Sorting.NonIncreasingUnique | poker.py:36 | two descending sequences with the same contents are equal |
| Sorting.SortedKeys | poker.py:36 | sorting two permutations of each other by an integer key gives the same keys |
| PokerCards.FaceIndexIsPosition | poker.py:21-22 | a character is in the face table exactly when it has a face value, and its position is that value |
| PokerCards.CardValueTable | poker.py:21-22 | card_value is IndexError on an empty code, ValueError on an unknown face and otherwise the face value |
| PokerCards.ChunksRoundTrip | poker.py:8-9 | the two-character pieces of a line join back to the line, with only a last odd piece shorter |
| PokerCards.ParseHandsRoundTrip | poker.py:5-11 | parse_hands fails exactly on an odd number of lines; otherwise each game's two sides join back to their lines |
| PokerScore.NoFaceError | poker.py:36 | the sort raises no error exactly when every card has a face |
| PokerScore.SortedFaces | poker.py:36 | sorting keeps every card valid |
| PokerScore.RunLenIs | poker.py:38-50 | the run length is the number of leading equal values |
| PokerScore.ScanRun | poker.py:42-45 | the inner loop stops at the end of the run of values equal to the one at i, so its length is the run length |
| PokerScore.CountGroups | poker.py:38-50 | the loop produces the runs of equal values and the largest run length |
| PokerScore.ReadDigits | poker.py:54-57 | the loop folds the group values as base-15 digits |
| PokerScore.AddBonus | poker.py:59-84 | the category bonus, or the error, the branches add for the grouped hand |
| PokerScore.HandValue | poker.py:25-86 | hand_value returns the corrected score of a five-card hand, errors included |
| PokerScore.SmallScoreIs | poker.py:89-95 | the low score does not depend on card order and is 15 * high + low, plus 1000 for a pair |
| PokerScore.SmallOfOrder | poker.py:89-95 | low scores order by (pair, high face, low face), and equal scores mean equal keys |
| PokerRanking.FlushIsOneSuit | poker.py:61 | the flush test raises nothing exactly when all codes have two characters, and then holds exactly when all suits agree |
| PokerRanking.HandScoreOrderFree | poker.py:25-86 | hand_value depends only on the multiset of cards |
| PokerRanking.RunsExpand | poker.py:38-50 | expanding the counted runs gives back the sorted values |
| PokerRanking.RunsStrict | poker.py:38-50 | the runs of a sorted hand have strictly decreasing values |
| PokerRanking.GroupsAreRuns | poker.py:36-50 | the groups of a hand expand to its sorted values, have positive counts and strictly decreasing values |
| PokerRanking.FiveCardShapes | poker.py:59-82 | five cards in 1..5 groups: the largest group is 1 exactly with five groups, 2 with four groups, 2..3 with three, 3..4 with two, and 5 exactly with one |
| PokerRanking.Fold15Order | poker.py:54-57 | base-15 folding preserves lexicographic order and equality of face digits |
| PokerRanking.OrderedGroups | poker.py:52 | the groups sorted for scoring are a permutation ordered by count, then face |
| PokerRanking.ScoreSplits | poker.py:54-84 | a successful score is a tie-break below 15^5 plus a category bonus in millions |
| PokerRanking.CategoryDecides | poker.py:59-84 | a higher category bonus always gives a higher score |
| PokerRanking.TieBreakDecides | poker.py:54-84 | within one category the score orders hands by their ordered face digits, in both directions |
| PokerRanking.StraightSpan | poker.py:60 | for five strictly falling values, the straight test holds exactly when the span is four |
| PokerRanking.DistinctRuns | poker.py:38-59 | a sorted hand whose largest group is 1 has strictly falling values |
| PokerRanking.HandStraight | poker.py:59-70 | a hand of five distinct faces is a straight exactly when its highest and lowest faces differ by four |
| PokerRanking.FiveOfAKindShape | poker.py:38-57 | five equal faces make one group of five and a tie-break of the bare face |
| PokerRanking.FiveOfAKindAsWritten | poker.py:83-84 | as written, five equal faces score the bare face; corrected, they raise Cheat |
| PokerRanking.FiveAces | poker.py:83-84 | five aces score 14 as written and raise Cheat when corrected |
| PokerRanking.FourAcesAndOne | poker.py:83-84 | four aces and a one-character ace, with no repeated code, score 14 as written and raise Cheat when corrected |
| PokerRanking.AsWrittenGuardDead | poker.py:83-84 | as written, Cheat is never raised for five cards with faces |
| PokerRanking.CorrectionOnlyFiveOfAKind | poker.py:83-84 | the correction changes the result only for five equal faces |
| PokerGame.Combos | poker.py:15 | itertools.combinations gives C(|xs|, k) tuples |
| PokerGame.CombosDrawn | poker.py:15 | every combination, by index, has exactly k elements drawn from the input multiset |
| PokerGame.CombosFacts | poker.py:15 | every combination has k elements taken from the input |
| PokerGame.CombosAll | poker.py:17 | the only way to take all elements is the input itself |
| PokerGame.RemainingMembers | poker.py:16 | the remaining cards are exactly the hand's cards that are not in the low hand |
| PokerGame.RemainingSplit | poker.py:16 | for distinct cards, the low hand and the remaining cards together make up the hand |
| PokerGame.AllHandsShape | poker.py:14-18 | every split is a two-card low hand and a five-card high hand, both from the hand and disjoint |
| PokerGame.AllHandsCount | poker.py:14-18 | a hand of n distinct cards has C(n, 2) * C(n - 2, 5) splits |
| PokerGame.SevenCardSplits | poker.py:14-18 | seven distinct cards give 21 splits, each together making up the hand |
| PokerGame.RemainingFourAndOne | poker.py:16 | taking out a low pair that no other card equals leaves the other five cards in their order |
| PokerGame.OddLineChunks | poker.py:8 | the odd-length line `ACADAHAS2C3CA` parses to seven distinct codes, the last one the single character `A` |
| PokerGame.OddLineRemaining | poker.py:16 | keeping `2C 3C` low from that hand leaves `AC AD AH AS A` high |
| PokerGame.OddLineFiveAces | poker.py:8-16 | the line `ACADAHAS2C3CA` reaches a split whose high hand is five aces: 14 as written, Cheat when corrected |
| PokerGame.Collect | poker.py:100 | a successful list of scores has one score per split |
| PokerGame.CollectSpec | poker.py:100 | the scores succeed exactly when every split scores, in order; otherwise the first failing split's error is raised |
| PokerGame.ScoreAll | poker.py:100 | the loop scores the splits in order and stops at the first error |
| PokerGame.ScoreOne | poker.py:100 | a split scores its low hand first, then its high hand |
| PokerGame.PyPlayRule | poker.py:134-144 | win exactly when both hands are higher; loss exactly when one is lower and the other not higher |
| PokerGame.PyPlayVsPlay | poker.py:134-144 | the rule agrees with the C++ rule on wins; a C++ loss is a loss; they differ exactly when one hand ties and the other is lower, which the Python rule counts as a loss |
| PokerGame.TallyAgainstTotal | poker.py:121-144 | one split records one result per dealer split |
| PokerGame.PlayAgainst | poker.py:122-144 | the inner loop counts the wins, draws and losses of one split |
| PokerGame.TallyAll | poker.py:117-144 | the lists hold, for each split, its results against all dealer splits |
| PokerGame.RankedGePreorder | poker.py:146 | ordering by (wins, draws, losses) is a total preorder |
| PokerGame.EvaluateHands | poker.py:98-150 | evaluate_hands, scoring with the corrected hand_value, returns the first, second and last entries of the ranking, or IndexError with fewer than two splits |
| PokerGame.RankingSorted | poker.py:146 | the ranking holds every split once, with its index and results against all dealer splits, in descending order with ties in split order |
| PokerGame.BestAndWorst | poker.py:147-150 | best and second best are different splits with best ranked at least as high; best ranks at least as high as every split, and every split at least as high as worst, ties going to the earlier split |

## Left out

- Input and output: reading the game file (`ParseGames`, `main`), timing, and all printing (`PrintCard`, `PrintHand`, `PrintGames`, `print_hand`, and the score listing at poker.py:102-113). The low and high score sets built at poker.py:102-105 only feed that listing.
- Parallelism: the TBB `parallel_reduce` driver is not modelled. Its contract with the body object (split, play disjoint ranges, join) is modelled by `GameReduce.GameReduce.Split`, `Accumulate` and `Join`, with `GameReduce.PartitionJoin` proving the join exact.
- Machine widths: counts and scores are unbounded naturals. The source's unsigned int never overflows at the sizes it plays (C(52, 7) is below 2^32, and scores are below 9 * 10^6).
- Combinations.Combinations.constructor: requires num <= total. The source does not check this, and its unsigned arithmetic would wrap.
- Cards.ParseHand: requires a non-empty line, and a newline at its end when the rest has odd length. Without that newline the loop parses the lone last character with the terminating NUL as suit, then steps past the terminator and reads whatever bytes the buffer held before, which the model cannot know. An empty line makes the source read before the buffer; `fgets` never returns one.
- GameReduce.GameReduce.constructor: requires seven distinct valid player cards and at least seven distinct valid dealer cards. `main` does not check the input file.
- PokerScore.HandValue: requires five cards, and the low-hand score requires two. `all_hands` only produces such hands.
- PokerGame.PlayAgainst: counts one split's results in local variables and stores them once, where the source increments `wins[mine]` in place. The resulting lists are the same.
- PokerGame.EvaluateHands: scores high hands with the corrected hand_value (see "## Findings"), so a high hand of five equal faces raises `Cheat` where poker.py:83-84 as written scores it at its bare face value and goes on to rank it. Five equal faces need a repeated card code, a suit letter outside `CDHS`, or a one-character code from an odd-length line (`PokerGame.OddLineFiveAces`), since a deck holds four cards of each face. On every other hand the two scores agree (`PokerRanking.CorrectionOnlyFiveOfAKind`).
- CompareCardsDescending (paigow.cpp:368-371) is not called by the modelled code.
- inputgen.py, the random input generator, is not part of this model.
- The commented-out play rule at poker.py:123-133 is not modelled. The live rule is, and `PokerGame.PyPlayVsPlay` relates it to the C++ rule.

## Findings

| source | as written | input that shows it | evidently intended | confidence | as-written member | corrected member |
|---|---|---|---|---|---|---|
| poker.py:83-84 | the five-of-a-kind guard tests `len(counts) == 0`, which never holds for a non-empty hand; five equal faces fall through and score the bare face value | `AS AH AD AC AS` scores 14, below every pair | raise `Cheat` when all five faces are equal (`len(counts) == 1`) | not executed | PokerScore.HandScoreAsWritten, shown by PokerRanking.FiveAces | PokerScore.HandValue, which computes PokerScore.HandScore |
