# Models of four cores of the terminal multiplexer's repository

Four self-contained libraries of the repository are modelled and proved here: the Unicode Bidirectional Algorithm
in `bidi`, the frame codec of the mux protocol in `codec` with its hyperlink extraction, the streaming basE91 coder in
`base91`, and the zipper over binary trees in `bintree`. Where the source changes state in loops, the model has
methods with the same loops, proved against functions and predicates; what the source promises is then proved about
those, for all inputs.

## How the files hang together

- `BidiTypes`, `LevelStack`, `ParagraphLevel`: classes, levels, the bounded stack, rules P2 and P3.
- `ExplicitLevels` is rules X1 to X8 as a state machine with what it keeps over every run, `EmbeddingPairs` says what a
  PDF closes and what an initiator governs; `ExplicitPass` is the loop.
- `LevelRuns` is rule X10 as a definition and why it partitions the text, `SequenceBorders` gives sos and eos from the
  levels; `RunsPass` holds the loops.
- `ChainRules` defines rules W1 to N2 as simultaneous rewrites, `RuleMeanings` says the same in the words of UAX #9 and
  `WeakMeaning` what W1 to W7 do together; `ChainPasses` holds the in-place loops, `ChainViews` relates a chain of
  indices to the paragraph.
- `IsolateLinks` shows that the greedy search of rule X10 links isolates as definition BD13 asks.
- `Brackets`, `BracketRules`, `BracketPass`: definition BD16 and rule N0, which `BracketMeaning` and `PairMeaning` give
  in words.
- `Resolution` puts the rules together and `BidiContext` is the class that runs them; `StrongTypes` is what all the
  rules leave alone.
- `MarkDeviation`, `BracketMark` and `Deviations`: where the code departs from UAX #9, and what comes of it.
- `LineLevels` (rule L1 and the run iterator) and `LineReversal` (rule L2).
- `Leb128`, `Frame`, `Stream`, `StreamSessions`: numbers, frames, the growing buffer, whole sessions. `Hyperlinks`.
- `BitStrings`, `Base91`: accumulators read as bit strings, and the coder. `KnownVectors`: encodings spelled out.
- `Bintree`, `BintreeWalks`, `BintreeRuns`: moves and edits, stackless walks, every sequence of operations.

Levels are integers from -1 (deleted by rule X9) to 127. A vector that the source mutates is a variable or field of
type `seq` that is reassigned; the fixed arrays of the two stacks and the slots that rule L2 reverses are arrays.

## What the proofs found

- Rule L2: `reverse_levels` starts its search for the lowest odd level at 126. A line without an odd level up to 125
  but with two neighbouring kept characters at 126 is reversed although rule L2 leaves it alone
  (`LineReversal.ReverseLevels`); `Deviations.DeepDigitsAreSwapped` gives a paragraph.
- Rules X5a and X6a: `push` drops an entry silently when 125 are stacked, but `valid_isolate` still counts it. A PDI
  then unwinds one isolate too many for each that was dropped, and runs off the stack when there are not that many
  (`ExplicitLevels.MatchingPdiUnwinds`, `PanicsExactlyAt`); `DeepIsolatePanics` gives a paragraph.
- Rule X7: by the same silent drop, the PDF of an embedding that met a full stack closes the embedding around it
  (`EmbeddingPairs.MatchingPdfRestores`); `DroppedEmbeddingCloses` gives a paragraph.
- Rule W1: a mark behind an isolate initiator or a PDI takes the class of that control, where UAX #9 says ON. No class
  in the end depends on it (`MarkDeviation`).
- Rule N0: a bracket stack overflow returns from the whole pass, so that later sequences keep their brackets
  unresolved (`Resolution.FinalViewIs`), although the comment above `resolve_paired_brackets` says that an overflow
  concerns its own sequence only; `Deviations.SecondIsLeftAlone` gives a paragraph.
- Rule N0: what follows a resolved bracket changes with it if its class before the overrides was nonspacing mark, where
  the rule asks for the class before rule W1. So a mark in a directional override can lose the direction that the
  override forces (`StrongTypes.StrongStaysExactly`); `BracketMark.MarkIsTurned` gives a paragraph.
- `postorder_next` visits a node before its children: its order is the postorder read backwards
  (`BintreeWalks.RightFirstIsPostorderBackwards`).
- `stream_decode` takes an end of file inside the payload of a complete frame for an end of the input. It then asks
  for more for good, and a session delivers nothing further (`StreamSessions.StalledSession`).

## Model

| member | source | states |
|---|---|---|
| BidiTypes.LeastGreaterEven | bidi/src/level.rs:33-44 | the least even level above the given one that is at most 125; no level if and only if there is none |
| BidiTypes.LeastGreaterOdd | bidi/src/level.rs:46-57 | the same for odd levels |
| LevelStacks.LevelStack.Push | bidi/src/level_stack.rs:35-51 | appends an entry, or changes nothing at all once 125 are stacked |
| LevelStacks.LevelStack.Pop | bidi/src/level_stack.rs:53-57 | drops the topmost entry, if there is one |
| ParagraphLevels.ParagraphLevel | bidi/src/lib.rs:1840-1866 | rules P2 and P3: the level of the first strong character outside every isolate, where isolates are given by counting initiators and PDIs on stretches of text; for an FSI the search ends at the PDI that closes it |
| ParagraphLevels.EnclosedIffOpen | bidi/src/lib.rs:1840-1866 | the running counter of the code is positive exactly inside an open isolate, whatever stray PDIs came before |
| ExplicitLevels.LevelsIncrease | bidi/src/lib.rs:1316-1484 | levels increase strictly up the stack and stay at most 125 |
| ExplicitLevels.BaseIsLowest | bidi/src/lib.rs:1316-1484 | the bottom entry is the base level and no isolate; the depth is bounded by the top level |
| ExplicitLevels.StepKeeps | bidi/src/lib.rs:1328-1484 | every character keeps the stack invariant and the base entry, and counts the isolates on the stack except the dropped ones; it can only panic if some were dropped |
| ExplicitLevels.IsolatesAreCounted | bidi/src/lib.rs:1316-1484 | over every run: `valid_isolate` exceeds the isolate entries on the stack by exactly the number of initiators that met a full stack |
| ExplicitLevels.OpenAreCounted | bidi/src/lib.rs:1382-1454 | over every run: the two isolate counters add up to the isolates that are open by definition BD9, and these to the overflowed, the stacked and the dropped ones |
| ExplicitLevels.PanicsExactlyAt | bidi/src/lib.rs:1435-1454 | the pop loop runs off the stack if and only if some PDI has isolates to close and all of them were dropped |
| ExplicitLevels.SmallParagraphsNeverDrop | bidi/src/lib.rs:1316-1484 | with base level 1, or at most 124 initiators, no entry is ever dropped and the PDI loop never runs off the stack |
| ExplicitLevels.DeepIsolatePanics | bidi/src/lib.rs:1435-1454 | the paragraph for which it does: 124 nested embeddings from base level 0, then an RLI and a PDI |
| ExplicitLevels.MatchingPdiUnwinds | bidi/src/lib.rs:1382-1454 | with d isolates dropped between an initiator and its matching PDI, the PDI restores the state if d is 0, otherwise unwinds d of the isolates around the initiator to a strictly lower level, and the code panics by then if and only if there are fewer than d |
| ExplicitLevels.MatchingPdiRestores | bidi/src/lib.rs:1382-1454 | a PDI restores the whole state before the initiator it matches (definition BD9), whatever stands between, if and only if no isolate initiator from that one on was dropped by a full stack |
| ExplicitLevels.MatchingPdiLevel | bidi/src/lib.rs:1435-1454 | a PDI that does not panic gets at most the level of the initiator it matches, and the level and override of that initiator if and only if no isolate initiator from it on was dropped |
| ExplicitLevels.InitiatorOpens | bidi/src/lib.rs:1334-1433 | an initiator that takes effect pushes one entry with the least greater odd or even level, by the kind of initiator, and its override; the next character stands there, and a PDI directly behind an isolate initiator is back at the level of the initiator |
| ExplicitLevels.FsiLooksInside | bidi/src/lib.rs:1409-1417 | an FSI opens an odd level if and only if the first strong type in its isolate, other isolates skipped, is R or AL |
| ExplicitLevels.UnmatchedPdiStays | bidi/src/lib.rs:1435-1440 | a PDI outside all isolates changes nothing |
| EmbeddingPairs.BalancedRestores | bidi/src/lib.rs:1316-1484 | a stretch that closes what it opens, closes nothing else and drops nothing leaves stack and counters as they were, whatever they were |
| EmbeddingPairs.MatchingPdfRestores | bidi/src/lib.rs:1334-1381 | the PDF that matches an embedding or override initiator (definition BD11, by counting, with isolates between skipped) restores the whole state before the initiator, accepted or not, if and only if the full stack dropped no isolate on the way, and no embedding either unless none is there to be closed in its place |
| EmbeddingPairs.RejectedPdf | bidi/src/lib.rs:1455-1468 | behind an initiator that overflowed, the matching PDF undoes the overflow |
| EmbeddingPairs.PdfClosesOpen | bidi/src/lib.rs:1455-1468 | at the base, or directly in an isolate, a PDF changes the state if and only if an embedding is open there by counting; with none open it changes nothing |
| EmbeddingPairs.DroppedEmbeddingCloses | bidi/src/lib.rs:1455-1468 | the paragraph that shows the exception: behind 124 nested embeddings, the PDF of one more closes the last of the 124 |
| EmbeddingPairs.InitiatorGoverns | bidi/src/lib.rs:1334-1484 | everything directly in an embedding, override or isolate stands at the level that its initiator opens, and is R in an RLO and L in an LRO; a paragraph separator keeps its class, at the base level |
| EmbeddingPairs.BaseGoverns | bidi/src/lib.rs:1316-1484 | everything outside all embeddings and isolates keeps its class, at the base level |
| ExplicitPass.PopPastIsolate | bidi/src/lib.rs:1442-1448 | the pop loop removes everything down to and including the topmost isolate, and fails exactly if there is none |
| ExplicitPass.Machine.EmbedNext | bidi/src/lib.rs:1334-1381 | rules X2 to X5 on the stack and its counters |
| ExplicitPass.Machine.IsolateNext | bidi/src/lib.rs:1382-1433 | rules X5a to X5c |
| ExplicitPass.Machine.CloseNext | bidi/src/lib.rs:1435-1450 | rule X6a, with the panic as an outcome |
| ExplicitPass.Machine.PopDirectionalFormat | bidi/src/lib.rs:1455-1468 | rule X7 on the stack and its counters; what a PDF closes in the text is `EmbeddingPairs.MatchingPdfRestores` and `PdfClosesOpen` |
| ExplicitPass.ExplicitEmbeddingLevels | bidi/src/lib.rs:1316-1484 | the loop computes the state machine: it ends if and only if no step panics, and then every kept character has its explicit level and class, whatever the reused `levels` held |
| ExplicitPass.DeleteFormatCharacters | bidi/src/lib.rs:1487-1501 | rule X9: exactly the six classes lose their level, nothing else changes |
| RunsPass.SpanOneRun | bidi/src/lib.rs:1793-1835 | the longest span of one level, across deleted characters |
| RunsPass.IdentifyRuns | bidi/src/lib.rs:1504-1547 | the list of all level runs, each with sor and eor; `SequenceBorders` says what these are from the levels alone |
| LevelRuns.RunsFromAreRuns | bidi/src/lib.rs:1504-1530 | level runs are adjacent, maximal and of one level; only deleted characters are outside them |
| LevelRuns.RunsCover | bidi/src/lib.rs:1504-1530 | every kept character lies in a run |
| LevelRuns.RunsAscend | bidi/src/lib.rs:1504-1530 | level runs are disjoint and ascending |
| RunsPass.CollectSequence | bidi/src/lib.rs:1590-1639 | the look-ahead loop finds exactly the runs that continue a sequence, and marks them and no others |
| RunsPass.IdentifyIsolatingRunSequences | bidi/src/lib.rs:1590-1694 | all sequences of rule X10, with their text chains, sos and eos |
| LevelRuns.ContinuationIsSequence | bidi/src/lib.rs:1590-1639 | the runs of a sequence share one level; each after the first begins with a PDI and follows a run that ends with an isolate initiator, and is the first such run that no earlier sequence took |
| LevelRuns.SequencesPartition | bidi/src/lib.rs:1590-1639 | every run joins exactly one sequence |
| LevelRuns.ChainAscends | bidi/src/lib.rs:1644-1651 | an index chain is strictly increasing |
| LevelRuns.SequencesAreChains | bidi/src/lib.rs:1590-1694 | together the chains hold each kept index exactly once, at the level of its sequence, with L or R as sos and eos |
| SequenceBorders.SosAndEos | bidi/src/lib.rs:1532-1547 | from the levels alone: sos is the direction of the higher of the level of the sequence and that of the nearest kept character before its first one, the base if there is none; eos likewise behind its last one, with the base if that is an isolate initiator |
| SequenceBorders.ParagraphBorders | bidi/src/lib.rs:1678-1694 | the same for every sequence of every paragraph that resolves |
| LevelRuns.SequenceCounts | bidi/src/lib.rs:1590-1639 | the length that the loop adds up is the number of characters in the chain |
| IsolateLinks.LinksAreIsolates | bidi/src/lib.rs:1553-1639 | definition BD13: where every isolate initiator takes effect, with no override and no paragraph separator, two runs follow one another in a sequence if and only if the first ends with an isolate initiator and the second begins with the PDI that matches it |
| IsolateLinks.FewTakeEffect | bidi/src/lib.rs:1316-1484 | paragraphs with at most 62 initiators, no override and no paragraph separator are of that kind |
| ChainPasses.ResolveCombiningMarks | bidi/src/lib.rs:520-531 | W1, done in place, equals the rule applied to all characters at once |
| ChainPasses.ResolveEuropeanNumbers | bidi/src/lib.rs:544-573 | W2 equals a simultaneous rewrite although earlier numbers have already changed |
| ChainPasses.ResolveArabicLetters | bidi/src/lib.rs:582-590 | W3, on every chain; what becomes of an Arabic letter is `WeakMeanings.NumbersInTheEnd` and `StrongTypes.StrongStays` |
| ChainPasses.ResolveSeparators | bidi/src/lib.rs:655-675 | W4 equals a simultaneous rewrite: no later separator sees one that has joined |
| ChainPasses.ResolveTerminators | bidi/src/lib.rs:697-718 | W5: numbers that spread both ways through terminators, one at a time, give the simultaneous rule |
| ChainPasses.ResolveEsCsEt | bidi/src/lib.rs:729-742 | W6 |
| ChainPasses.ResolveEn | bidi/src/lib.rs:752-777 | W7 equals a simultaneous rewrite |
| ChainPasses.ResolveNeutralsByContext | bidi/src/lib.rs:1035-1180 | N1, scanned backwards in place, equals the rule applied to the text as it was before the pass |
| ChainPasses.ResolveNeutralsByLevel | bidi/src/lib.rs:1192-1200 | N2 |
| RuleMeanings.MarksTakeClassBefore | bidi/src/lib.rs:508-531 | W1 in the words of the rule: the marks of a stretch take the class before it, or sos |
| RuleMeanings.NumbersFollowStrongType | bidi/src/lib.rs:533-573 | W2 and W7: a European number follows the last strong type before it, or sos: AN after an Arabic letter, L after an L |
| RuleMeanings.SeparatorJoinsEqualNumbers | bidi/src/lib.rs:644-675 | W4: a separator joins exactly when the nearest kept characters on both sides are numbers of one kind that it may join, and never at the border of a sequence |
| RuleMeanings.TerminatorsJoinTouchingNumber | bidi/src/lib.rs:684-718 | W5: a stretch of terminators joins exactly when a European number stands at either end |
| RuleMeanings.BlocksTakeCommonSide | bidi/src/lib.rs:1035-1200 | N1 then N2: a maximal block of neutrals takes the direction of its two neighbours, or of sos and eos, when they agree, EN and AN counting as R, and otherwise the embedding direction |
| RuleMeanings.OthersStay | bidi/src/lib.rs:1035-1200 | N1 and N2 change neutrals only |
| WeakMeanings.NumbersInTheEnd | bidi/src/lib.rs:508-777 | W1 to W7 together: a European number becomes AN behind an Arabic letter, L behind an L, and stays behind an R; an Arabic letter becomes R; strong types, Arabic numbers and neutrals stay |
| WeakMeanings.SeparatorsInTheEnd | bidi/src/lib.rs:508-777 | W1 to W7 together: a separator between two European numbers becomes what they become, a common one between two Arabic numbers joins them, and any other is ON |
| WeakMeanings.TerminatorsInTheEnd | bidi/src/lib.rs:508-777 | W1 to W7 together: the terminators of a stretch become what a European number at either end becomes, but ON behind an Arabic letter or without such a number |
| MarkDeviation.W1Deviates | bidi/src/lib.rs:508-531 | the code's W1 differs from that of UAX #9 exactly on the sequences with a mark behind an isolate control, marks and removed characters between |
| MarkDeviation.MarkBehindInitiator | bidi/src/lib.rs:520-531 | such a sequence: a mark directly behind an RLI |
| MarkDeviation.MarkDeviationIsHarmless | bidi/src/lib.rs:508-1200 | with either form of W1, rules W1 to N2 give every character the same class, for any text whose marks are not brackets |
| ChainRules.RetainingEqualsDeleting | bidi/src/lib.rs:508-777 | keeping the deleted characters in the text (section 5.2 of UAX #9) gives every other character what real deletion would, rule by rule |
| Brackets.BracketStack.Push | bidi/src/lib.rs:1913-1922 | pushes an opener, or refuses at depth 63 |
| Brackets.BracketStack.SeekMatchingOpenBracket | bidi/src/lib.rs:1942-1974 | pairs a closing bracket with the topmost opener that matches, up to the canonical equivalence of the angle brackets, and drops the openers above it |
| Brackets.AnglesAreOne | bidi/src/lib.rs:1942-1974 | an opener that waits is found by its own closing bracket and no other, except that U+232A and U+3009 count as one |
| Brackets.CloseNests | bidi/src/lib.rs:1942-1974 | a found pair nests with all earlier ones |
| BracketPass.FindPairs | bidi/src/lib.rs:806-826 | BD16 on one sequence; no result when the stack overflows |
| BracketRules.PairsNest | bidi/src/lib.rs:798-849 | for any text and any bracket table: pairs open before they close, no place is used twice, any two lie apart or one strictly inside the other, stack positions increase and the depth is at most 63 |
| BracketMeanings.MatchObeysBd16 | bidi/src/lib.rs:798-849 | definition BD16 in words: an opener and a closer pair if and only if they fit, the opener still waits, and no later opener that fits does; the stack holds exactly the openers that wait |
| BracketMeanings.Bd16IsUnique | bidi/src/lib.rs:779-797 | the words of BD16 leave no choice: any two sets of pairs that obey them are equal |
| BracketPass.SetMarks | bidi/src/lib.rs:871-937 | exactly the original nonspacing marks that directly follow a bracket take its class |
| BracketPass.SetBracketPairBc | bidi/src/lib.rs:871-937 | both brackets of a pair and those marks take the class, nothing else changes |
| BracketPass.ResolveOnePair | bidi/src/lib.rs:946-1019 | N0 b to d on one pair, in place; the class it takes is given in words by `PairMeanings.N0TakesClass` |
| BracketPass.ResolveSequence | bidi/src/lib.rs:834-848 | the pairs of a sequence are resolved in the order of their openings |
| BracketRules.PairsChange | bidi/src/lib.rs:871-1019 | N0 changes paired brackets and original marks to L or R, and nothing else |
| BracketRules.N0PairsAgree | bidi/src/lib.rs:798-1019 | the two brackets of every pair end with one class |
| PairMeanings.N0TakesClass | bidi/src/lib.rs:798-1019 | N0 b to d: when its turn comes, a pair takes the embedding direction if that stands inside; otherwise, if the opposite does, the opposite exactly if the last directional type before the pair, or sos, has it, and else the embedding direction; with neither inside both brackets stay ON |
| PairMeanings.TurnResolved | bidi/src/lib.rs:946-1019 | in its turn a pair gives its class to its brackets and to the original marks behind them, and changes nothing else |
| PairMeanings.LastPairDecides | bidi/src/lib.rs:871-1019 | for any pairs in any order: every place ends with the class of the last pair that takes it along, or as it was if none does |
| BracketRules.SortSorts | bidi/src/lib.rs:834-848 | the pairs are in the order of their openings |
| BracketRules.N0RetainingEqualsDeleting | bidi/src/lib.rs:798-1019 | N0, with its bracket matching, commutes with deleting the characters that X9 removed |
| Resolution.RulesRetaining | bidi/src/lib.rs:449-498 | W1 to N2 together commute with that deletion |
| Resolution.RulesLeave | bidi/src/lib.rs:449-498 | after N2 every kept character is L, R, EN or AN |
| Resolution.FinalViewIs | bidi/src/lib.rs:449-498 | what a sequence shows after all passes is what the rules make of it alone, with N0 if and only if characters were given and no sequence up to this one overflows its bracket stack |
| Deviations.SecondIsLeftAlone | bidi/src/lib.rs:798-849 | a paragraph whose second sequence is left alone: 64 brackets, then `a(b)` in an isolate, resolve to an R at level 1 where N0 on the sequence gives L |
| Resolution.ResolvableExactly | bidi/src/lib.rs:1316-1484 | `resolve` panics exactly on the paragraphs with a PDI that has isolates to close, all of them dropped |
| Resolution.ImplicitLevel | bidi/src/lib.rs:1203-1235 | I1 and I2: an L goes to the least even level at or above its own, an R to the least odd one, and EN and AN to the least even level above |
| Resolution.ResolutionIsUnique | bidi/src/lib.rs:449-498 | types and levels after `resolve` are determined by its arguments: a reused context gives the same as a fresh one |
| Resolution.EndToEnd | bidi/src/lib.rs:449-498 | a level is -1 exactly for the six X9 classes; every other character ends as L, R, EN or AN, between the base and 126: an L at the least even level at or above its explicit level, an R at the least odd one, a number at the least even level above |
| Resolution.HintDecides | bidi/src/lib.rs:454-463 | a fixed hint is the base level; with an automatic one rules P2 and P3 find it, with the hint as what is left when no strong type does |
| StrongTypes.RulesKeepOthers | bidi/src/lib.rs:449-498 | what W1 to W7 leave of a character stays through N0 to N2, but for neutrals and for characters that were marks |
| StrongTypes.StrongStays | bidi/src/lib.rs:449-498 | in every resolution, an L, by itself or by an override, ends as L at an even level, and an R or AL as R at an odd level, at most one above the explicit one; for every character that is not a nonspacing mark |
| StrongTypes.StrongStaysExactly | bidi/src/lib.rs:871-937 | for all characters: a strong type keeps its direction if and only if no pair of brackets turns it, taking it along as a mark |
| BracketMark.MarkIsTurned | bidi/src/lib.rs:917-936 | a paragraph that shows the exception: a mark that an RLO has made R, behind `a(b)`, ends as L at level 2 in every resolution |
| BidiContexts.ResolvePairedBrackets | bidi/src/lib.rs:798-849 | N0 over all sequences as coded: an overflow ends it for that sequence and all later ones |
| BidiContexts.ResolveTypes | bidi/src/lib.rs:449-498 | the passes W1 to N2 over all sequences leave in every chain what the rules make of it |
| BidiContexts.ResolveImplicitLevels | bidi/src/lib.rs:1203-1235 | I1 and I2 on the whole paragraph, levels that rule X9 has deleted untouched |
| BidiContexts.BidiContext.ResolveParagraph | bidi/src/lib.rs:429-441 | looks the classes up and resolves; fails exactly for the paragraphs with a PDI that has isolates to close, all of them dropped |
| BidiContexts.BidiContext.SetCharTypes | bidi/src/lib.rs:443-447 | the same for given classes, without N0 |
| BidiContexts.BidiContext.Resolve | bidi/src/lib.rs:449-498 | all passes in order, on a context that held anything before |
| BidiContexts.BidiContext.Runs | bidi/src/lib.rs:209-216 | the runs of the paragraph: ascending, disjoint, maximal, covering exactly the kept indices |
| BidiContexts.BidiContext.LineRuns | bidi/src/lib.rs:220-228 | the runs of a line after L1 |
| BidiContexts.BidiContext.ReorderLine | bidi/src/lib.rs:271-278 | the levels of a line after L1, and the order that L2 gives them |
| LineLevels.ResetWhitespaceLevels | bidi/src/lib.rs:1260-1313 | L1: the base level goes to exactly the separators and to the blanks followed only by blanks or deleted characters up to a separator or the end of the line; all other levels stay |
| LineLevels.L1Idempotent | bidi/src/lib.rs:1260-1313 | applying L1 to its own result changes nothing more |
| LineLevels.RunIter.Next | bidi/src/lib.rs:133-178 | the next maximal run of one level; it holds no deleted character |
| LineLevels.CollectRuns | bidi/src/lib.rs:96-188 | the fact the author could not prove: the runs are ascending, disjoint, maximal, cover exactly the kept indices, and always carry an empty `removed_by_x9` |
| LineLevels.BidiRun.Indices | bidi/src/lib.rs:96-128 | the indices of a run without its deleted ones; for such runs, the whole range |
| LineReversal.ReverseSlice | bidi/src/lib.rs:402-405 | the in-place reversal of a slice is its mirror image |
| LineReversal.ReversePass | bidi/src/lib.rs:375-422 | one pass reverses exactly the ranges at or above its level |
| LineReversal.ReverseLevels | bidi/src/lib.rs:334-426 | L2: each kept index once; and for kept i < j, i comes first exactly when the least kept level on i..j is even, if and only if some kept level is odd and at most 125 or no two neighbouring kept characters are above 125 |
| LineReversal.HighDigitsAreSwapped | bidi/src/lib.rs:338-338 | levels for which the code does not follow L2: two neighbours at level 126 |
| Deviations.DeepDigitsAreHigh | bidi/src/lib.rs:1203-1235 | a paragraph that has them: every resolution of 124 nested embeddings and two Arabic digits puts the digits at level 126 |
| Deviations.DeepDigitsAreSwapped | bidi/src/lib.rs:271-426 | a line that holds just these digits keeps its levels in L1 and is displayed with the two exchanged, against L2 |
| Leb128.RoundTrip | codec/src/lib.rs:153-160 | reading a written number gives it back and leaves the bytes after it |
| Leb128.PrefixIsShort | codec/src/lib.rs:153-160 | a number cut short reads as the end of the input |
| Leb128.OverflowsExactly | codec/src/lib.rs:153-160 | a written number reads as an overflow if and only if it has more than 64 bits |
| Leb128.LengthAtMost | codec/src/lib.rs:43-56 | a 64-bit number takes at most ten bytes |
| Frame.EncodeRawAsVec | codec/src/lib.rs:60-91 | decoding the buffer gives ident, serial, data and flag back, whatever bytes stand behind it; the length counts the last three parts as the number writer writes them |
| Frame.RoundTrip | codec/src/lib.rs:227-270 | decoding a frame followed by any bytes returns ident, serial, data and flag and consumes exactly the frame |
| Frame.PrefixNeedsMore | codec/src/lib.rs:227-270 | every proper prefix of a frame reports the end of the input |
| Frame.HeaderDecides | codec/src/lib.rs:227-270 | for any three numbers in front of any bytes: a length too small for serial and ident is corrupt, otherwise exactly the data that it leaves are taken, or more input is needed |
| KnownVectors.KnownFrame | codec/src/lib.rs:1139-1147 | the nine bytes of the frame in the unit test |
| Frame.DecodeStays | codec/src/lib.rs:227-270 | a frame found, or found corrupt, is not changed by bytes that arrive later |
| Stream.StreamDecode | codec/src/lib.rs:515-548 | takes a whole message off the front of the buffer, and otherwise leaves the buffer as it is |
| Stream.TryReadAndDecode | codec/src/lib.rs:550-579 | the loop over reads: outcome, buffer and remaining reads of one call |
| StreamSessions.ChunkingDoesNotMatter | codec/src/lib.rs:515-579 | repeated calls deliver what decoding all received bytes at once finds, fail as that does or as the stream ends, and keep exactly the bytes after the last whole message |
| StreamSessions.AnyTwoCutsAgree | codec/src/lib.rs:550-579 | two ways to cut the same bytes into reads deliver the same |
| StreamSessions.ExactlyTheMessages | codec/src/lib.rs:515-579 | for frames of known kinds and others, cut into reads in any way: exactly these messages and serials, in order and once each, a frame of an unknown kind as its identifier; the buffer holds the part of a frame that follows |
| StreamSessions.NeedsMoreExactly | codec/src/lib.rs:515-548 | the decoder asks for more input if and only if the frame is not whole, or it is whole, of a known kind, and its payload ends early |
| StreamSessions.FrameStalls | codec/src/lib.rs:515-548 | a frame of the second sort: any known kind with data that end before the payload does |
| StreamSessions.MalformedFails | codec/src/lib.rs:515-548 | a frame of a known kind with data that cannot be deserialised, and do not end early, is an error whatever follows |
| StreamSessions.StallsForGood | codec/src/lib.rs:515-548 | such a frame asks for more whatever follows it |
| StreamSessions.StalledSession | codec/src/lib.rs:515-579 | such a frame behind some messages: these arrive, nothing after them does, no error is reported, and every byte from the frame on stays in the buffer |
| Hyperlinks.ExtractRow | codec/src/lib.rs:1005-1082 | one row: its maximal streaks in order, its images in cell order, and its cells without either |
| Hyperlinks.SerializeLines | codec/src/lib.rs:1000-1093 | recorded ranges are non-empty, disjoint and cover exactly the linked cells; each image appears once in row and cell order and is cleared from its cell |
| Hyperlinks.ExtractData | codec/src/lib.rs:970-997 | each entry becomes one new shared object, set into exactly the cells that the entry names |
| Hyperlinks.LinksRestored | codec/src/lib.rs:970-1093 | serialising and extracting gives every cell its content and its link value back |
| Hyperlinks.SharingRestored | codec/src/lib.rs:952-1093 | two cells share a link object again if and only if they were in one streak of one row |
| Base91.DecodedEncoded | base91/src/lib.rs:38-58 | the two tables are inverse on the whole alphabet |
| Base91.Base91Encoder.Write | base91/src/lib.rs:89-115 | after any writes the output and the pending bits are those of all bytes written; at most 13 bits are pending |
| Base91.Base91Encoder.Flush | base91/src/lib.rs:117-131 | completes the encoding; flushing again writes nothing |
| Base91.Base91Decoder.Write | base91/src/lib.rs:176-206 | after any writes the output is that of all bytes received; at most 7 bits are pending |
| Base91.Base91Decoder.Flush | base91/src/lib.rs:208-216 | completes the decoding |
| Base91.CodeFits | base91/src/lib.rs:94-111 | a code is below 91 squared, and its low 13 bits tell whether it has 13 or 14 bits |
| Base91.CodeRoundTrip | base91/src/lib.rs:184-199 | a code that the decoder reads adds exactly its bits |
| Base91.EncodeDecodeInStep | base91/src/lib.rs:88-206 | after any bytes, what the decoder has out, what it has pending and what the encoder has pending are exactly the bits written |
| Base91.FilteredDecodesAlike | base91/src/lib.rs:177-183 | bytes outside the alphabet make no difference |
| Base91.EncodedIsText | base91/src/lib.rs:88-131 | encoded text holds characters of the alphabet only |
| Base91.RoundTrip | base91/src/lib.rs:88-217 | decoding undoes encoding, for all bytes and with anything outside the alphabet strewn into the text |
| Base91.SizeBound | base91/src/lib.rs:4-5 | for n bytes the encoded length L satisfies 8n <= 7L and 13L <= 16n + 12 |
| KnownVectors.KnownText | base91/src/lib.rs:234-238 | the text of the unit test: `hello` with a line feed is `TPwJh>UA` |
| Base91.EncodeAll | base91/src/lib.rs:134-144 | the convenience function, with the size bound |
| Base91.DecodeAll | base91/src/lib.rs:219-230 | the convenience function is a left inverse of encoding |
| Base91.EncodePieces | base91/src/lib.rs:88-131 | any slicing of the bytes into writes, with one final flush, gives the same text |
| Base91.DecodePieces | base91/src/lib.rs:175-217 | any slicing of the text, and of what is strewn into it, into writes gives the original bytes back |
| Bintree.MovesUndo | bintree/src/lib.rs:402-462 | up undoes left and right and is undone by them; no move changes the tree |
| Bintree.IntoTree | bintree/src/lib.rs:547-554 | gives back the tree that the cursor stands for |
| Bintree.UnsplitUndoesSplit | bintree/src/lib.rs:301-394 | taking out the leaf that any of the four splits put in restores the cursor and yields the leaf |
| Bintree.SplitUndoesUnsplit | bintree/src/lib.rs:301-394 | splitting on the same side, labelling and stepping down undoes an unsplit |
| Bintree.SplitsInsert | bintree/src/lib.rs:324-394 | a split puts one leaf directly beside the leaves of the focus, and fails exactly on the wrong kind of focus |
| Bintree.UnsplitRemoves | bintree/src/lib.rs:294-322 | an unsplit removes exactly the leaf of the focus; it fails exactly at the top and off the leaves |
| Bintree.ValuesChange | bintree/src/lib.rs:242-292 | `assign_top`, `leaf_mut` and `assign_node` change the value they name and no other leaf |
| BintreeWalks.PreorderNext | bintree/src/lib.rs:472-496 | the loop finds the next position, or the root as a failure |
| BintreeWalks.PostorderNext | bintree/src/lib.rs:506-530 | the same with left and right exchanged |
| BintreeWalks.NextIs | bintree/src/lib.rs:472-530 | from any position of a proper tree, a step goes to the next position of the listing, and after the last one fails with the root |
| BintreeWalks.WalkVisitsAll | bintree/src/lib.rs:464-530 | iterating from the root visits every position of the tree exactly once, in the order of the listing, and then fails with the root |
| BintreeWalks.RightFirstIsPostorderBackwards | bintree/src/lib.rs:498-530 | the walk of `postorder_next` is the reverse of the postorder listing |
| BintreeWalks.GoToNthLeaf | bintree/src/lib.rs:533-544 | from any position: the n-th leaf from there on, or the root as a failure |
| BintreeWalks.NthLeafFromRoot | bintree/src/lib.rs:533-544 | from the root: succeeds if and only if n is below `num_leaves`, on the leaf with exactly n leaves to its left |
| BintreeRuns.OperationsKeepProper | bintree/src/lib.rs:205-554 | every operation keeps the tree proper; moves keep the whole tree, edits change the leaves of the focus only, and how is stated for each |
| BintreeRuns.RunsStayProper | bintree/src/lib.rs:205-554 | from `new()`, every sequence of operations keeps Empty to the whole tree |

## Left out

- Rule L3 (`reorder_non_spacing_marks`) and `reordered_runs`; `ReorderLine` models `reorder_line` with L3 off.
- The generated class and bracket tables and the binary searches over them: both lookups are parameters of the context.
- Conformance of the explicit levels to UAX #9 beyond what is stated: what the code does on overflow is modelled as
  coded. Overflow of the 8-bit level type does not arise, since all levels stay at most 127.
- Trace output, `base_level` and the iterator adaptors of `bidi`; the iterator is modelled by its `next`.
- IsolateLinks.LinksAreIsolates: paragraphs with overrides, inner paragraph separators or initiators that do not take
  effect. The code ends a run at such an initiator too, and tests classes after overrides.
- BracketRules.Sort: the library sort is a function that orders the pairs by opening; no two openings are equal.
- PairMeanings.N0TakesClass: asks, like N0PairsAgree, that no bracket was a nonspacing mark; LastPairDecides does not.
- BracketRules.N0PairsAgree: asks that no bracket was a nonspacing mark, which holds of the bracket table; the table is
  a parameter here.
- Frame.RoundTrip: frames of 2^63 bytes and more, whose length would reach into the flag. Lengths are not bounded by
  the memory of a machine, and the allocation of the data before it is read is not modelled.
- Leb128.RoundTrip: the number reader and writer are a library that is not part of the sources; the model follows
  section 7.6 of DWARF 4 and the library's limit of 64 bits.
- Payload serialisation (varbincode, zstd) and the list of message structs: an abstract pair of functions that inverts
  on the messages at hand. Reads fill at most 4096 bytes; the model allows any size.
- Stream.StreamDecode: the raw pointer copy that shifts the buffer; the buffer is a sequence. The asynchronous readers
  and writers, metrics and logging.
- Hyperlinks.ExtractRow: terminal cells are a content, an optional link object and a list of images; the fields of an
  image and its hash are one value.
- Base91.Base91Encoder.Write: the underlying writer is a byte sequence that never fails, and `flush` on drop is left
  out. `|=` on disjoint bits is addition; the accumulators stay far below 64 bits.
- Bintree.ValuesChange: `leaf_mut` hands out a reference; the model writes the new value at once, without aliasing.
- `node_mut`, `path_to_root` and the accessors `is_left`, `is_right`, `is_top`, `subtree`: easy members.
- Configuration, Lua, fonts, windows, ssh and all other crates of the repository.
