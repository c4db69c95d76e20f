# A verified model of four cores of the X distribution

Dafny 4.11. `dafny verify dfyconfig.toml` checks everything; no file needs another to be named.

## What is modelled

**The regular expression matcher** (`extras/regex`). A compiled expression is a strip of operators
with relative operands (`Strip`). `Regex` has the trees that strips are emitted for and the relation
`Matches`, which says what text a tree matches, anchors included. `Automaton` and `Running` show that the
moves that `step()` makes over a strip accept exactly that language. On top of that the engine is
written as it works, in place, once for both builds: `StateVectors.States` is the set of macros, a
machine word or a byte array; then `Stepping` (`step`), `Boundary` and `Scanning` (line and word
boundaries), `SlowScan` (`slow`), `FastScan` (`fast`), `Dissection` (`dissect`), `BackrefInPlace`
(`backref`) and `Matching` (`matcher`, `regexec`). Each is proved against a specification: `Longest`,
`FirstEnd`, `LastCold`, `Dissected`, `Backtrack`, `Answer`. These follow the build at hand, with as many
rounds at a line boundary as it makes; that what it finds is a match holds always, that it finds every
match where the rounds suffice (`Segment.Exact`). `Leftmost`, `Captures`, `BackRuns` and
`Promises` prove what these specifications are worth: the intended rule is the leftmost, longest one of
section 9.1 of the Base Definitions volume of IEEE Std 1003.1. `Assembly` shows that every tree, with or
without back references, has a compiled form that meets the matcher's preconditions. `backref` has no
termination measure and is given fuel; `Ranks` and `TreeRanks` say for which expressions and texts it ends,
`Recurrence` and `FiniteCalls` exactly when a call of it does not, and `MatcherEnds` the same of the whole
matcher, with all the calls that it makes. `Exhaustive` shows where it overlooks nothing, and `Decided` that
the matcher then decides whether there is a match that the back references agree to.

**The condition variable of the WIN32 build** (`include/Xthreads.h`). `CondVar` is a step system: one
step is one system call, one test or one assignment, of any of any number of threads. `CondVarCalls`
speaks of whole calls.

**makedepend** (`config/makedepend`). `SymTables` has the sorted tables, `IncludeCache` the search for a
symbol through files that include each other in circles while tables are merged, `IncludeTables` the same
in place, `IncludeRuns` whole runs, `IncludeHistory` the same told by the events, `CacheFills` what the
merging is for; `PrIncludes` prints the dependencies; `IfExpressions`, `IfParsing`, `IfCursors` and
`IfRoundTrip` are the evaluator of `#if`, `IfOperators`, `IfSamples` and `IfLenience` what its operators,
literals and texts amount to; `Directives` and `DirectiveReader` are the groups of `#if` sections,
`TakenLines` the lines that are performed, `StrayDirectives` the files whose sections do not match up.

**pswrap's object layout** (`config/pswrap/psw.c`). `ObjectLayout`, `ObjectDecoding`, `ObjectPasses` and
`Pswrap`: two passes, each with its own work list, lay a token tree out as a flat table, and following
the lengths and offsets of section 3.14.2 of the PostScript Language Reference, third edition, leads back
to the tree.

## Where the code does not do what it is for

Seven expectations are false of the code as it is. Each has a concrete input, and a theorem over all
inputs that says when the expectation is met.

- The reported start can be too far to the right (`LateStart`). `Leftmost.LeftmostIff`: it is the leftmost
  one if and only if the guard that sets `coldp` fails behind it, up to the first end of a match.
- A boundary can be crossed incompletely in the small build, because copied anchors are not counted, and
  then a match is missed (`Recount.BuildsDiffer`). `Boundary.RoundsEndIff`: it is crossed completely if and only if every state is reached over
  no more anchors than there are rounds or, in the large build, there is a round.
- The last pass of a loop need not end where the loop ends (`GreedyLoop`). `GreedyLoop.PassesExhaustIff`: it
  does if and only if no longest pass leaves a remainder that the body cannot repeat over.
- With choices, what `backref` finds need not be a run of the whole expression (`BranchStops`).
  `BackRuns.SuccessComesTo`: it is one up to the end of a branch, and one of the whole if and only if the
  code behind can be gone through without taking text; `BranchTails.SuccessIsWhole`: always, if the
  expression is such that what stands behind its choices can be passed so.
- `backref` need not end, and then the matcher does not (`Divergence`). `MatcherEnds.EndsIff`: the matcher
  ends if and only if no call that it makes comes back to itself; `Promises.AlwaysEnds`: always, if no loop
  can be passed through without taking text.
- The search can run off the text. `FalseAlarms.LineAtEnd`: for every expression that begins with an anchor
  and may then be empty, on every text whose only beginning of a line is behind its last newline;
  `FalseAlarms.AnswersStuckIff`: if and only if all that is tried before the end is a false alarm and the
  empty match at the end is refused.
- A plain and a hexadecimal string with the same text share one address (`ObjectPasses.ClashMisreads`).
  `ObjectPasses.TableDecodesIff`: the table decodes to the tree if and only if every literal's own bytes are
  read at its address.

Two smaller ones are in `IfRoundTrip`: names that begin with `defined_`, and some character constants.
The header of `ifparser.c` promises C's precedence; within a level its grammar groups to the right, so
that `a-b-c` is `a-(b-c)`, and the model follows the code.

## Model

| member | source | states |
|---|---|---|
| Regex.EmitHolds | extras/regex/regex2.h:20-68 | The strip emitted for any tree is well formed as the header's nesting rules say: every operator stands where the relative operands of its partners point; emission only appends. |
| Automaton.SegmentScannable | extras/regex/regex2.h:25-34 | In the code of any tree no move leads out of the segment, every loop goes back at least one operator, and every chain of branches ends in its O_CH. |
| Assembly.AssembledIsCompiled | extras/regex/regex2.h:103-130 | Every tree whose groups and back references are numbered 1..nsub, no back reference being part of its own copy, has a compiled form that meets all that the matcher asks of its callers, in both builds; nsub, nplus, nbol and neol are the counts of the tree. |
| Assembly.LaidIsCompiled | extras/regex/regcomp.c:1573-1603 | It is enough that the strip is the tree's, that the numbers fit, and that nplus is the depth to which loops are nested, which is what pluscount() computes. |
| Assembly.DepthInside | extras/regex/regex2.h:125-127 | Inside the code of a tree loops are never closed more often than opened and never nested deeper than the tree says, which is what keeps the `lev` of the backtracker inside its table. |
| BackNumbers.BackParen | extras/regex/engine.c:538-540 | The first O_BACK of its number behind a back reference is the end of its own copy, at the same nesting. |
| Regex.AppendMatches | extras/regex/engine.c:394-403 | A match of one piece followed by a match of another is a match of the two pieces appended, also when a group's body is joined to its right parenthesis. |
| Strip.CloseIsClosed | extras/regex/engine.c:811-923 | The closure is closed: it contains its seed, stays in the segment, and no empty move or move on the code leads out of it. |
| Strip.CloseIsLeast | extras/regex/engine.c:811-923 | The closure lies inside every closed set with the same seed. |
| Strip.CloseUnion | extras/regex/engine.c:694-696 | The closure of a union is the union of the closures. |
| Stepping.Step | extras/regex/engine.c:811-923 | step() returns exactly the least superset of `aft` that holds the moves from `bef` and is closed under empty moves; when both vectors are one, the least superset closed under the moves on the code as well. It terminates by (states not yet set, operators left) in spite of the re-scans. |
| Stepping.ScanOne | extras/regex/engine.c:828-920 | One turn of the scan: nothing is left to add below the new pc, nothing outside the closure has been added, and the measure goes down, also when O_PLUS goes back. |
| Stepping.DoneIsClosed | extras/regex/engine.c:871-880 | When the forward scan has nothing left to add below `stop`, the set is closed, although later operators lead back to earlier ones. |
| Stepping.ScanEnds | extras/regex/engine.c:920-922 | What the finished scan holds is the closure, neither more nor less. |
| Words.SameBits | extras/regex/regexec.c:29 | Two machine words are equal exactly when they hold the same states. |
| Words.BitsFwd | extras/regex/regexec.c:40 | Shifting the masked bit left by n adds the state n further on, and nothing else. |
| Words.BitsBack | extras/regex/regexec.c:41 | Shifting it right by n adds the state n further back, and nothing else. |
| StateVectors.States.Set1 | extras/regex/regexec.c:26-73 | Setting a state adds exactly that state, in the word and in the byte array. |
| StateVectors.States.Assign | extras/regex/regexec.c:28-75 | Assignment copies the set of states and keeps the two vectors apart. |
| StateVectors.States.Eq | extras/regex/regexec.c:29-76 | The comparison is equality of the sets of states in both representations. |
| StateVectors.States.Fwd | extras/regex/regexec.c:40-89 | Both representations add the state n further on exactly when the source holds `here`. |
| StateVectors.States.Back | extras/regex/regexec.c:41-90 | The same n states back. |
| StateVectors.States.IsSetBack | extras/regex/regexec.c:42-91 | The test that guards the re-scan sees the same state in both representations. |
| Automaton.ReEdge | extras/regex/engine.c:827-920 | Soundness of every move: whatever is still needed to match after a move was needed before it. |
| Automaton.Flow | extras/regex/engine.c:827-920 | Completeness: sets of states that follow all moves along the text carry every match of the tree from its first operator to the state behind its last. |
| Running.AcceptsLanguage | extras/regex/engine.c:739-791 | The runs begun at one place are at the end of the segment, at p, only when the tree matches the text from that place to p, with anchors judged in their context, for every expression and either build; and whenever it does, if the rounds at line boundaries suffice. |
| Running.SweepIsUnion | extras/regex/engine.c:648-700 | At each place the state set of fast() is the union of the runs begun at every earlier start. |
| Running.SweepAccepts | extras/regex/engine.c:688-690 | That set holds the end state exactly when some run begun no earlier than the scan is at the end there. |
| Running.EndsAreMatches | extras/regex/engine.c:688-690 | Then some match ends there; and exactly then, if the rounds at line boundaries suffice. |
| Boundary.RoundsReach | extras/regex/engine.c:668-672 | After i rounds by value the set holds exactly the states to which a way of empty moves and at most i open anchors leads. |
| Boundary.RoundsEndIff | extras/regex/engine.c:655-672 | The rounds end with the full fixpoint under empty moves and anchor moves if and only if there are enough of them: every state of the fixpoint is reached over no more anchors than there are rounds or, in the large build, there is a round. |
| Boundary.LargeEndsIff | extras/regex/engine.c:668-672 | In the large build that is so exactly when there is a round or the set is closed already. |
| Boundary.EnoughRoundsIff | extras/regex/engine.c:655-672 | The condition on the expression that the matcher asks for is exact: it holds if and only if the rounds end with the full fixpoint in every segment, at every line boundary, from every set of states that is closed under empty moves. |
| Boundary.StepOnBoundary | extras/regex/engine.c:655-672 | The loop itself, for every expression and both calling conventions: what it leaves, and exactly when that is the full fixpoint. |
| AnchorCounts.CountedIsEnough | extras/regex/engine.c:655-667 | There are enough rounds in both builds whenever nbol and neol are at least the numbers of OBOL and OEOL operators. |
| AnchorCounts.LargeIsEnough | extras/regex/regcomp.c:270-290 | In the large build there are enough as soon as an anchor that is used is counted once, as regcomp() does. |
| AnchorCounts.ApartIsEnough | extras/regex/engine.c:668-672 | So there are in the small build if behind every anchor stands an operator that no empty move leaves, however many copies of the anchors the strip has. |
| Boundary.CallStep | extras/regex/engine.c:670 | The two calling conventions: with words `bef` is a copy even if the caller names one vector twice, with byte arrays it is the same memory. |
| Scanning.CrossBoundaries | extras/regex/engine.c:655-686 | Line and word boundaries between two characters: the states afterwards are those that nbol and neol rounds reach in the build at hand, for every expression; the single word-boundary step changes nothing when there are no word anchors. |
| Running.CrossAtBasics | extras/regex/engine.c:655-672 | What the rounds reach lies inside the closure under the code of the boundary, and is that closure where there are enough of them. |
| Scanning.WordStepIdle | extras/regex/engine.c:674-686 | A step on BOW or EOW leaves a set that is closed under empty moves as it is, by value or aliased, when the strip has no word anchors. |
| Recount.SmallBuildMisses | extras/regex/engine.c:668-672 | For `(^){2}`, whose second anchor is a copy that regcomp() does not count, the round of the small build does not reach the end although the empty text matches; that of the large build does. |
| Recount.OnlyLarge | extras/regex/engine.c:668-672 | So that expression has rounds enough in the large build and too few in the small one. |
| Recount.BuildsDiffer | extras/regex/regexec.c:134-137 | On the empty text, which it matches, the matcher with words answers REG_NOMATCH and the matcher with byte vectors success, whatever nmatch is. |
| Recount.UncountedIsEnough | extras/regex/engine.c:668-672 | For `(^a){2}` an anchor goes uncounted too, and one round is enough in both builds. |
| SlowScan.Slow | extras/regex/engine.c:715-794 | slow() returns the last place in [start, stop] where the run from start is at the end of the segment, NULL if there is none, for every expression and either build; where the rounds suffice that is the greatest end of a match. |
| SlowScan.LongestIsAMatch | extras/regex/engine.c:778-793 | What that means: the place reported is the end of a match, rounds enough or not; and it is the end of the longest one if there are enough. |
| SlowScan.LongestMatchIsGreatest | extras/regex/engine.c:778-793 | The longest match is a match, and none from the same start, up to the limit, ends later. |
| SlowScan.DeadStaysDead | extras/regex/engine.c:780-781 | Once no run is alive none ever is again, so the early exit on the empty set loses no match. |
| FastScan.Fast | extras/regex/engine.c:624-708 | fast() returns one past the first place where any run is at the end of the segment, NULL if none is in [start, stop], and leaves in `coldp` the last place up to there where EQ(st, fresh) held; for every expression and either build. |
| FastScan.FirstEndIsFirst | extras/regex/engine.c:688-707 | What that means: some run is at the end there, and none is earlier. |
| FastScan.LastColdIsLast | extras/regex/engine.c:652-653 | `coldp` is a cold place, and no later place before the end of the scan is cold. |
| Leftmost.ColdRestarts | extras/regex/engine.c:652-653 | From a cold place on, the scan holds exactly what a scan begun there would hold. |
| Leftmost.ColdKeepsAMatch | extras/regex/engine.c:150-159 | A run that begins at or after `coldp` is at the end at the place that fast() found, so the search for the start cannot run off the text, rounds enough or not. |
| Leftmost.LeftmostIff | extras/regex/engine.c:652-653 | The start that is found from `coldp` is the leftmost start from which a run comes to the end if and only if EQ(st, fresh) fails at every place behind that start, up to the first end. |
| Leftmost.UnmaskedIsLeftmost | extras/regex/engine.c:652-653 | A condition on the expression alone that suffices for every text: no operator that takes a character leads to a state of the start closure. |
| LateStart.ReportsTooLate | extras/regex/engine.c:652-653 | Without it the claim is false in both builds: for a group of `a*` or `b`, followed by `c`, on "bc" all of the text matches, but the search for the start begins behind the `b`. |
| Dissection.Dissect | extras/regex/engine.c:231-412 | On a range that its segment matches dissect() terminates, returns `stop`, makes every recursive call on a matched range, and leaves the sub-matches of the specification `Dissected` in place. |
| Dissection.FindSplit | extras/regex/engine.c:293-305 | The search for how long a loop, option or choice could be ends with the longest length that the rest of the segment can still follow. |
| Dissection.FindLastPass | extras/regex/engine.c:334-345 | The search for the last pass of a loop, each pass as long as it can be. |
| Dissection.FindBranch | extras/regex/engine.c:366-382 | The first branch that matches all of its range is found; the walk over OOR1 and OOR2 stays inside the choice. |
| Dissection.SubEnd | extras/regex/engine.c:256-268 | The end of the sub-expression is found from the operands alone. |
| Captures.SplitSplits | extras/regex/engine.c:293-305 | If any split of the text between a piece and what follows it exists, the greatest one is found, and it is a split. |
| Captures.LastPassMatches | extras/regex/engine.c:334-345 | The last pass is a match of the loop's body inside the loop's range. |
| Captures.FirstBranchMatches | extras/regex/engine.c:366-383 | The branch that is chosen matches the whole range. |
| Captures.DissectRuns | extras/regex/engine.c:231-412 | Working through a piece comes out at a place that splits the text between the piece and what follows; every sub-match it has set is the text between the parentheses of a group of the piece, inside the range; and every group that all matches of the piece pass through has been set so. |
| Captures.OptionSets | extras/regex/engine.c:306-313 | An option whose body matches its part of the text sets the body's groups there, in particular when that part is not empty; otherwise it leaves all sub-matches alone. |
| Captures.LoopSets | extras/regex/engine.c:330-350 | A loop sets its body's groups in one pass, as long as it can be, behind which no other pass takes text. |
| Captures.ChoiceSets | extras/regex/engine.c:366-386 | A choice goes into the first branch that matches all of its part, and sets that branch's groups there. |
| GreedyLoop.PassesExhaustIff | extras/regex/engine.c:334-346 | The compiled-out assertion: the passes of a loop, each as long as it can be, come to the end of what the loop matched if and only if, at every place they come by, the longest pass leaves a remainder that more passes can take. |
| GreedyLoop.EqualPassesExhaust | extras/regex/engine.c:334-346 | So they do whenever all matches of the body are equally long. |
| GreedyLoop.PassesFallShort | extras/regex/engine.c:346 | They do not for one or more of `aa` or `aaa` on "aaaa": the loop matches all of the text and the passes end at 3. |
| BackrefInPlace.Backref | extras/regex/engine.c:419-617 | The recursive backtracker, changing `pmatch` and `lastpos` in place, returns and leaves exactly what the function `Backtracking.Backtrack` says, and stays inside both tables. |
| BackrefInPlace.GoEasy | extras/regex/engine.c:444-519 | The loop over the operators that need no choice. |
| BackRuns.EasyMoveIff | extras/regex/engine.c:444-505 | An operator that needs no choice takes what it stands for, as far as `stop`, and nothing else: a character of its own, or nothing where a line or a word begins or ends. |
| BackRuns.BackMoveIff | extras/regex/engine.c:526-541 | A back reference takes a copy of the text that its group holds, as far as `stop`, and nothing else; both directions. |
| BackrefInPlace.BackrefLoop | extras/regex/engine.c:554-564 | The end of a loop: another pass unless the last one matched null. |
| BackrefInPlace.BackrefParen | extras/regex/engine.c:586-607 | The assignment of a parenthesis is undone if the rest fails. |
| BackrefInPlace.BackrefChoice | extras/regex/engine.c:565-585 | The branches in turn, each up to its own end. |
| Backtracking.FailureUndoes | extras/regex/engine.c:419-617 | The result is `stop` or a failure; on failure the sub-matches are exactly as on entry. |
| BackRuns.BacktrackRuns | extras/regex/engine.c:419-617 | On success, for every compiled expression, there is a run from where it began to `stop` in which every operator takes what it stands for and each back reference a copy of what its group held, and the sub-matches left behind are those of that run; it comes to the stop state or, if there is a choice, to the end of a branch. |
| BackRuns.SuccessComesTo | extras/regex/engine.c:565-585 | The same, and exactly when it is a run of the whole: it goes on from the end of the branch to the stop state if and only if the code behind can be gone through without taking text. |
| BranchTails.SuccessIsWhole | extras/regex/engine.c:565-585 | A condition on the expression alone: where what stands behind every choice can be passed without text, and no copy for a back reference has a choice, the run goes on to the stop state, whatever the text and the call. |
| BranchTails.AgreesOnTheWhole | extras/regex/engine.c:167-202 | So under that condition a match reported with back references is one along a run of the whole expression. |
| Exhaustive.TriesAll | extras/regex/engine.c:419-617 | And nothing is overlooked: for expressions without choices whose loops repeat plain sequences that take text, when backref() fails no run leads to the stop state, with any sub-matches. |
| Exhaustive.Decides | extras/regex/engine.c:419-617 | So there a call on the whole of the expression, when it ends, succeeds if and only if some run leads to the end. |
| Decided.ShorterDecides | extras/regex/engine.c:174-195 | Backing off finds the longest match from its start that the back references agree to, or there is none. |
| Decided.MatcherDecides | extras/regex/engine.c:121-206 | For such expressions, if no start is masked, the matcher answers success if and only if there is a match that the back references agree to; the one reported is the leftmost of them and the longest from there. |
| DoubledCharacter.FindsDoubled | extras/regex/engine.c:121-206 | For `\(.\)\1`, on every text and in both builds: success exactly when some character is followed by itself, and the first such pair is reported. |
| Ranks.Ends | extras/regex/engine.c:419-617 | backref() ends within as many nested calls as the text left times the height of a rank, for any rank of the places in the strip that goes down with every move that takes no text. |
| TreeRanks.BackrefEnds | extras/regex/engine.c:419-617 | Such a rank exists, place by place of the text, whenever no loop of the tree can be passed through there without taking text; so backref() ends, choices included, and its depth is bounded by the length of the text times a number that depends on the tree alone. |
| Recurrence.WaitsForEver | extras/regex/engine.c:419-617 | A call does not end if and only if it waits for one that does not, the calls before it having failed. |
| FiniteCalls.NeverEndsIff | extras/regex/engine.c:419-617 | A call of backref() does not end if and only if in the middle of it some call comes back to itself: same place in text and strip, same stop state and level, same `pmatch` and same `lastpos`. The tables may hold any places of the text, also behind the stop of the call. |
| Backtracking.MoreFuel | extras/regex/engine.c:419-617 | A search that ends, ends the same way with any larger amount of fuel. |
| BranchStops.ReportsUnset | extras/regex/engine.c:565-572 | For `\(ab\)\{0,1\}\(ab\)\(c*\)\3` on "ab" the matcher answers success with the first group set and the second and third unset. |
| BranchStops.NoSuchRun | extras/regex/engine.c:565-572 | No run through that expression leaves the sub-matches so. |
| BranchStops.PatternIsWhole | extras/regex/regex2.h:20-130 | The expression is compiled as the matcher asks: strip, numbers and nesting are those of its tree. |
| Divergence.NeverEnds | extras/regex/engine.c:554-564 | `lastpos` is not restored on failure: for `\(a*\)*b\1` on "abaa" no amount of fuel is enough. |
| Divergence.NeverAnswers | extras/regex/engine.c:121-202 | fast() and slow() lead the matcher to make that call on all of the text, so it has no answer, whatever the fuel. |
| Divergence.PatternIsWhole | extras/regex/regex2.h:20-130 | The strip of that example is the code of its tree, compiled as the matcher asks. |
| Matching.Prescreen | extras/regex/engine.c:96-106 | The prescreening succeeds exactly when the `must` string occurs in the range. |
| Matching.FindStart | extras/regex/engine.c:149-159 | From `coldp` on, the first place from which slow() finds an end, with the last one. |
| Matching.StartExists | extras/regex/engine.c:146-159 | After a hit of fast() that search always ends inside the text, rounds enough or not. |
| Matching.BackSearch | extras/regex/engine.c:180-199 | Backing off to shorter and shorter matches until the back references agree. |
| Matching.Search | extras/regex/engine.c:120-202 | The main loop, with the recycling after a false alarm, computes the function `Searched`, up to a false alarm at the very end of the text (status `Stuck`). |
| FalseAlarms.LineAtEnd | extras/regex/engine.c:462-469 | That happens for every expression that begins with an anchor and may then be empty, on every text that ends with a newline and has no beginning of a line before: step() sees a line begin at the end, backref() does not. |
| FalseAlarms.AnswersStuckIff | extras/regex/engine.c:196-200 | The assertion behind a false alarm fails, and the search would go on beyond the text, if and only if there are back references, every place that is tried before the end of the text is a false alarm, and backref() refuses the empty match at the end. |
| FalseAlarms.DoubledIsStuck | extras/regex/engine.c:196-200 | For example for `^\(a*\)\1`, matched in lines, on a newline alone with REG_NOTBOL. |
| Matching.Fill | extras/regex/engine.c:204-217 | The details that are reported: the match, the sub-matches that exist, unset beyond them, and nothing behind nmatch. |
| Matching.SubjectIs | extras/regex/engine.c:82-94 | What is searched, and its flags: REG_NOTBOL is about the beginning of the range and REG_NOTEOL about its end, REG_STARTEND gives the range. |
| Matching.Matcher | extras/regex/engine.c:65-225 | On every input, with either representation, rounds enough or not, the status and `pmatch` are those of the function `Answer` for that build; a range that is upside down gives REG_INVARG. Only where dissect() has to find sub-matches are rounds enough asked for. |
| Matching.Regexec | extras/regex/regexec.c:112-138 | So they are for regexec(), which chooses the representation by the number of states. |
| Builds.AnswersAlike | extras/regex/engine.c:65-225 | Where the rounds suffice in both builds, `Answer` is the same for both, on every text. |
| Builds.BothBuilds | extras/regex/regexec.c:134-137 | So for strips of at most 32 states the two matchers return the same status and the same sub-matches on every input, back references included. |
| Promises.SucceedsIffMatch | extras/regex/engine.c:121-206 | Without back references the matcher succeeds only if some part of the text matches, for every expression and either build; and whenever one does, if the rounds at line boundaries suffice. Otherwise it answers REG_NOMATCH and leaves pmatch alone. |
| Promises.ReportsLongest | extras/regex/engine.c:146-160 | What is reported is a match; and no match from its start is longer, if the rounds at line boundaries suffice. |
| Promises.ReportsLeftmost | extras/regex/engine.c:146-160 | It begins no later than any other match, if no operator that takes a character leads to a state of the start closure and the rounds suffice. |
| Promises.ReportsLeftmostIff | extras/regex/engine.c:146-160 | Exactly when the leftmost start is reported: EQ(st, fresh) fails everywhere behind it up to the first end of a match. |
| Promises.ReportsGroups | extras/regex/engine.c:160-166 | Every reported sub-match is unset, or lies inside the match and is matched by the body of a group of its number. |
| Promises.ReportsMustGroups | extras/regex/engine.c:160-166 | A group that every match passes through, in groups and loops and in all branches of choices, is reported set, and to what such a group matched inside the match. |
| LoopGroups.LastOfEqual | extras/regex/engine.c:330-350 | For a repeated group whose matches are all equally long the last of them is what is left in the table, if the range is not empty. |
| LoopGroups.ReportsLastA | extras/regex/engine.c:160-166 | For `(a)*` the last `a` of the match is reported. |
| Promises.ReportsNoMore | extras/regex/engine.c:204-217 | Entries behind nmatch are left alone, and all of them if there is no match. |
| Promises.ReportsBackreferences | extras/regex/engine.c:167-202 | With back references a reported match is one of the automaton, and along a run of it, to its end or to the end of a branch, every back reference takes what its group held; the reported sub-matches are those of that run. |
| Promises.AlwaysEnds | extras/regex/engine.c:121-202 | The search comes to an end for every expression and text in which no loop can be passed through without taking text. |
| MatcherEnds.AlwaysAnswers | extras/regex/engine.c:121-206 | There the matcher answers success or REG_NOMATCH, except exactly where every place that it tries is a false alarm and backref() refuses the empty match at the end of the text. |
| Promises.EndsUnlessItRecurs | extras/regex/engine.c:174-195 | Each call of backref() that the matcher makes, also behind a back-off to a shorter match, ends if and only if no call comes back to itself in the middle of it. |
| MatcherEnds.MakesInTables | extras/regex/engine.c:174-195 | Every call that the matcher makes, back-offs and recycling included, lies inside the text and finds tables whose places do. |
| MatcherEnds.EndsIff | extras/regex/engine.c:121-202 | Some amount of fuel is enough for the matcher if and only if none of the calls of backref() that it makes comes back to itself. |
| Promises.FuelIsImmaterial | extras/regex/engine.c:419-617 | Any two amounts of fuel with which the matcher ends give the same answer. |
| CondVar.StepKeeps | include/Xthreads.h:131-162 | Every step of every thread keeps the invariant, and changes the list only by a push, a pop or the clearing at the end of a broadcast. |
| CondVar.PushKeeps | include/Xthreads.h:137-141 | Putting a record in front of the list keeps the list free of duplicates. |
| CondVar.SignalKeeps | include/Xthreads.h:147-154 | So do the steps of a signal, although the head's `next` is read after its thread has been released. |
| CondVar.BroadcastKeeps | include/Xthreads.h:155-162 | So do the steps of a broadcast, although it walks on from records whose threads have been released. |
| CondVar.AlwaysAList | include/Xthreads.h:137-162 | In every state of every interleaving the waiter list ends and names no thread twice, every semaphore is at most 1, and posts equal ended waits plus what is left on the semaphore, thread by thread. |
| CondVar.ListedOrPosted | include/Xthreads.h:137-162 | Outside of the posting part of a signal or broadcast a thread that waits is exactly one of listed and posted, and every other thread is neither. |
| CondVar.WaitsWithout | include/Xthreads.h:137-146 | In every reachable state a thread in a wait holds the mutex if and only if it has not come to give it up; blocked, or woken and not yet back, it does not. |
| CondVar.WaitReturnsHolding | include/Xthreads.h:137-146 | However many steps of how many threads lie between, a wait returns with the mutex in the hands of its thread. |
| CondVarCalls.WaitIsPosted | include/Xthreads.h:137-146 | No wait returns of itself: between its first step and its return its thread has been posted exactly once and has used that post up. |
| CondVar.CanReturn | include/Xthreads.h:137-146 | From every reachable state in which a waiting thread has been posted, or woken, and the mutex is free, one or two steps of its own bring it back, holding the mutex. |
| CondVar.StepsUnlessBlocked | include/Xthreads.h:137-162 | In every reachable state a thread can go on unless the section is occupied, its semaphore is at 0, or the mutex is taken, at the steps that wait for these. |
| CondVar.PostsArrive | lib/X11/locking.c:67-82 | No post is lost on a semaphore whose maximum is 1: a semaphore that is released was at 0 and its thread is waiting. |
| CondVar.BroadcastPostsAll | include/Xthreads.h:155-162 | A broadcast that is about to leave has posted each thread that was listed when it entered, once, and no other, whatever the threads it woke have done since. |
| CondVar.SignalPostsOne | include/Xthreads.h:147-154 | A signal has posted, once, the thread that was enqueued last and taken it off the list, or has done nothing if there was none. |
| CondVarCalls.SignalDoesIt | include/Xthreads.h:147-154 | A signal that has returned has been through its section on the way, where it has done just that. |
| CondVarCalls.BroadcastDoesIt | include/Xthreads.h:155-162 | So has a broadcast: every thread that was listed there has been posted once and the list has been emptied. |
| CondVar.OthersWait | include/Xthreads.h:137-162 | While one thread is in its section no step of another changes the list or posts anything. |
| SymTables.Compare | config/makedepend/parse.c:355-362 | The inline comparison orders names as strcmp() does. |
| SymTables.SLookup | config/makedepend/parse.c:428-465 | The halving search finds the record of the symbol if the table's mapping has it, and nothing otherwise. |
| SymTables.Define2 | config/makedepend/parse.c:324-407 | The table stays strictly sorted and stands for the old mapping with the symbol updated; this covers the insertion behind `below`. |
| SymTables.Merge2 | config/makedepend/parse.c:480-529 | Merging keeps the order and gives the union in which the second table wins. |
| SymTables.RemoveAt | config/makedepend/parse.c:542-544 | Closing the gap keeps the order and removes exactly that symbol. |
| SymTables.AsMapIs | config/makedepend/parse.c:324-465 | A sorted table is determined by the mapping it stands for. |
| IncludeCache.FDefinedFinds | config/makedepend/parse.c:262-291 | fdefined() finds a symbol exactly when some file that is reached without passing a marked one has it, on cyclic graphs too; if it finds none, no table has gained the symbol. |
| IncludeCache.LookupIsReachability | config/makedepend/parse.c:262-291 | With nothing marked it returns non-NULL if and only if a file reached through the lists defines the symbol; all marks are restored, the cache stays sound, and what is found from any file is unchanged. |
| IncludeCache.MergeOk | config/makedepend/parse.c:467-533 | A merge keeps: merged edge implies child finished, child fully merged, child's names among the parent's. |
| IncludeCache.MergedHolds | config/makedepend/parse.c:476-478 | All that is reached from a fully merged file is in its own table. |
| IncludeCache.FindsBeyond | config/makedepend/parse.c:277-285 | So only the edges that are not merged need to be searched, on paths that do not come back. |
| IncludeTables.Includes.Merge2Defines | config/makedepend/parse.c:467-533 | merge2defines() in place, on the sorted tables, is the merge of the mappings. |
| IncludeTables.Includes.FDefined | config/makedepend/parse.c:262-291 | fdefined() in place, with marks, flags and tables, computes the function of the specification and terminates on every graph. |
| IncludeRuns.RunKeeps | config/makedepend/parse.c:262-533 | Over every run of opening, defining, including, finishing and looking up, each table holds the file's own symbols and beyond them only symbols that are found from the file without the cache. |
| IncludeRuns.IncludesKeeps | config/makedepend/include.c:177-225 | Including another file keeps that. |
| IncludeRuns.LookupsSeeOwnDefinitions | config/makedepend/parse.c:262-291 | At any time of any run, whatever has been merged before, a symbol is found exactly when the file or one it includes, directly or not, defines it itself. |
| IncludeHistory.LookupsFollowHistory | config/makedepend/parse.c:262-291 | Told by the events alone: after any run a symbol is found from a file if and only if a definition of it has been read there, or in a file that it was said to include, directly or not. |
| CacheFills.NextLookup | config/makedepend/parse.c:272-291 | Among finished files without circles, after one lookup that finds nothing every other symbol is looked up in the file's own table. |
| PrIncludes.Printer.RecursivePrInclude | config/makedepend/pr.c:112-124 | The recursion in place marks and prints as the specification `Printed`, and terminates on every graph. |
| PrIncludes.PrintsReachedOnce | config/makedepend/pr.c:112-124 | Without marks it prints every file reached from the root, other than the root, exactly once and nothing else, cycles included. |
| PrIncludes.PrintsBehindIncluder | config/makedepend/pr.c:112-124 | Every file is printed behind one that includes it, unless the root does. |
| IfRoundTrip.RoundTrip | config/makedepend/ifparser.c:32-553 | Every tree written with minimal parentheses, in any spacing, is read back: the parser consumes exactly the text and yields the tree's value; C's precedence, grouping to the right within a level. |
| IfRoundTrip.ReadsAt | config/makedepend/ifparser.c:549-553 | The same for a tree in any context: at every level the parser stops exactly where the context goes on. |
| IfRoundTrip.BinaryReads | config/makedepend/ifparser.c:284-520 | A binary operator of each level reads its operands where they were written. |
| IfRoundTrip.CondReads | config/makedepend/ifparser.c:523-542 | So does the conditional expression. |
| IfRoundTrip.NestReads | config/makedepend/ifparser.c:172-222 | So do unary operators, parentheses and macro calls. |
| IfRoundTrip.OperatorReads | config/makedepend/ifparser.c:338-520 | The lookaheads: in front of anything a value can begin with, an operator is read as itself and by no lower level, across < and <<, & and &&, the bitwise and the logical or, ! and !=. |
| IfOperators.BitOperators | config/makedepend/ifparser.c:426-480 | The operators on bits yield, bit by bit, the conjunction, disjunction and difference of their operands' bits, and the complement negates each. |
| IfOperators.DivisionTruncates | config/makedepend/ifparser.c:297-309 | Quotient and remainder make up the dividend; the remainder is smaller than the divisor and has the sign of the dividend. |
| IfOperators.Shifts | config/makedepend/ifparser.c:347-358 | A left shift by y doubles y times, a right shift halves y times rounding down, and undoes it. |
| IfOperators.SumsAndProducts | config/makedepend/ifparser.c:292-332 | Sums count up, a product adds up as many times, and subtraction and negation undo addition. |
| IfOperators.Comparisons | config/makedepend/ifparser.c:366-420 | Less means less by something; exactly one of less, equal and greater holds, and the other comparisons are their complements. |
| IfOperators.Connectives | config/makedepend/ifparser.c:483-520 | The logical operators yield 0 or 1 and depend on truth only. |
| IfSamples.Precedence | config/makedepend/ifparser.c:284-520 | For each pair of neighbouring levels a text whose value tells which operator binds tighter: C's. |
| IfSamples.Operands | config/makedepend/ifparser.c:172-279 | A text for each kind of operand and for the conditional, and its value; a macro call counts as 1. |
| IfLenience.SingleEquals | config/makedepend/ifparser.c:407-412 | A single `=` between any two operands compares them. |
| IfLenience.AssertionReads | config/makedepend/ifparser.c:204-217 | An assertion counts as true. |
| IfLenience.Unclosed | config/makedepend/ifparser.c:184-276 | A parenthesis, a macro call or a `defined` that is not closed is an error. |
| IfRoundTrip.Climb | config/makedepend/ifparser.c:284-542 | A value that stops in front of its context is handed up unchanged through every level. |
| IfRoundTrip.NumberReads | config/makedepend/ifparser.c:95-141 | A decimal, octal or hexadecimal literal with its qualifiers has its positional value. |
| IfOperators.NumeralReads | config/makedepend/ifparser.c:114-136 | The numeral of any number in any base up to 16 has that number as its value. |
| IfOperators.NameCharacters | config/makedepend/ifparser.c:77-90 | Names are of letters, digits and underscores and begin with no digit; white space is C's. |
| IfRoundTrip.VariablesOrDefined | config/makedepend/ifparser.c:231-262 | A variable is read as itself exactly when its name is not `defined` and does not begin with `defined_`; otherwise the rest of the name is asked for, or there is an error. |
| IfRoundTrip.PlainCharacters | config/makedepend/ifparser.c:143-170 | A character constant without escape is read as it stands if and only if its character is no white space, no quote and no backslash. |
| IfOperators.EscapesAreCharacters | config/makedepend/ifparser.c:149-165 | The simple escapes stand for the characters that they name. |
| IfLenience.NumericEscapes | config/makedepend/ifparser.c:163-164 | Numeric escapes are read from behind the backslash in octal, from behind the `x` in hexadecimal. |
| IfLenience.LongCharacter | config/makedepend/ifparser.c:166-169 | Of several characters between quotes the first counts and the others are skipped. |
| IfRoundTrip.EscapedQuote | config/makedepend/ifparser.c:143-170 | The constant of a quote leaves its last quote unread. |
| IfCursors.Variable | config/makedepend/ifparser.c:80-92 | The cursor loop over a name reads what the specification reads. |
| IfCursors.Number | config/makedepend/ifparser.c:95-141 | The cursor loops over prefix, digits and qualifiers. |
| IfCursors.Character | config/makedepend/ifparser.c:143-170 | The cursor loop up to the next quote. |
| Directives.ObeysStructure | config/makedepend/parse.c:548-686 | On every well-nested file find_includes() comes to the end and has performed exactly the defines, undefs and includes of one group of each if-section, in order, as section 6.10.1 of ISO/IEC 9899:1999 says. |
| TakenLines.PerformsTaken | config/makedepend/parse.c:548-686 | What has been performed then are exactly the definitions, the includes and the undefinitions of a name among the lines of the groups that are taken, in their order; failOK is that of the reader, or true in the #else groups behind a guess. |
| TakenLines.GuardedLine | config/makedepend/parse.c:588-617 | In particular a line under #ifdef is performed if the symbol is defined, and under #ifndef if it is not. |
| Directives.FindsGroup | config/makedepend/parse.c:548-686 | The same for every well-nested piece in front of anything else, at any nesting and with any failOK. |
| Directives.GobblesGroup | config/makedepend/parse.c:45-99 | gobble() passes over a well-nested piece and goes on behind it. |
| Directives.GobblesTail | config/makedepend/parse.c:59-65 | From the end of a group it passes over the rest of the section, up to its #endif. |
| Directives.TakesGroup | config/makedepend/parse.c:560-569 | A group that is taken is obeyed and the others of its section are passed over. |
| Directives.LeavesGroup | config/makedepend/parse.c:570-587 | A group that is not taken is passed over; the next group whose condition holds is obeyed, or the #else group, which keeps quiet after a guess. |
| StrayDirectives.SectionAlike | config/makedepend/parse.c:553-617 | In any sequence of lines, well nested or not, a section ends at the same line however its conditions come out: where gobble() would stop. |
| StrayDirectives.StrayDefines | config/makedepend/parse.c:618-629 | A file performs a definition that no #define asks for if and only if an #else, #elif or #endif of that text stands where no section is open. |
| StrayDirectives.NestedHasNoStrays | config/makedepend/parse.c:618-629 | A well-nested piece has none. |
| DirectiveReader.Reader.Gobble | config/makedepend/parse.c:45-99 | gobble() line by line. |
| DirectiveReader.Reader.FindIncludes | config/makedepend/parse.c:548-686 | find_includes() line by line; at the end of the file it marks the file as finished. |
| DirectiveReader.ReadFile | config/makedepend/parse.c:548-686 | Reading a whole well-nested file. |
| ObjectPasses.TableDecodesIff | config/pswrap/psw.c:847-1101 | Following the emitted lengths and offsets through the table rebuilds the token tree if and only if, for every literal, the bytes that stand at the address it was given are its own. |
| ObjectPasses.TableDecodes | config/pswrap/psw.c:739-757 | That is so whenever no hexadecimal string has the text of another literal but other bytes. |
| ObjectDecoding.WorkIsPlaced | config/pswrap/psw.c:617-708 | Every body on the work list gets its objects in one block, behind those of its parent, at the address in its token. |
| ObjectDecoding.PlacedDecodes | config/pswrap/psw.c:863-882 | A body in its place decodes to what it means exactly when all literals in it, at any depth, are read right. |
| ObjectLayout.StringsLie | config/pswrap/psw.c:734-759 | Both passes skip the same strings, and each literal's bytes lie at its address. |
| ObjectLayout.OncePerText | config/pswrap/psw.c:734-748 | While there are no more than 257 texts each of them is put out once. |
| ObjectLayout.SameTextSameAddress | config/pswrap/psw.c:734-758 | And literals with the same text share an address. |
| ObjectPasses.ClashMisreads | config/pswrap/psw.c:739-757 | (41) and <41> in one wrap: the plain string is sent to the one byte of the hexadecimal one. |
| Pswrap.Wrap.Build | config/pswrap/psw.c:591-790 | The first pass: token k has tokenIndex k and address 8k, the `body` fields are those of the specification, and the counts are those of the second pass. |
| Pswrap.Wrap.Construct | config/pswrap/psw.c:998-1104 | The second pass, with its own work list, emits the objects in the same order and as many objects and strings as the first has counted. |
| Pswrap.LayOut | config/pswrap/psw.c:591-1104 | Both passes together: what is put out decodes to the tree exactly when every literal's own bytes are read at its address, and so whenever no texts clash. |
| ObjectLayout.NumTokens | config/pswrap/psw.c:113-118 | The length of a body is the number of its tokens. |

## Left out

- Matching.Regexec: asks for rounds enough where Matching.Matcher does; takes every match to contain the `must` string (`MustHold`); how regcomp() derives it is not modelled, nor the checks of the magic numbers and the BAD flag, nor running out of memory.
- Matching.Matcher: where sub-matches are to be found without back references (`Subdivides`), asks for rounds enough in the build in use (`EnoughRounds`), because what dissect() does with an expression whose copied anchors are too many for the rounds is not modelled; everything else is, rounds enough or not.
- Matching.Search: status `Stuck` stands for a false alarm at the very end of the text, which makes `start` greater than `stop`; there an assertion that is compiled out would fail, and what the engine reads beyond the text is not modelled (`FalseAlarms.AnswersStuckIff` says exactly when). Status `Unknown` means that the fuel of the backtracker ran out.
- BranchTails.SuccessIsWhole: the condition is sufficient, not necessary; back references and anchors behind a choice count as not to be passed, and the groups behind it may be set on the way.
- Promises.ReportsBackreferences: with choices the run may end with a branch, as that of the code does. That a match is found whenever one exists is in `Decided.MatcherDecides`, for expressions without choices whose loops repeat plain sequences, and where no start is masked; beyond that it is not claimed.
- BackrefInPlace.Backref: is given fuel, one unit for each call it makes on itself, because it need not end (`Divergence`, `FiniteCalls.NeverEndsIff`); the byte in front of the text, which `^` may look at when the search begins at the very first byte, counts as no newline there.
- Promises.ReportsLeftmost: the condition on the expression is sufficient, not necessary; the exact condition, in `ReportsLeftmostIff`, is about the guard of the scan.
- Words.SameBits: a machine word is 32 bits.
- Word anchors are in the strip and in `step`, but trees have none: they get a single step, and the two builds treat adjacent ones differently.
- Character sets are sets of characters; their bit vectors, hashes and multi-character elements are not modelled. Characters are unsigned.
- Parsing of patterns, regerror(), regfree(), tracing and the test driver.
- REG_BACKR, REG_LARGE and REG_TRACE, which are masked out of the flags unless the library is built for debugging.
- Pointers into the text are offsets from its first byte, and the vectors of the large build are separate arrays.
- CondVar: the mutex is held exactly once on entry to a wait; the other thread back ends, thread creation and thread-local storage, and threads that wait on several condition variables are left out.
- IncludeRuns.RunKeeps: has no #undef, which removes a symbol from one table only and so ends the agreement between merged tables; `SymTables.RemoveAt` is the removal itself, without undefine()'s loop over the files that have the symbol.
- IncludeCache.MergeOk: speaks of names. What value a name has after a merge is in `SymTables.Merge2`: that of the included file, even if the including file defined it again behind the #include.
- IncludeTables.Includes.FDefined: a table is a sequence of records; after a merge the original shares records between tables, which is not modelled, nor are the command-line definitions that isdefined() looks up first.
- Reading files, signals, rewriting the Makefile, searching for include files, comment stripping and macro substitution in #include.
- Directives.ObeysStructure: conditions are an abstract function of what has been done so far, with a third verdict for a guess, which no condition of this version returns.
- IfRoundTrip.RoundTrip: integers do not overflow; a remainder by zero and shifts by negative amounts, which are undefined, have some value in the model; numeric escapes and the values of symbols are parameters; `#name(list)` is not among the trees, `IfLenience.AssertionReads` has it for a list of one name; reading past the end of an unterminated character constant is an error in the model.
- PrIncludes.Printer.RecursivePrInclude: line breaking and the list of includes of the verbose form.
- ObjectPasses.TableDecodes: trees have no formal parameters, and names that are not well known are put out as strings (the -n form); the condition on strings is sufficient only, because a clash can go well by chance; the exact one, in `TableDecodesIff`, is about the layout. That the length of a short header fits its 16 bits is not claimed.
- Formatting of the emitted C text, run-time fix-ups and the dictionary's hashing in pswrap.
- imake, lndir, makestrs, checktree, the protocol headers and everything else in the distribution.
