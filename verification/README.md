# Pareton benchmark harness: a verified model

Pareton runs campaigns in which miners submit patches to an inference engine. A watcher takes patch
commitments in from the chain, a gate normalises and strips patches, and a benchmark harness samples
prompts, replays them against a baseline and the candidates, grades the outputs and scores the
candidates by the time they save. This project models the algorithms and protocols at the centre of
that harness in Dafny and proves what they promise, for all inputs, all failure patterns and all
interleavings.

| Part | Files | Main results |
|---|---|---|
| Repeat-loop detection | `Words`, `AutomatonStates`, `SuffixAutomaton`, `LengthSort`, `RepeatedSpan`, `Degeneracy`, `LoopTexts` | the online suffix automaton with counting sort and count propagation finds exactly the longest substring that occurs twice, and the detector judges texts by it; what each of its findings means for the text |
| Trajectory row selection | `RowSelection` | Kuhn's matching with permanent drops fails only when no full assignment exists, and every chosen prefix is the last that fits |
| Comment stripping | `SplicedText`, `SplicedSlices`, `PhaseThree`, `TokenRules`, `CommentRemoval`, `CLexer`, `TokensKept`, `CommentStrip`, `Spelling`, `SpelledSource`, `SpelledRemoval` | the one-pass lexer computes a two-phase reference; where that reference departs from the header-name and literal-suffix rules of C++20 and C23, exactly; which texts can be stripped, exactly; stripped text is a fixed point; printed source is read back token by token, and stripping it leaves what is printed without the comments |
| Qualification | `Qualification` | for every sequence of verdicts the scheduler ends, within quotas, and gives up only when a tier cannot be filled |
| Prefix-cache size | `PromptTrie` | comparing sorted neighbours counts the nodes of the whole trie |
| Replay and measurement | `TierGroups`, `Replay`, `ReplayProgress`, `Occupancy`, `MeasuredReplay` | safety of every interleaving of the replay workers, and that every run ends; the occupancy sweep is exact |
| Rounds | `Grading`, `GradedTexts`, `RoundRun`, `RoundMeaning` | what a round starts, streams and scores, and in which order, under every pattern of failures; which status a candidate gets, in terms of texts and scores |
| Scoring | `Score`, `ScoreMeaning` | charging short completions never pays; what each measured value is, in terms of the rows |
| Sampling receipts | `LongformSampling`, `LongformMeaning` | replaying a receipt reproduces it; sampling is greedy, and every outcome has its exact reason |
| Intake | `Intake`, `IntakeMeaning` | uniqueness of patches, fingerprints and payments over every run; the earliest commitment wins; where every submission comes from |
| Fingerprints | `LineComments`, `LineSpelling`, `Fingerprint`, `PatchFiles`, `DiffSides` | what is kept of a hunk is exactly the code of both its sides; comment stripping is idempotent; exactly which edits leave the normalised list alone |
| Commitments | `Commitment`, `CommitmentText` | encoding and parsing are inverse up to normalisation, within the chain's limit |

`Basics`, `Strings`, `Counting` and `Sorting` hold what several parts share. `dafny verify dfyconfig.toml` checks
everything.

Conventions: floating-point numbers are reals; hashes, tokenizers, chat rendering, row fetching and
engine or scorer answers are arbitrary functions of what they are asked; a database transaction is one
atomic step; a byte of a patch is a character. Times come from a clock that never runs backwards.

Three places where the code and its description or its standard differ; the model follows the code and
says exactly where.

- The lexer follows translation phases 2 and 3 (section 5.2 [lex.phases] of ISO/IEC 14882:2020, section
  5.1.1.2 of ISO/IEC 9899:2024), but it reads some header names and literals differently. It does not
  continue a header name in angle brackets over a line splice; it knows none in a directive that `%:`
  opens (although the replacement of block comments knows `%:`), in `__has_include(...)`, behind `import`
  or in `#embed`; it takes `<>` for one; it lets a backslash escape the closing quote of a quoted one; and
  it splits a C++ literal from its suffix. `TokenRules.LexFollowsRules` is exact about these rules, and
  there are lemmas at `#include <a//\`, newline, `b>`; `%:include <a//b>`; `#if __has_include(<a//b>)`;
  `import <a//b>;`; `#include "a\"//b"` and `""b`. The comparison takes other rules over from the lexer:
  blanks between the backslash and the newline of a splice, which characters form identifiers (dollar
  signs and all of non-ASCII, but no universal character names), punctuators one character at a time, and
  the directives `#include_next` and `#import`. Older standards, with trigraphs or without digit
  separators and `u8` character literals (ISO/IEC 9899:2018), are not compared with.
- Removing comments can change the tokens, which the check after stripping catches. A backslash before a
  blank and a line comment becomes a splice (`CommentStrip.RemovalMaySplice`); a block comment over
  several lines can put a hash sign at the start of a line and make a header name of what was none
  (`CommentStrip.RemovalMayOpenDirective`). `TokensKept.RemovalKeepsTokens`: the tokens stay exactly when
  neither happens. Text is free of both if no comment follows a backslash and no hash sign is the first
  token behind a comment that runs over a line end in the middle of a line (`TokensKept.TidyIsTame`).
- Two patches that differ only in white space at line ends can be normalised differently: the test for a
  git diff looks at the raw bytes, so a bare `diff --git` line counts as a header only with its trailing
  space (`PatchFiles.TrailingSpaceMatters`; `PatchFiles.TrailingSpaceIgnoredInData` gives the exact
  condition).

## Model

| member | source | states |
|---|---|---|
| `AutomatonStates.InitialStates` | bench/correctness.py:440-444 | the root alone is the automaton of the empty text |
| `AutomatonStates.StatesGrow` | bench/correctness.py:446-475 | after one more character the states are again exactly the classes of words with the same occurrences, each named by its longest word: one state is added, or two when the border must be split off |
| `AutomatonStates.LinksGrow` | bench/correctness.py:459-474 | after one more character every suffix link again leads to the longest state that is a proper suffix |
| `AutomatonStates.TransitionsGrow` | bench/correctness.py:454-472 | after both walks a state has a transition exactly on the characters its word can be followed by, to the state of the longer word |
| `SuffixAutomaton.WalkFindsBorder` | bench/correctness.py:453-456 | where the first walk stops, the longest suffix of the new text that occurred before has been found |
| `SuffixAutomaton.AddTransitions` | bench/correctness.py:453-456 | the first walk ends, and gives the new transition to exactly the longer suffix states |
| `SuffixAutomaton.RedirectTransitions` | bench/correctness.py:470-472 | the second walk ends, and redirects exactly the suffix states that stepped to the split state |
| `SuffixAutomaton.CountsGrow` | bench/correctness.py:450-451 | lengths are those of the longest words, and a state starts with one occurrence exactly when its word is a non-empty prefix of the text |
| `SuffixAutomaton.Extend` | bench/correctness.py:446-475 | one round turns the automaton of `s` into the automaton of `s + [c]`, with at most two states per character plus the root |
| `RepeatedSpan.Build` | bench/correctness.py:440-475 | the tables built are the automaton of the text |
| `LengthSort.CountLengths` | bench/correctness.py:477-479 | how many states have each length |
| `LengthSort.EndPositions` | bench/correctness.py:480-481 | running totals: how many states are no longer than each length |
| `LengthSort.SortStates` | bench/correctness.py:477-486 | the counting sort lists every state once, shortest first |
| `RepeatedSpan.PassOn` | bench/correctness.py:487-490 | passing a state's count to its link moves exactly the ends counted there, none twice |
| `RepeatedSpan.PropagateCounts` | bench/correctness.py:487-490 | after propagation a state's count is the number of places where its word ends |
| `RepeatedSpan.RepeatSound` | bench/correctness.py:491-498 | a word counted at least twice really starts at two places |
| `RepeatedSpan.RepeatComplete` | bench/correctness.py:491-498 | every repeated word is covered by a state at least as long that is counted twice |
| `RepeatedSpan.LongestRepeatedLength` | bench/correctness.py:429-498 | the value before the division is the length of the longest substring with two distinct, possibly overlapping, starts |
| `RepeatedSpan.LongestRepeatedSubstringRatio` | bench/correctness.py:429-499 | the ratio is that length over the text's length, 0 for the empty text, and below 1 |
| `Degeneracy.RepeatedSpanRatio` | bench/correctness.py:429-499 | the ratio the detector uses is that of the longest repeated span |
| `Degeneracy.SpanReaches` | bench/correctness.py:580-584 | the ratio reaches a share exactly when some repeated word takes that share of the text |
| `Degeneracy.PartFails` | bench/correctness.py:562-589 | a part fails when it is long enough and has too few distinct n-grams or, if asked, too long a repeat |
| `Degeneracy.CheckText` | bench/correctness.py:1138-1155 | thinking and answer are judged apart, and a failure of the n-gram floor in either outweighs a repeated span in the other |
| `Degeneracy.MeasureText` | bench/correctness.py:542-559 | the lowest distinct and highest span ratio over the parts that are long enough |
| `Degeneracy.CompareText` | bench/correctness.py:592-635 | when a text repeats itself more than the baseline did on the same prompt |
| `LoopTexts.PartsAre` | bench/correctness.py:526-535 | a text without a closing tag is judged whole, any other as what stands before and behind the first tag |
| `LoopTexts.FloorMeans` | bench/correctness.py:562-579 | a part is below the n-gram floor exactly when it has at least 64 characters and, however spans of it are picked, fewer than 15 in 100 can be told apart |
| `LoopTexts.LoopsMeans` | bench/correctness.py:580-589 | a part fails the span check exactly when it has at least 64 characters and a span of a quarter of it stands at two places |
| `LoopTexts.FindingMeans` | bench/correctness.py:1138-1155 | a text fails outright exactly when a part is below the floor, and by a span alone exactly when none is and some part repeats a quarter of itself |
| `LoopTexts.FallsBehindMeans` | bench/correctness.py:592-635 | which texts repeat themselves more than the baseline did, in terms of the spans of their parts |
| `RowSelection.LengthGroups` | bench/trajectory.py:61-72 | four groups, of at most 4096, 8192, 16384 and 32768 tokens and at least nine tenths of that, rounded up; their counts differ by one at most, larger first, and add up to the number of prompts |
| `RowSelection.EligiblePrefixes` | bench/trajectory.py:256-268 | for each group a row can fill, and no other, the last prefix that fits it |
| `RowSelection.UsableMeans` | bench/trajectory.py:256-268 | a row can fill a group exactly when some prefix is of a length within the group, and then by a prefix behind which none fits |
| `RowSelection.RowSelector.Place` | bench/trajectory.py:236-247 | a failed placement changes no slot and leaves every visited row blocked by visited rows; a successful one adds exactly the row, keeps all others placed, and spoils no closed set of groups; the recursion ends |
| `RowSelection.RowSelector.Consider` | bench/trajectory.py:273-277 | a row is placed or dropped for good, and everything dropped stays confined to closed groups |
| `RowSelection.ProgressPlaced` | bench/trajectory.py:275-277 | a placed row joins the matched ones, each held once |
| `RowSelection.ProgressDropped` | bench/trajectory.py:276-277 | a dropped row and all rows visited for it can only go to groups that are full for good |
| `RowSelection.CoverageImpossible` | bench/trajectory.py:280-284 | with a free slot and all unplaced rows confined to sealed groups, no assignment of distinct eligible rows fills every slot |
| `RowSelection.FreeSlotMeansUnavailable` | bench/trajectory.py:280-284 | when every row has been handled and a slot is free, no full assignment exists: a dropped row was never needed |
| `RowSelection.FullFills` | bench/trajectory.py:278-279 | full slots are an assignment of distinct eligible rows to every slot |
| `RowSelection.Missing` | bench/trajectory.py:280 | the missing counts are empty exactly when all slots are full |
| `RowSelection.Collect` | bench/trajectory.py:285 | the selection lists, group by group, each row's prefix for its group |
| `RowSelection.Select` | bench/trajectory.py:231-285 | selection yields a full assignment of distinct rows, each by the last of its prefixes that fits, from the fewest first rows that hold one; it reports missing coverage only if the pool holds none, and a row that could not be fetched only if the rows before it hold none |
| `RowSelection.CoversFairly` | bench/trajectory.py:268-285 | in the list that a full assignment gives, the entries of a group stand together, groups in order, and each entry is its row by the last prefix that fits |
| `CLexer.Lexer.SpliceLength` | gate/comment_strip.py:163-176 | the length of the line splice at an index |
| `CLexer.Lexer.AfterSplices` | gate/comment_strip.py:178-183 | the next index that starts no splice |
| `CLexer.Lexer.CharAt` | gate/comment_strip.py:185-190 | the next logical character and the index after it |
| `CLexer.Lexer.LineCommentEnd` | gate/comment_strip.py:291-301 | reads exactly the logical characters of a line comment |
| `CLexer.Lexer.BlockCommentEnd` | gate/comment_strip.py:303-311 | reads exactly a block comment, or reports that it is never closed |
| `CLexer.Lexer.BlockReplacement` | gate/comment_strip.py:313-325 | a block comment becomes one space and as many line ends as it spanned, spliced inside directives and before a hash sign |
| `CLexer.Lexer.HeaderNameEnd` | gate/comment_strip.py:327-337 | reads exactly a header name, or only its bracket |
| `CLexer.Lexer.IdentEnd` | gate/comment_strip.py:339-345 | reads exactly an identifier |
| `CLexer.Lexer.NumberEnd` | gate/comment_strip.py:347-364 | reads exactly a preprocessing number, exponent signs and digit separators included |
| `CLexer.Lexer.QuotedEnd` | gate/comment_strip.py:366-388 | reads exactly a string or character literal, which ends with its line if unterminated |
| `CLexer.Lexer.RawStringEnd` | gate/comment_strip.py:390-407 | the raw string found in the original text is the one the logical characters spell |
| `CLexer.Lexer.WordEnd` | gate/comment_strip.py:262-277 | an identifier, or the literal it prefixes, and whether a header name may follow |
| `CLexer.Lexer.OtherEnd` | gate/comment_strip.py:278-288 | a number, a literal or a single character |
| `CLexer.Lexer.CommentAt` | gate/comment_strip.py:219-244 | which comment a slash opens, if any, and where it ends |
| `CLexer.Lexer.TokenEnd` | gate/comment_strip.py:245-288 | the next token of the reference lexer, and the directive state after it |
| `CLexer.Lexer.Run` | gate/comment_strip.py:192-289 | the one-pass lexer fails exactly when the reference lexer does, and otherwise yields its tokens and comment count; without stripping its output is its input, with stripping it is the text with its comments removed as specified, and keeps every newline and every visible character outside comments |
| `TokenRules.LexFollowsRules` | gate/comment_strip.py:245-288 | for every text that either can read, the lexer reads it as the header-name and literal-suffix rules of C++20 and C23 say exactly when no bracketed header name is spliced, empty or in a place the lexer does not know, no quoted one ends in an odd number of backslashes with the line going on, and no C++ literal has a suffix |
| `TokenRules.SameLength` | gate/comment_strip.py:245-288 | token by token: the lengths agree exactly when the token is none of those |
| `TokenRules.QuotedName` | gate/comment_strip.py:366-388 | a string ends where a quoted header name does exactly unless an odd number of backslashes escapes its closing quote and the line goes on |
| `TokenRules.SplicedHeaderDiffers` | gate/comment_strip.py:327-337 | a header name cut by a splice is read differently |
| `TokenRules.DigraphHeaderDiffers` | gate/comment_strip.py:245-251 | so is one named by a directive that `%:` opens |
| `TokenRules.HasIncludeDiffers` | gate/comment_strip.py:252-260 | so is one that a condition asks for |
| `TokenRules.ImportDiffers` | gate/comment_strip.py:252-260 | so is one that a line of C++ imports |
| `TokenRules.QuotedHeaderDiffers` | gate/comment_strip.py:366-388 | so is a quoted one that ends in a backslash |
| `TokenRules.SuffixDiffers` | gate/comment_strip.py:366-388 | a C++ literal with a suffix is read as two tokens |
| `CLexer.Unsplice` | gate/comment_strip.py:410-423 | a token's text without its splices |
| `CommentStrip.StripCFamily` | gate/comment_strip.py:432-452 | the four outcomes, exactly: unparseable and no comments by the reference lexer, stripped exactly when the text has comments and is tame, which is exactly when the text with its comments removed has the same tokens and no comments, else check failed; the reconstruction check never fails |
| `TokensKept.RemovalKeepsTokens` | gate/comment_strip.py:192-325 | removing the comments of a text leaves exactly its tokens if and only if no line is cut short behind a lone backslash, and no bracket that closes on its line stands where a hash sign moved to a line start makes a header name of it |
| `TokensKept.TidyIsTame` | gate/comment_strip.py:225-243 | it does so if no comment follows a backslash and no hash sign is the first token behind a comment that breaks its line |
| `TokensKept.SameToken` | gate/comment_strip.py:245-288 | a token ends where it ended, and leaves the lexer in the same place, when what follows it has lost its comments |
| `TokensKept.TokenUncrossed` | gate/comment_strip.py:163-176 | the splices of a token and what is left behind it are those of the original exactly unless a lone backslash comes to end a line |
| `TokensKept.Counted` | gate/comment_strip.py:192-289 | what is left has as many backslashes as the tokens exactly when none is lost, and never more |
| `TokensKept.LeftTokens` | gate/comment_strip.py:192-289 | while no backslash is lost, reading what is left gives the tokens of the text exactly when no header name is made of what was none |
| `CommentStrip.RemovalMaySplice` | gate/comment_strip.py:225-230 | a backslash before a blank and a line comment: removal splices the line and loses the token |
| `CommentStrip.RemovalMayOpenDirective` | gate/comment_strip.py:313-325 | a token, a comment over two lines, an empty comment and `#include <a>`: removal puts the directive at the start of a line and changes the tokens |
| `CommentStrip.StripTwice` | gate/comment_strip.py:432-452 | stripped text is a fixed point: stripping it again finds no comments and changes nothing |
| `Spelling.WordIsOneToken` | gate/comment_strip.py:262-277 | any word that no word character and no quotation mark follows is one token, and opens a header name exactly behind a directive sign, if it is `include`, `include_next` or `import` |
| `Spelling.NumberIsOneToken` | gate/comment_strip.py:347-364 | any preprocessing number, with exponent signs and digit separators, is one token unless what follows goes on with it |
| `Spelling.MarkIsOneToken` | gate/comment_strip.py:278-288 | any other character is a token of its own, and a hash sign at the start of a line opens a directive |
| `Spelling.QuotedIsOneToken` | gate/comment_strip.py:366-388 | a string or character literal with any encoding prefix or none is one token, whatever its body holds |
| `Spelling.UnclosedIsOneToken` | gate/comment_strip.py:366-388 | a literal that is not closed on its line ends with it |
| `Spelling.RawIsOneToken` | gate/comment_strip.py:262-277 | in C++ a raw string with any of the five prefixes, any delimiter and any body that does not hold its closing is one token, and what follows it is read for itself |
| `Spelling.RawOrFailed` | gate/comment_strip.py:390-407 | a raw prefix and a quotation mark start such a raw string, or the text cannot be read |
| `Spelling.HeaderIsOneToken` | gate/comment_strip.py:327-337 | a bracketed header name is one token, whatever it holds |
| `Spelling.LineNoteIsComment` | gate/comment_strip.py:291-301 | two slashes and the rest of their line are one comment and no token |
| `Spelling.BlockNoteIsComment` | gate/comment_strip.py:303-311 | so are slash and star up to the first star and slash |
| `Spelling.UnclosedNoteFails` | gate/comment_strip.py:303-308 | a block comment that is never closed cannot be read |
| `SpelledSource.SpelledReads` | gate/comment_strip.py:192-289 | source printed from any lines of directives, words, numbers, literals, raw strings, marks and comments is read as exactly these tokens, in order, and that many comments |
| `SpelledSource.SlashesInRaw` | gate/comment_strip.py:262-277 | source whose only slashes stand in a raw string is read, and has no comment |
| `SpelledRemoval.SpelledRemoved` | gate/comment_strip.py:219-244 | taking the comments out of printed source leaves what is printed without them: a block comment becomes a blank and its line ends, spliced within a directive, a line comment goes with the blanks before it; the tokens stay |
| `SpelledRemoval.StripSpelled` | gate/comment_strip.py:432-452 | printed source is stripped to just that, or, without comments, comes back as it is |
| `SpelledRemoval.SlashesStay` | gate/comment_strip.py:432-452 | source whose only slashes stand in a raw string comes back as it is, with no comments found |
| `Qualification.Scheduler.PickFrom` | bench/qualify_longform.py:450-483 | the first candidate of the tier, in order, that is untried and of a session neither qualified nor in the batch; a deferral where only the batch stands in the way; exhaustion exactly when none is left, and then what is open cannot fill the tier |
| `Qualification.Scheduler.CheckTiers` | bench/qualify_longform.py:431-438 | the early error is raised only for a tier that everything open cannot fill, and without it every tier could still be filled |
| `Qualification.Scheduler.DrawTier` | bench/qualify_longform.py:445-487 | one tier gives its first eligible candidate unless the batch could fill its quota or only waits |
| `Qualification.Scheduler.DrawPass` | bench/qualify_longform.py:443-488 | one pass over the tiers gives what they give in order, until the batch is full, and keeps every quota even if the whole batch is accepted |
| `Qualification.Scheduler.FillBatch` | bench/qualify_longform.py:439-495 | a batch is what pass after pass gives until it is full or a pass adds nothing: non-empty, at most the concurrency, of candidates not tried before |
| `Qualification.BatchMeans` | bench/qualify_longform.py:439-495 | a batch is smaller than the concurrency only where each tier could be filled by it or has nothing left but sessions of the batch; there is none only where a tier that is not filled has nothing left |
| `Qualification.Scheduler.Consume` | bench/qualify_longform.py:498-513 | exactly the accepted candidates of the batch are recorded, in batch order, and no tier exceeds its quota |
| `Qualification.Scheduler.RunBatch` | bench/qualify_longform.py:430-513 | a batch is drawn only while every tier could be filled, and judged as a whole |
| `Qualification.NextVerdict` | bench/qualify_longform.py:500-507 | whatever the next verdict is, the rest of the batch can still be accepted |
| `Qualification.OpenIsBounded` | bench/qualify_longform.py:431-438 | what is qualified or may still qualify in a tier is qualified, in the batch or untried |
| `Qualification.OpenAfterExhaustion` | bench/qualify_longform.py:470-477 | with nothing untried left in a tier, what is open falls short of the quota |
| `Qualification.Scheduler.RunSchedule` | bench/qualify_longform.py:429-513 | drawing and judging ends for every sequence of verdicts, with the schedule's tiers full or one that cannot be filled; each batch is what is drawn after the verdicts on those before it, and the qualified are the accepted of all batches in order |
| `Qualification.Schedules` | bench/qualify_longform.py:425-427 | one schedule of all tiers in order in version 6; before it one schedule per tier, the last tier first |
| `Qualification.Qualify` | bench/qualify_longform.py:421-513 | no candidate is tried twice; a normal finish fills every quota exactly with distinct accepted candidates, of distinct sessions in version 6; an error names a tier that the open candidates cannot fill |
| `PromptTrie.LexIsTotalOrder` | bench/exgentic.py:223 | sorting token lists lexicographically is sorting by a total order |
| `PromptTrie.PrefixSqueeze` | bench/exgentic.py:223-230 | between two sorted lists that share a prefix, every list shares it |
| `PromptTrie.NextPromptAdds` | bench/exgentic.py:224-231 | in sorted order the next prompt adds exactly its prefixes beyond what it shares with its predecessor, all of them new |
| `PromptTrie.NodesOfPermutation` | bench/exgentic.py:223 | the trie does not depend on the order of the prompts |
| `PromptTrie.CommonPrefix` | bench/exgentic.py:224-228 | the inner loop finds the longest common prefix |
| `PromptTrie.PromptKvTokens` | bench/exgentic.py:214-232 | the unique count is the number of distinct non-empty prefixes over all prompts, duplicates and prefixes of each other included |
| `TierGroups.Interleave` | bench/concurrency.py:112-125 | round-robin takes whole rounds until every queue is empty |
| `TierGroups.RoundsBalanced` | bench/concurrency.py:112-125 | in any prefix of a group, a tier that is not exhausted is at most one request behind an earlier tier, and not behind a later one |
| `TierGroups.OnlyOneOrder` | bench/concurrency.py:112-125 | this, with whole tiers in trace order, leaves one order for a group |
| `TierGroups.TiersPerGroup` | bench/concurrency.py:104 | as many whole tiers as the slots hold, and at least one |
| `TierGroups.RequestGroups` | bench/concurrency.py:92-127 | grouping succeeds exactly when every request has a known tier and every tier has requests, and gives each group its whole tiers in trace order |
| `TierGroups.GroupsPartition` | bench/concurrency.py:109-127 | the groups one after the other are a permutation of the requests |
| `TierGroups.TierInOneGroup` | bench/concurrency.py:109-115 | a tier lies wholly in one group, in trace order, and which group depends on the tier alone |
| `TierGroups.SurvivorStays` | bench/concurrency.py:95-97 | dropping requests never moves a surviving request to another group |
| `Replay.StepKeeps` | bench/sla_bench.py:404-450 | every step of every worker and of the parent keeps the replay's invariant |
| `Replay.RunIsSafe` | bench/sla_bench.py:386-450 | the invariant holds in every state of every interleaving |
| `Replay.BoundedInFlight` | bench/sla_bench.py:407-436 | at most min(concurrency, group size) requests are in flight |
| `Replay.DispatchedInOrder` | bench/sla_bench.py:404-414 | in every state, also once the replay has returned or expired, what has been dispatched is a prefix of the groups' requests in order, so nothing is dispatched twice or out of order |
| `Replay.ReturnsEverything` | bench/sla_bench.py:446-450 | a replay that returns without errors has recorded every request once; the omitted-requests error never arises |
| `Replay.GroupsDoNotOverlap` | bench/sla_bench.py:404-447 | no request of a later group is admitted before every request of an earlier one has given its slot back |
| `Replay.OccupancyBounded` | bench/sla_bench.py:315-331 | at any time at most the effective concurrency of recorded slots is held |
| `ReplayProgress.RunsEnd` | bench/sla_bench.py:404-450 | whatever the interleaving and the failures, a run makes at most six moves for each request and one for each group |
| `ReplayProgress.NeverStuck` | bench/sla_bench.py:404-446 | until the replay returns or raises some move is possible that is no failure |
| `ReplayProgress.FailuresCounted` | bench/sla_bench.py:433-443 | the errors of a state are exactly the failures of its run |
| `ReplayProgress.FailureStops` | bench/sla_bench.py:410-446 | once something has failed nothing more is dispatched and no other group starts |
| `ReplayProgress.EndsHow` | bench/sla_bench.py:436-450 | a replay raises exactly when the deadline passes, and returns exactly at a barrier |
| `ReplayProgress.RowsAreMeasured` | bench/sla_bench.py:317-331 | every row was taken from the head of the queue by its worker, then admitted, then released, at the times it says |
| `Occupancy.DeltasCancel` | bench/concurrency.py:185-188 | every slot that is taken is given back |
| `Occupancy.MomentsAreHeldTime` | bench/concurrency.py:185-191 | the events' signed times add up to the time slots were held |
| `Occupancy.ChangesAreOverlap` | bench/concurrency.py:190-193 | counting the events up to an instant counts the half-open intervals that contain it, for intervals that may be empty |
| `Occupancy.PeakIsExact` | bench/concurrency.py:189-194 | the running maximum is the largest overlap, and is attained, for intervals that may be empty |
| `Occupancy.Observe` | bench/concurrency.py:189-209 | the area is the total slot-held time; when no slot is given back before it was taken the peak is the maximum overlap; the mean times the duration is the area |
| `MeasuredReplay.OverlapIsHolding` | bench/concurrency.py:182-188 | the intervals the sweep sees overlap as the replay's rows hold slots |
| `MeasuredReplay.OnlyLastGroupHolds` | bench/concurrency.py:180-184 | of several groups that started at one instant only the last ever holds a slot for any time |
| `MeasuredReplay.ObserveStart` | bench/concurrency.py:177-212 | for the rows of the bounded replay that share a start instant the area is the time slots were held, and the observed peak is the largest number of slots held at once and never exceeds the effective concurrency of the last group with that start |
| `MeasuredReplay.ReplayCoversTrace` | bench/sla_bench.py:399-450 | grouping a trace and replaying the groups without errors records every request of the trace exactly once |
| `Score.ChargeOnlyCosts` | bench/score.py:329-353 | charging a row never lowers its completion time and changes nothing else |
| `ScoreMeaning.ChargeMeans` | bench/score.py:329-353 | a short completion is charged at the speed it was decoded at: the time per expected token is the time per token produced, from its first token on, or from its admission; any other row stays |
| `Score.ShortIsBelowBaseline` | bench/score.py:187-190 | an answer below the tolerance gate has fewer tokens than the baseline's, for every tolerance in (0, 1] |
| `ScoreMeaning.ShortMeans` | bench/score.py:187-190 | which answers are short of the tolerance gate, by tokens |
| `Score.ExtrapolateShortCompletions` | bench/score.py:301-354 | every row is charged as specified, and the reported requests are exactly those charged |
| `Score.OrderStatisticMonotone` | bench/concurrency.py:167 | raising values raises every order statistic |
| `Score.MedianMonotone` | bench/concurrency.py:167 | raising values never lowers the median |
| `Score.TierCompletion` | bench/concurrency.py:139-173 | one tier: its sorted requests, its time in each repetition, their median and relative range, exactly on complete, unchanging, error-free evidence |
| `ScoreMeaning.MeasurableMeans` | bench/concurrency.py:138-165 | a tier is measurable exactly when each repetition has rows, none of them in error or without a completion, no request twice, and all the same requests |
| `ScoreMeaning.ElapsedMeans` | bench/concurrency.py:158-163 | no row of a repetition completes later after its group start than the sample says, and some row just then |
| `ScoreMeaning.MedianMeans` | bench/concurrency.py:167 | the median is the middle value by rank, or midway between the two middle ones |
| `ScoreMeaning.MetricMeans` | bench/concurrency.py:139-173 | a tier's requests each once in order, the time to the latest completion of each repetition, their median, and their spread relative to it |
| `Score.TierMetrics` | bench/concurrency.py:130-174 | all tiers are measured exactly when every row is of a selected tier and every tier's evidence is complete |
| `Score.TierNoEarlier` | bench/concurrency.py:138-173 | later completions keep a tier measurable and never lower its time |
| `Score.SpeedupAntitone` | bench/score.py:455-465 | with non-negative weights, larger tier times never raise the weighted speedup |
| `ScoreMeaning.SpeedupMeans` | bench/score.py:455-469 | the baseline's times gain nothing, and time saved in one tier gains that tier's weight times its share of the baseline's time, whatever the other tiers do |
| `ScoreMeaning.FinalScoreMeans` | bench/score.py:470-482 | without failures the score is the speedup, of which the cap leaves the loss and no gain; every failed share costs the same |
| `Score.ChargingNeverPays` | bench/main.py:922-946 | charging short completions keeps tier evidence complete, lowers no tier's time, and raises neither the weighted speedup nor the score |
| `Grading.Grader.RecordAbsoluteCheck` | bench/correctness.py:1138-1164 | one check updates the flags and sets so that the degenerate flag keeps its meaning |
| `Grading.Grader.RecordChecks` | bench/correctness.py:1231-1243 | several checks of one prompt count its span failure once |
| `Grading.Grader.RecordRelative` | bench/correctness.py:1244-1254 | a relative failure counts its prompt once |
| `Grading.GradeOutputs` | bench/correctness.py:1169-1346 | when neither a scorer failure nor a missing reference stops the loop, "degenerate" holds exactly when some text fails outright, or more than four prompts fail the span check, or more than four the relative check; a stop fails the grading unless the texts were already degenerate |
| `Grading.DegenerateIsOrderFree` | bench/correctness.py:1155-1164 | only what was found amiss on which prompt matters, not the order of the outputs |
| `Grading.RepetitionsCountOnce` | bench/correctness.py:1129-1164 | replacing the repetitions of a prompt by others that fail in the same ways, however many of them fail or pass, changes nothing |
| `Grading.NotDegenerate` | bench/correctness.py:1129-1164 | outputs that are not degenerate have no ordinary completion below the n-gram floor, and at most four prompts that repeat a span of a quarter of a part |
| `GradedTexts.DegenerateMeans` | bench/correctness.py:1129-1164 | outputs are degenerate exactly when some graded text is empty or below the n-gram floor, or more than four prompts have one that repeats a quarter of a part, or more than four trail the baseline |
| `GradedTexts.GradeMeans` | bench/correctness.py:1169-1346 | grading fails exactly when it is blocked by a missing reference, or otherwise before the texts read as loops; else it has gone through the outputs up to the block and finds them degenerate exactly when they read as loops |
| `RoundRun.DropOnlyGrows` | bench/correctness.py:761-805 | dropped prompts accumulate, stay within the limit, and never are all of the trace |
| `RoundRun.RetainedInOrder` | bench/main.py:715-724 | each request is kept or left out by itself, in its place |
| `RoundRun.SetupIsBounded` | bench/main.py:654-789 | exclusions only grow and stay within the limit; a concurrent round replays exactly the retained requests, with every tier non-empty |
| `RoundMeaning.SetUpWhen` | bench/main.py:654-789 | a round is set up exactly when both baselines answer and all they leave out together is within the limit and leaves something to replay and to grade, in a concurrent round on every tier and steadily |
| `RoundRun.BaselineFirst` | bench/correctness.py:1550-1552 | the grading order is a permutation with the baseline before every candidate |
| `RoundRun.GradeSubject` | bench/correctness.py:1558-1584 | a subject's report follows from its texts and scores; a grading failure is the subject's own outcome |
| `RoundRun.GradeAll` | bench/correctness.py:1547-1588 | every queued subject gets one report, and every candidate is judged against the mean of a baseline that passed, whenever one is queued |
| `RoundRun.RunCandidate` | bench/main.py:790-862 | one leg: skipped after the leader failed, otherwise started on the common requests, its failure streamed |
| `RoundRun.StreamVerdicts` | bench/main.py:902-912 | exactly the verdicts that are no pass are streamed, in the order of the candidates |
| `RoundRun.RunScorer` | bench/main.py:863-912 | verdicts are streamed only if the scorer works and the required baseline verdict is a pass |
| `RoundRun.BuildEntries` | bench/main.py:949-1080 | one entry per run in order, correctness before reproducibility before scoring |
| `RoundRun.RunCandidates` | bench/main.py:640-912 | the log of the candidates' part is determined event by event, and a round returns exactly when all tier evidence is whole and grading is possible where it is needed |
| `RoundRun.RunRound` | bench/main.py:553-919 | a returned round has one entry per candidate in plan order; its log is determined event by event; a failed baseline aborts before any candidate starts; a round that aborts does so at what was started last |
| `RoundRun.StartsFollowPlan` | bench/main.py:206-263 | the engine starts of a round are the plan with starts left out: in its order, none twice, the scorer last and only if something needs grading |
| `RoundRun.EveryCandidateHasItsTurn` | bench/main.py:640-862 | a candidate of a round with whole evidence is started exactly unless the leader came before it and failed; if it is skipped that is streamed, and if its leg fails that is the very next event |
| `RoundRun.VerdictsComeLast` | bench/main.py:882-912 | a correctness verdict is streamed only after the scorer has started, with the required baseline verdict a pass, and only verdicts follow it |
| `RoundMeaning.NotedOnce` | bench/main.py:790-912 | no leg and no verdict is streamed twice, and each kind goes by index, legs first |
| `RoundMeaning.VerdictMeans` | bench/correctness.py:1419-1500 | a verdict fails exactly when the outputs are empty somewhere, read as loops or score too low, and is missing exactly when grading was blocked before or too little was scored |
| `RoundMeaning.ReturnsWhen` | bench/main.py:640-912 | a round that is set up returns exactly when, if concurrent, every replay can be charged, and whatever needs grading meets a working scorer and, where it counts, a baseline whose own outputs pass |
| `RoundMeaning.StatusMeans` | bench/main.py:949-1080 | the status of every candidate, exactly, from its leg, its texts and scores and its stability: wrong outputs are disqualified, and outputs of which nothing can be said infra-failed |
| `RoundMeaning.VerdictsAreStreamed` | bench/main.py:902-912 | a replayed candidate is streamed as disqualified exactly when its outputs are wrong, and as infra-failed exactly when nothing can be said of them |
| `RoundRun.ScoredMeansPassed` | bench/main.py:949-1080 | a scored entry replayed stably and, in mode "all", was graded a pass, with the baseline graded a pass whenever it is required |
| `RoundRun.PassMeans` | bench/correctness.py:1419-1500 | a pass means that every output was graded, none was empty, the texts are not degenerate and every bar is cleared |
| `RoundRun.ScoredTexts` | bench/main.py:949-1080 | a scored candidate's texts repeat a span of a quarter of a part on at most four prompts, none is below the n-gram floor, and under the relative bar its mean is within the allowed drop of a passing baseline's |
| `RoundRun.LeaderFailureStops` | bench/main.py:641-653 | once the leader's leg fails no later candidate starts, and each of them is infra-failed |
| `RoundRun.StreamedIsFinal` | bench/main.py:806-841 | what is streamed about a candidate is its final status exactly unless it is the leader and has crashed |
| `RoundRun.CrashedLeader` | bench/main.py:815-823 | a crashed leader is streamed as infra-failed while its entry is disqualified |
| `RoundRun.CrashedLeaderExample` | bench/main.py:815-823 | such a round exists, in mode "all" and on a workload, with a challenger that is skipped |
| `RoundRun.SameWorkload` | bench/main.py:715-724 | all candidates replay the same requests, each in the group it had when the baselines replayed the trace |
| `LongformSampling.PickSound` | bench/longform.py:454-494 | going on from any sound selection, a successful one fills each tier exactly, with distinct prompts and, in version 6, distinct sessions |
| `LongformSampling.GeneratedIsSampled` | bench/longform.py:414-558 | every generated receipt, fresh or replayed, fills each tier exactly with distinct prompts and, in version 6, distinct sessions, and names its rows |
| `LongformSampling.PickExtends` | bench/longform.py:457-489 | a selection grows at its end, by distinct rows of the list |
| `LongformSampling.ReplaySelects` | bench/longform.py:457-489 | going through exactly the selected rows, without permission to skip any, selects them again |
| `LongformSampling.GenerateTrace` | bench/longform.py:439-549 | the generation loop computes the specified receipt or error |
| `LongformSampling.ReplayReproduces` | bench/longform.py:414-558 | replaying the receipt of a sampling selects the same rows in the same order, reproduces the receipt and raises nothing |
| `LongformMeaning.SamplingMeans` | bench/longform.py:439-494 | a fresh sampling takes exactly the rows that are welcome after those before them, until nothing is missing, and fails exactly where a row cannot be fetched or the order ends too soon |
| `LongformMeaning.ReplayMeans` | bench/longform.py:442-558 | replaying any receipt takes all of its rows or fails at the first that is not welcome, with the reason, and what it takes must be the receipt again |
| `Intake.ExcludedMeans` | campaign/exclusion.py:12-33 | a hotkey is excluded exactly when some disqualification of it has no later entry |
| `Intake.Store.InsertSubmission` | campaign/store.py:269-384 | the insert transaction: refused for an excluded hotkey or a patch already present; a known fingerprint gives a rejected duplicate without a job |
| `Intake.Store.CheckFeeProof` | chain/watcher.py:62-88 | a proof holds if it is no later than the commitment, not consumed and verified |
| `Intake.Store.CheckCommitment` | chain/watcher.py:91-229 | what the watcher asks to insert; exempt hotkeys consume no payment |
| `Intake.Store.IngestCommitment` | chain/watcher.py:91-269 | checking and inserting without interference |
| `Intake.Store.ScanChain` | chain/watcher.py:272-311 | commitments are taken in sorted by commit block and hotkey, each once |
| `IntakeMeaning.ScanOrder` | chain/watcher.py:297-304 | a scan goes by commit block, and within a block by hotkey |
| `IntakeMeaning.IngestMeans` | chain/watcher.py:91-269 | entry by entry: a commitment is taken in exactly when its campaign is open, it is eligible and intact, its fee settled, its hotkey not barred and its patch new; and what the one submission it adds holds |
| `Intake.EarliestWins` | chain/watcher.py:297-304 | a patch new to a scan is won by the earliest admissible commitment for it, and by no other |
| `Intake.InsertFirstWins` | campaign/store.py:302-384 | of the submissions with one fingerprint in a campaign only the first has a job, the rest are rejected duplicates |
| `Intake.StepKeeps` | campaign/store.py:269-399 | every step of the watcher or an operator keeps patches, fingerprints and payments unique |
| `Intake.RunIsSafe` | chain/watcher.py:91-269 | they are unique in every state of every run of one watcher interleaved with carry-overs, exclusions and waivers |
| `IntakeMeaning.EverySubmissionCame` | chain/watcher.py:91-269 | every submission of every run was carried over or found in order at a look at its commitment, and its payment was verified and made in time |
| `IntakeMeaning.ExcludedSince` | campaign/exclusion.py:12-33 | in every state of a run a hotkey is excluded exactly when some exclusion of it has not been waived since |
| `Intake.NeverForExcluded` | campaign/store.py:298-301 | a step adds at most one submission, at the end, and never for a hotkey excluded at that moment |
| `LineComments.StripComments` | gate/integrity.py:40-90 | the scanning loop keeps exactly the characters outside comments, and knows whether a block comment is open |
| `LineComments.KeptIsClean` | gate/integrity.py:52-90 | removing comments never joins characters into a new comment |
| `LineComments.StripTwice` | gate/integrity.py:40-90 | stripping a line twice is stripping it once, for both comment syntaxes |
| `LineComments.StripLinesTwice` | gate/integrity.py:40-90 | the same for the lines of a file, with block comments running over lines |
| `LineComments.BlockCommentIgnored` | gate/integrity.py:82-85 | a block comment in code can be taken out of its line |
| `LineComments.LineCommentIgnored` | gate/integrity.py:78-81 | a line comment behind code can be taken off its line |
| `LineComments.StripTrailing` | gate/integrity.py:52-90 | white space at the end of a line does not matter to stripping it |
| `LineSpelling.KeepsAllElse` | gate/integrity.py:52-90 | of a line spelled from code, quoted strings and comments nothing but the comments goes, whatever stands in the strings, escaped marks included |
| `LineSpelling.EveryLine` | gate/integrity.py:52-90 | every line is spelled so |
| `LineSpelling.StripMeans` | gate/integrity.py:40-90 | what stripping any line gives, also one that starts within a block comment: all but its comments and the white space at its end, and whether a comment is open behind it |
| `Fingerprint.Normaliser.Accept` | gate/integrity.py:113-174 | one line of a git diff: what is emitted and how the hunk and comment state change |
| `Fingerprint.Normaliser.AcceptContent` | gate/integrity.py:144-174 | a removed, added or unchanged line of a hunk, stripped for the old and the new file |
| `Fingerprint.Normalise` | gate/integrity.py:93-174 | the loop computes the normalised list of the file's lines |
| `DiffSides.HunkShowsBothSides` | gate/integrity.py:144-174 | the lines kept of a hunk show exactly the code of the old file on one side and of the new file on the other, in order, comments and blank lines gone |
| `DiffSides.FileShowsBothSides` | gate/integrity.py:119-174 | a file's part of a patch shows both, each read by the syntax its own path names and from outside any comment, whatever came before; its head lines stay and of its hunk header the heading |
| `DiffSides.ReverseDiffers` | gate/integrity.py:144-174 | a hunk and its reverse are kept alike only if the hunk changes no code |
| `DiffSides.HeadingMeans` | gate/integrity.py:133-138 | of a hunk header the marks and the trimmed heading are kept |
| `DiffSides.SyntaxMeans` | gate/integrity.py:23-37 | which paths have hash comments and which slash comments, by their ending in either case |
| `DiffSides.LowerMeans` | gate/integrity.py:32 | letter by letter, what lower case is |
| `Fingerprint.IndexLineIgnored` | gate/integrity.py:127-128 | a blob index line can be left out exactly in a git diff |
| `Fingerprint.HunkCoordinatesIgnored` | gate/integrity.py:133-138 | the coordinates of a hunk header do not matter |
| `Fingerprint.TrailingSpaceIgnored` | gate/integrity.py:113 | white space at line ends does not matter to how lines are normalised |
| `Fingerprint.BlankLineIgnored` | gate/integrity.py:144-159 | a blank added or removed line can be left out exactly inside a hunk of a git diff |
| `Fingerprint.HunkOpen` | gate/integrity.py:119-138 | a hunk is open exactly when a hunk header follows the last file header |
| `Fingerprint.CommentLinesIgnored` | gate/integrity.py:144-159 | added or removed lines of nothing but comments can be left out of a hunk |
| `PatchFiles.IndexLineIgnoredInFile` | gate/integrity.py:127-128 | taking a blob index line out of the bytes of a patch, whatever its line ends, leaves the list alone exactly if it is a git diff |
| `PatchFiles.HunkCoordinatesIgnoredInFile` | gate/integrity.py:133-138 | altering hunk coordinates in the bytes of a patch leaves the list alone exactly if it is a git diff |
| `PatchFiles.BlankLineIgnoredInFile` | gate/integrity.py:144-159 | taking a blank added or removed line out of the bytes of a patch leaves the list alone exactly inside a hunk of a git diff |
| `PatchFiles.IndexLineIgnoredInData` | gate/integrity.py:105-128 | the same for any two byte strings whose lines differ by a blob index line |
| `PatchFiles.HunkCoordinatesIgnoredInData` | gate/integrity.py:105-138 | the same for any two byte strings whose lines differ in hunk coordinates |
| `PatchFiles.BlankLineIgnoredInData` | gate/integrity.py:105-159 | the same for any two byte strings whose lines differ by a blank added or removed line |
| `PatchFiles.TrailingSpaceIgnoredInData` | gate/integrity.py:105-117 | any two byte strings that differ only in white space at line ends, line ends included, normalise alike, exactly when both or neither are git diffs, also when more lines follow |
| `PatchFiles.TrailingSpaceMatters` | gate/integrity.py:105-117 | a bare git header with and without its last space: two such patches with different lists |
| `PatchFiles.LineCommentOnly` | gate/integrity.py:78-81 | an indented line comment is a line of nothing but comments |
| `PatchFiles.BlockCommentOnly` | gate/integrity.py:53-59 | so is a block comment over several lines |
| `Commitment.DecimalRoundTrip` | chain/commitment.py:54-60 | reading back a printed number gives the number |
| `Commitment.UuidRoundTrip` | chain/commitment.py:82-84 | reading back a printed UUID gives the UUID |
| `Commitment.ReadUuidPrints` | chain/commitment.py:82-84 | reading a UUID and printing it puts it in lower case |
| `Commitment.PaymentRoundTrip` | chain/commitment.py:52-60 | a printed payment reference parses back exactly when it is within range |
| `Commitment.WireParses` | chain/commitment.py:63-92 | a wire string of bar-free parts parses exactly when its parts are well formed, and then to those parts |
| `Commitment.RoundTrip` | chain/commitment.py:138-188 | the encoder accepts exactly the encodable inputs; what it returns takes at most 384 bytes and parses to the normalised fields |
| `Commitment.WireIsV2` | chain/commitment.py:95-100 | an encoded commitment is never taken for the older JSON form |
| `Commitment.ParsedIsNormalised` | chain/commitment.py:63-92 | parsed fields are in normal form and no longer on the wire than what they were parsed from |
| `Commitment.ParsedEncodes` | chain/commitment.py:63-188 | what the parser accepts within the chain's limit can be encoded again, and the new wire string says the same |
| `CommitmentText.DecimalMeans` | chain/commitment.py:175-178 | a printed number is worth the number by the places of its decimal digits, and starts with no zero but for zero |
| `CommitmentText.UuidMeans` | chain/commitment.py:158 | a printed UUID is its 32 hexadecimal digits in groups of 8, 4, 4, 4 and 12 |
| `CommitmentText.LowerMeans` | chain/commitment.py:159-160 | letter by letter, what lower case is |
| `CommitmentText.Utf8Reads` | chain/commitment.py:180 | the bytes of a character give it back, the first one telling how many there are |
| `CommitmentText.BytesMeans` | chain/commitment.py:180-185 | the size that is limited is that of the text in these bytes |

## Left out

- The Python comment stripper (gate/comment_strip.py:96-126): it rests on the language's own tokenizer and parser.
- HTTP and streaming clients, Docker, object storage, GPU rental, command lines, logging and evidence files: plumbing around the modelled logic.
- Floating-point rounding: all times, ratios and scores are reals; finiteness checks are dropped.
- The final sort of a trajectory selection by hash (bench/trajectory.py:286-291), and the hash order of rows: an arbitrary order of rows is a parameter.
- `Qualification.Qualify`: the check on the pool before qualification (bench/qualify_longform.py:296-306) and evaluation of single responses are not modelled; a verdict is an arbitrary function of the candidate.
- `Grading.GradeOutputs`: the baseline's ratios and forced outputs, and the prefix the scorer returns, are inputs; how the baseline's references are built (bench/correctness.py:808-881) is not modelled.
- `RoundRun.RunRound`: log-probabilities are inputs; the exemption of natural-stop and mock workloads from the reproducibility bar is folded into whether a measurement counts as unstable; when a baseline is unstable is an input; the value of a score is `Score`, not part of an entry.
- `Score.ChargingNeverPays`: the cap for slow first tokens and the failure penalty enter as given values; per-prompt diagnostics are not modelled.
- `LongformSampling.GenerateTrace`: rendering, the workload description and the trace's bytes are a function of the selected prompts.
- `Intake.Store.CheckCommitment`: campaign status, start time, URL and hash checks are given outcomes; the cache of known hash mismatches (chain/watcher.py:161-167) only repeats a refusal.
- `Intake.RunIsSafe`: one watcher, as deployed; operators may act between its check and its insert.
- Gate jobs (campaign/store.py:425-696): the claim of the oldest pending job, passing over those deferred too recently and counting the attempt; and the updates by which a running attempt defers itself, sets its phase, shows that it is alive or is completed, each keyed by the job and, completion aside, the attempt.
- `Fingerprint.Normalise`: the hash of the joined list.
- `Commitment.RoundTrip`: the older JSON form (chain/commitment.py:101-135) is not modelled; lower-casing beyond ASCII is the identity, since no such letter has a lower case within the formats.
- Configuration and schema validation, engine presets, ranking, settlement and weights.
