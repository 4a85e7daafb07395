# A verified model of the shell's self-contained algorithms

This Dafny project models parts of a shell (parser, expander, interpreter) and of its front end for Go
sources, and proves what those parts are for. Each module states the behaviour of one component twice: once
as the code does it, step by step where the code works in place, and once as a plain definition; its
theorems connect the two for all inputs, all runs or all reachable states.

- **Tuple**, **TupleSemantics**: lowering a Go assignment with several targets to single assignments, against
  the two phases of the Go specification, over memories with aliasing and calls with side effects.
- **CellShare**, **CellCalls**, **AsyncSignal**, **AsyncCalls**: two concurrent protocols as interleaved threads,
  where taking a lock, moving one field or testing one word is a step of its own; and what each of their calls has
  done when it returns.
- **Grammar**, **Peg**, **Derivations**, **MatchOrder**: the deterministic and the backtracking interpreter of a
  grammar, against a relation of outcomes with failures and an inductive derivation relation.
- **Utf8**, **ArgvWtf8**, **GcImage**, **GcBytes**: RFC 3629 section 4, the argument codec for Windows, and the image of a
  source that gc's scanner sees with its offset map.
- **Environ**, **IndexedArray**: the searched environment against a scan for the last pair, and the dense and
  sparse array against one finite map.
- **Glob**, **BytePattern**, **PatternText**, **InternalPattern**, **Replace**: wildcard matching against a relation by pieces,
  replacement spans, and prefix and suffix removal.
- **FieldSplit**: splitting by IFS against an automaton, as in section 2.6.5 of the POSIX Shell Command Language.
- **ChannelDomain**: union-find with path compression, the certificate decided from it, and two closures.
- **Words**, **ProductOrder**, **NumericLoop**, **Progression**, **BraceWords**, **BraceExamples**,
  **BraceExpansion**: lazy brace expansion against the product of alternatives, and the 64-bit loop of a numeric
  sequence against its ideal numbers.
- **JsonString**, **JsonDecode**, **JsonNumber**, **JsonValue**, **JsonCost**, **JsonLimits**, **JsonPreflight**: the size
  preflight of object values against the JSON encoding (sections 6 and 7 of RFC 8259 with HTML escaping), byte
  for byte.
- **TokenName**: the numeration of fresh names and the search for one.
- **Common**: an option, sums taken apart, and decimal digits.

Where the code does not do what it is for, the model follows the code, one lemma names an input and
another says exactly when it is right:

- Parentheses below the top of a target, and fields promoted through embedded pointers, hide operands from
  the capture of a tuple assignment (`Tuple.HiddenPointerFails`, `Tuple.TargetHandledIffCaptured`,
  `Tuple.ListsHandledIffCaptured`). One list taken by itself can still come out right, where a later store
  hides the wrong one (`Tuple.OverwrittenTargetAgrees`), so the condition is about the targets and not about
  one list.
- Looking up a name with an equals sign after its first character can find a pair of another name, or slice
  past the end of a pair (`Environ.WholePairIsOutOfRange`, `Environ.SearchRightIff`).
- Field splitting in two goes loses the rule that one delimiter joins the whitespace before it
  (`FieldSplit.SpaceThenColon`, `FieldSplit.SplitTwice`).
- A numeric brace sequence whose last step leaves 64 bits wraps around and goes on
  (`NumericLoop.StepWrapsAround`, `NumericLoop.FitsIffLoopEnds`).
- An empty list element is dropped although the word has text before it, if that text stands before an
  earlier or an outer brace: `x{a,}{,c}` and `a{{,c},d}` both lose a word (`BraceExamples.ElisionSideBySide`,
  `BraceExamples.ElisionForgetsPrefix`). With sequences that fit, the words yielded are the product if and only
  if no list with an empty element may stand bare at the end behind another brace, or alone in the word
  (`BraceWords.YieldsProductIff`, over the structural condition `BraceWords.Skips`). In a word that has both
  faults they can cancel out (`BraceExamples.TooManyAndTooFew`).
- The size preflight counts each quote and backslash of a quoted string field one byte short, and some other
  things too long. The count is enough for a value if and only if the first does not exceed the second
  (`JsonCost.SumFallsShort`, `JsonCost.CountIsEnoughIff`).
- The preflight lets through number text that is no number, which then has no encoding. A value that passes has
  one if and only if every number text written in it is a number or empty (`JsonPreflight.LetterIsNoNumber`,
  `JsonLimits.EncodesIff`).

`dafny verify dfyconfig.toml` checks the whole project.

## Model

| member | source | states |
|---|---|---|
| Tuple.Lowering.BindOperand | gosource/tuple.go:121-126 | one more statement binds the expression to the next numbered temporary, and the counter grows by one |
| Tuple.Lowering.CaptureTarget | gosource/tuple.go:120-147 | the statements appended and the rewritten target are those of `CaptureOf` at the counter's old value, for every nesting of pointer, field, array, slice and map targets |
| Tuple.TupleAssignStmts | gosource/tuple.go:94-109 | the statements emitted are `Lowered`: captures of all targets, one binding of the right-hand side, one assignment per target |
| Tuple.CapturePins | gosource/tuple.go:120-147 | running a target's captures evaluates what Go's first phase evaluates, with the same trace, and the rewritten target denotes that place in every later memory |
| Tuple.LoweringIsTwoPhase | gosource/tuple.go:71-109 | the lowered statements leave the same memory and call trace as the two phases of the Go specification's "Assignment statements", for every right-hand side, every meaning of calls and every aliasing, when every target is captured |
| Tuple.TargetHandledIffCaptured | gosource/tuple.go:94-147 | beside a plain name, a target is handled correctly for all right-hand sides, calls and memories if and only if no parenthesis or promoted field hides an operand from the capture |
| Tuple.ListsHandledIffCaptured | gosource/tuple.go:94-147 | all targets of a list are captured if and only if every assignment to any of them, in any order and beside any blanks, agrees with Go for all right-hand sides, calls and memories |
| Tuple.OverwrittenTargetAgrees | gosource/tuple.go:94-147 | `(a[i]).x, a = f()` agrees with Go although its first target is not captured, because the store to all of a hides the wrong one |
| Tuple.UncapturedTargetFails | gosource/tuple.go:120-147 | each target outside that condition goes wrong for some function and memory |
| Tuple.HiddenPointerFails | gosource/tuple.go:99-147 | `p, (*p).x = q, 7` stores through the new p: only the top of a target is stripped of parentheses |
| CellShare.RunKeepsInv | interp/bashpp_cell_share.go:83-185 | the protocol's invariant (who holds which lock, what each thread has copied or stored, what each armed cell contains) holds in every state of every interleaving; what the operations achieve is in CellCalls |
| CellShare.ViewsAreComplete | interp/bashpp_cell_share.go:112-124 | each completed view of an armed cell is one whole published bundle, or the one it was armed with, and later views never see an earlier one |
| CellShare.SnapshotIsLatest | interp/bashpp_cell_share.go:112-145 | a guarded snapshot equals the bundle last published when its read lock is released, also when it is taken to be published into another cell |
| CellShare.GuardWrittenOnce | interp/bashpp_cell_share.go:83-87 | once a cell has a guard no step of any run changes it |
| CellShare.NeverTwoGuards | interp/bashpp_cell_share.go:138-145 | no thread ever holds, or has announced itself for, two guards |
| CellShare.NeverDeadlocked | interp/bashpp_cell_share.go:92-102 | in a reachable state with an operation under way some thread can step, with the writer preference of the reader/writer lock |
| CellShare.OperationsComplete | interp/bashpp_cell_share.go:112-145 | every schedule of the operations under way ends after boundedly many steps, with all threads idle; CellCalls.PublishStores says what a publish has done by then |
| CellShare.NoFieldRace | interp/bashpp_cell_share.go:164-185 | while one thread stores the fields of a cell no other is copying or storing them |
| CellShare.NoGuardRace | interp/bashpp_cell_share.go:83-87 | a guard word is written only while no other thread is in the middle of an operation on that cell |
| CellCalls.SnapshotTaken | interp/bashpp_cell_share.go:112-124 | before a view returns, one step of it completes a snapshot of all fields as the cell holds them at that moment, which for an armed cell is the bundle last published |
| CellCalls.PublishStores | interp/bashpp_cell_share.go:138-185 | when a publish returns, its snapshot has been stored: into a cell nobody else can name, whose fields are now the snapshot's, or into an armed one, for which that bundle and nothing else was published, once |
| CellCalls.PublishCopies | interp/bashpp_cell_share.go:138-185 | over any interleaving, after `dst = src` dst has been given what src held at one moment in between |
| AsyncSignal.VerdictMeaning | interp/async_signal.go:130-148 | exactly which signals interrupt the owner and which queue a trap: KILL and STOP cannot be caught or ignored, the null signal and harmless or ignored ones do nothing; AsyncCalls.RouteObeysVerdict says that the verdict is carried out |
| AsyncSignal.RunKeepsInv | interp/async_signal.go:88-175 | the routing invariant holds in every state of every interleaving of begin, end, route, finish and exec publication |
| AsyncSignal.PendingInterruptsRun | interp/async_signal.go:88-161 | outside the mutex a pending signal means no run, a cancelled run, or a router that has captured that run and is about to cancel it |
| AsyncSignal.QuietStateIsInterrupted | interp/async_signal.go:88-161 | when all threads are idle, no run survives beside a pending signal uncancelled |
| AsyncSignal.RunBegunLateStartsCancelled | interp/async_signal.go:98-104 | a run begun while a signal is pending is cancelled and installed when begin returns |
| AsyncSignal.FirstSignalWins | interp/async_signal.go:149-151 | a recorded signal is never replaced; only a finish that read it clears it |
| AsyncSignal.RecordedSignalReturnedOnce | interp/async_signal.go:163-175 | each recorded signal is pending, or held by one finish, or returned by one finish: the three counts always add up to one |
| AsyncSignal.EndClearsOnlyItsRun | interp/async_signal.go:105-112 | the current run disappears only through its own end function |
| AsyncSignal.SignalExcludesReplacement | interp/async_signal.go:124-128 | a pending signal and a published exec replacement never coexist |
| AsyncSignal.SomeCallAdvances | interp/async_signal.go:88-175 | with any call under way some thread can step and gets nearer to its end |
| AsyncCalls.TrapsConserved | interp/async_signal.go:144-148 | over every run, each callback is queued, or held by a thread about to queue it, exactly as often as a routed signal was judged to be trapped by it |
| AsyncCalls.RouteObeysVerdict | interp/async_signal.go:119-159 | a routed signal is left to a published replacement, or judged once: dropped without a trace, its callback queued, or recorded where the next finish takes it (unless an earlier one is there) with the current run cancelled before the route returns |
| AsyncCalls.FinishTakesPending | interp/async_signal.go:160-175 | a finish clears the signal pending at that moment, whichever it is, and returns just that one |
| AsyncCalls.BeginInstallsRun | interp/async_signal.go:88-104 | a begin that finds no run installs a new one for its thread, cancelled at once if a signal is pending; one that finds a run installs none |
| AsyncCalls.EndRemovesRun | interp/async_signal.go:105-112 | when an end returns its run is cancelled and is not the current one, then or ever after |
| AsyncCalls.ExecPublishes | interp/handler.go:515-531 | an exec beside live background jobs publishes its attempt if and only if no signal is pending |
| Grammar.Matcher.MatchNode | grammar/grammar.go:419-421 | the trail grows by exactly the spans of the functional match, the depth is restored and the farthest position never falls, for every kind of node |
| Grammar.Matcher.MatchRef | grammar/grammar.go:541-562 | the same for a reference: hook, depth cap of 20000, truncation of the trail on failure, span after success when reported |
| Grammar.Matcher.MatchSeqNode | grammar/grammar.go:566-581 | the same for a sequence, which truncates the trail when a later item fails |
| Grammar.Matcher.MatchAltNode | grammar/grammar.go:585-594 | the same for alternatives, first success wins, as Peg.MatchIsPeg tells from all earlier ones failing |
| Grammar.Matcher.MatchRepNode | grammar/grammar.go:601-617 | the same for a repetition, which stops at a failure, an empty round or the maximum |
| Grammar.FailureKeepsTrail | grammar/grammar.go:539-617 | a failed match leaves the trail as it was, except for a repetition that needs two or more |
| Grammar.TwoRepetitionsLeak | grammar/grammar.go:601-617 | with a minimum of two a failed repetition does leave a span behind |
| Peg.MatchIsPeg | grammar/grammar.go:507-617 | the match computes exactly a relation stated without it: a sequence chains outcomes and fails with its first failing item, an alternative succeeds where an item does and all before it fail and fails where all do, a repetition stops at a failure, an empty round or the maximum; ends, spans and failures included |
| Grammar.IndexOfNewline | grammar/grammar.go:648-652 | the first newline from a position, or none at all |
| Grammar.FenceLexeme | grammar/grammar.go:637-660 | a fence ends after the first later line equal to the opener's tildes; without such a line there is no fence |
| Derivations.FoundDerives | grammar/grammar.go:434-505 | every state the backtracking match returns is derivable |
| Derivations.DerivedIsFound | grammar/grammar.go:434-505 | every derivation, through non-empty repetition rounds and within the depth cap, is returned |
| Derivations.MatchAllIsDerivation | grammar/grammar.go:434-505 | a position and trail are returned if and only if the inductive derivation relation holds of them |
| Derivations.MatchIsAmongAll | grammar/grammar.go:434-617 | whenever the deterministic match succeeds its end and trail are among the backtracking states |
| Derivations.MatchAll | grammar/grammar.go:434-505 | the method over copied states returns the list that is so characterized, in alternative order |
| Derivations.MatchAllSeq | grammar/grammar.go:463-475 | a sequence extends all states item by item, and ends as soon as there is none |
| Derivations.MatchAllAlt | grammar/grammar.go:476-481 | the states of every alternative, in order |
| Derivations.Extend | grammar/grammar.go:466-469 | one more item is matched from every state, in order; a repetition keeps only the states that moved |
| Derivations.MatchAllRep | grammar/grammar.go:482-503 | a repetition returns its levels from the deepest down to the minimum |
| Derivations.LevelsOf | grammar/grammar.go:483-497 | the levels kept are those of the repetition, until none or the maximum |
| MatchOrder.AltInOrder | grammar/grammar.go:476-481 | the states of earlier alternatives come first |
| MatchOrder.SeqInOrder | grammar/grammar.go:463-475 | every way on from earlier states comes before those from later ones |
| MatchOrder.EmptyRoundLast | grammar/grammar.go:482-503 | no rounds at all comes last, and an option's matches before it |
| Derivations.MatchWhole | grammar/grammar.go:125-137 | a source is accepted if and only if the rule derives all of it |
| Derivations.MatchWholeAcceptsMore | grammar/grammar.go:125-137 | what the deterministic match consumes whole is accepted |
| Derivations.MatchWholeAcceptsStrictlyMore | grammar/grammar.go:125-137 | `a*` followed by `a` is derivable on "a" although the deterministic match fails |
| Utf8.CharDecodes | interp/argv_wtf8.go:65-91 | a prefix that is one character by section 4 of RFC 3629 decodes with exactly its width |
| Utf8.DecodesToChar | interp/argv_wtf8.go:65-91 | what decodes without the error rune is one such character |
| Utf8.ValidByWidth | interp/argv_wtf8.go:65-91 | a string is valid UTF-8 exactly if its first character decodes and the rest is valid |
| Utf8.DecodeInContext | interp/argv_wtf8.go:121-142 | a character decodes alike whatever follows it |
| ArgvWtf8.EncodeWindowsArg | interp/argv_wtf8.go:65-91 | the two loops compute the encoding character by character |
| ArgvWtf8.DecodeWindowsArg | interp/argv_wtf8.go:121-142 | the two loops compute the decoding byte by byte |
| ArgvWtf8.EncodeWindowsArgs | interp/argv_wtf8.go:43-62 | each argument is encoded; the list is copied only from the first change |
| ArgvWtf8.DecodeWindowsArgs | interp/argv_wtf8.go:99-118 | each argument is decoded; the list is copied only from the first change |
| ArgvWtf8.SurrogateRoundTrip | interp/argv_wtf8.go:144-160 | the surrogate of a byte is recognized as one and stands for that byte |
| ArgvWtf8.SurrogateIsCodePoint | interp/argv_wtf8.go:144-160 | the three bytes carry the code point U+DC00 plus the byte |
| ArgvWtf8.EncodeDecode | interp/argv_wtf8.go:65-142 | decoding an encoded argument gives it back, for every byte string, raw surrogates included |
| ArgvWtf8.UnchangedIffValid | interp/argv_wtf8.go:65-91 | encoding changes nothing if and only if the argument is valid UTF-8 by RFC 3629 |
| ArgvWtf8.ValidIsDecodedAsIs | interp/argv_wtf8.go:121-142 | a valid argument is not misread |
| ArgvWtf8.ListRoundTrip | interp/argv_wtf8.go:43-118 | the round trip for whole lists, unchanged if and only if every argument is valid |
| GcImage.DroppedOffsets | gosource/diag_gcimage.go:24-44 | the offsets of NULs, of bytes outside any character and of byte order marks after the first character |
| GcImage.GcSourceImage | gosource/diag_gcimage.go:24-58 | the image is the source without exactly those offsets, and the source itself when there are none |
| GcImage.DroppedOrder | gosource/diag_gcimage.go:24-44 | the dropped offsets strictly increase and lie inside the source |
| GcBytes.DroppedByBytes | gosource/diag_gcimage.go:24-44 | told from the bytes alone: a byte is dropped if and only if it is a NUL, belongs to no RFC 3629 character anywhere in the source, or is one of EF BB BF not at its start |
| GcImage.Original | gosource/diag_gcimage.go:147-153 | the loop computes the original offset of an image offset |
| GcImage.OriginalIsFaithful | gosource/diag_gcimage.go:24-153 | each image byte is the source byte at its original offset, which was not dropped, and the end maps to the end |
| GcImage.OriginalIncreases | gosource/diag_gcimage.go:147-153 | the offset map is strictly increasing |
| GcImage.OriginalReachesAllKept | gosource/diag_gcimage.go:24-153 | every offset that was not dropped is the original of some image offset |
| GcImage.ImageIsIdempotent | gosource/diag_gcimage.go:24-58 | nothing is dropped from an image |
| Environ.SortStable | expand/environ.go:490-504 | an order by the name and its equals sign, compared as they are or regardless of case, with every name's pairs kept in their order |
| Environ.ListEnviron | expand/environ.go:487-524 | in both modes: valid pairs with strictly increasing names that answer every name as the given pairs do, whichever spelling the scan remembers |
| Environ.StableSortKeepsLookup | expand/environ.go:490-504 | a stable sort changes no answer of the last-valid-pair scan |
| Environ.DeleteKeepsLookup | expand/environ.go:506-521 | deleting an invalid pair, or one that the next overrides, changes no answer |
| Environ.AgainstIsKeyOrder | expand/environ.go:545-557 | the comparator on a whole pair and a bare name orders them as `key=` against `name=`, for every name without an equals sign |
| Environ.CompareIsLexicographic | expand/environ.go:532-540 | the order is that of dictionaries, byte by byte |
| Environ.FoldIgnoresCase | expand/environ.go:532-540 | regardless of case two names are alike if and only if they differ in the case of ASCII letters alone |
| Environ.Get | expand/environ.go:542-562 | the bisection loop computes `Got`, including the slice that can run past the pair's end |
| Environ.SearchIsLookup | expand/environ.go:542-562 | on an indexed list bisection answers what the scan answers, for every name without an equals sign |
| Environ.GetFrom | expand/environ.go:487-562 | built from any pairs, the environment answers such a name with the last valid pair of that name, or unset |
| Environ.LeadingEquals | expand/environ.go:542-562 | a name that starts with an equals sign is never found |
| Environ.WholePairIsOutOfRange | expand/environ.go:558-560 | asking for the text of a whole pair matches it and slices past its end |
| Environ.SearchRightIff | expand/environ.go:542-562 | bisection is right in every indexed environment if and only if the name has no equals sign or starts with one |
| IndexedArray.Variable.constructor | expand/environ.go:256-263 | an empty array stands for the empty map |
| IndexedArray.Variable.IndexedElem | expand/environ.go:269-277 | a set index reads as the map does; an unset one reads empty while nothing stale is left |
| IndexedArray.Variable.IndexedSet | expand/environ.go:282-290 | true exactly on the map's domain |
| IndexedArray.Variable.IndexedIndexes | expand/environ.go:294-313 | the strictly ascending enumeration of exactly the map's domain, whatever order the Go map yields |
| IndexedArray.EnumerationIsUnique | expand/environ.go:294-313 | there is only one such enumeration |
| IndexedArray.Variable.IndexedValues | expand/environ.go:317-324 | the map's values along that enumeration |
| IndexedArray.Variable.CloneListSet | expand/environ.go:375-386 | a set with the same members, false entries dropped |
| IndexedArray.Variable.DenseListSet | expand/environ.go:398-410 | a set of exactly the indexes that count |
| IndexedArray.Variable.SetIndexed | expand/environ.go:332-367 | the map gains the element, the list stays within the dense bound and the overlay above it; only one of the two is touched |
| IndexedArray.Variable.UnsetElem | interp/vars.go:2025-2042 | the map loses the element; the list is cut back to its last set index |
| IndexedArray.Replay | expand/environ.go:256-367 | after any sequence of assignments and removals the variable stands for the map given the same updates |
| Glob.GlobsHead | expand/param.go:907-961 | the declarative match (one piece for each token) decided at the first token: some cut that the token accepts and a match of the rest |
| Glob.StarsCollapse | expand/param.go:911-914 | a run of stars means one star |
| Glob.GlobsAfterStar | expand/param.go:919-923 | a star skips any number of bytes, and only that |
| Glob.RuneMeansChar | internal/pattern.go:80-89 | the rune token stands for one character of RFC 3629, or for one byte that starts none |
| BytePattern.ByteBracketMatch | expand/param.go:963-1038 | a bracket expression is reported closed exactly when its members end, with the position after it, and matches when negation and membership of the byte differ |
| BytePattern.BytePatternMatch | expand/param.go:907-961 | true if and only if the name can be cut into one piece for each token of the pattern: sound, complete and terminating, with brackets, escapes and case folding |
| PatternText.OrdinaryMatches | expand/param.go:907-961 | a pattern of ordinary bytes matches itself alone, up to case if case is ignored |
| PatternText.BackslashedMatches | expand/param.go:938-949 | any bytes with a backslash before each match themselves alone |
| PatternText.WildcardsMatch | expand/param.go:910-927 | in front of any pattern a question mark takes one byte and a star any number |
| PatternText.NegationTakesOthers | expand/param.go:963-1038 | of a closed bracket expression and the same text after an exclamation mark or a caret exactly one takes a byte, before what follows both |
| PatternText.SetMatches | expand/param.go:963-1038 | a list of bytes in brackets takes each of them and nothing else |
| PatternText.RangeMatches | expand/param.go:1006-1028 | a range takes the bytes between its ends |
| PatternText.ClassMatches | expand/param.go:995-1005 | a class name takes the bytes of that class |
| PatternText.ClassesRelate | expand/param.go:1051-1085 | the classes relate as POSIX has it: letters are upper or lower case, graphic bytes letters, digits or punctuation, ASCII is printed or controls, each exclusively |
| InternalPattern.BytePatternMatch | internal/pattern.go:63-111 | the same for the sibling without brackets and folding whose question mark takes a rune |
| InternalPattern.AgreeOnAscii | internal/pattern.go:63-111 | without brackets the two matchers agree on every ASCII name |
| InternalPattern.DifferBeyondAscii | internal/pattern.go:80-89 | a question mark takes a two-byte rune in one and one byte in the other |
| InternalPattern.CanPartition | internal/pattern.go:192-207 | true if and only if the name is a concatenation of non-empty pieces that all miss the inner pattern |
| InternalPattern.RepeatedNegationMatch | internal/pattern.go:208-217 | any number of such pieces, or at least one |
| InternalPattern.NegatedMatch | internal/pattern.go:276-305 | true if and only if the name divides into a prefix and a missed span for each group and a tail the suffix accepts |
| Replace.BestEnd | expand/param.go:885-891 | the longest match that starts at a position, or the fact that none does |
| Replace.FindReplIndexBytes | expand/param.go:866-905 | anchored: the longest matching prefix or suffix; unanchored: each span longest where it starts, no match starting in any gap, and none left unless the count ran out |
| Replace.SpansOrdered | expand/param.go:882-903 | spans lie in the value, their starts strictly increase and no two overlap |
| Replace.FindIsUnique | expand/param.go:882-903 | that description has one solution, so it determines the spans |
| Replace.StarFindsTwice | expand/param.go:882-903 | a lone star also finds the empty string right after a non-empty value it has matched whole |
| Replace.RenderRepl | expand/param.go:1167-1183 | the template rendered segment by segment, the text of each segment between what those before it and those behind it render to |
| Replace.RenderedAppend | expand/param.go:1167-1183 | rendering two templates in a row is rendering them one after the other; a text renders to itself and a placeholder to the match |
| Replace.RenderedAlike | expand/param.go:766-783 | without a placeholder one rendering serves every match |
| Replace.ReplaceSpans | expand/param.go:772-786 | text between the spans is kept and each span is replaced by the rendering of its own text, in place (Replace.ReplacedAt) |
| Replace.ReplacedAt | expand/param.go:772-786 | each span's rendering stands between what becomes of the text before it and of the text behind it |
| Replace.ReplacingByMatchIsIdentity | expand/param.go:772-786 | replacing every span by its own matched text rebuilds the value, for any spans in order |
| Replace.ReplaceAllByMatch | expand/param.go:772-905 | search and replacement together return the value when the template is the match |
| Replace.RemovePrefix | expand/param.go:2691-2706 | the shortest or longest matching prefix over the split points is cut; without one the value stays |
| Replace.RemoveSuffix | expand/param.go:2708-2721 | the same for suffixes |
| Replace.RuneSplitPoints | expand/param.go:2724-2734 | the split points are exactly the places between decoded runes, in order |
| Replace.ByteSplitPoints | expand/param.go:2736-2742 | the split points are all offsets, in order |
| FieldSplit.Splitter.Flush | expand/expand.go:2846-2852 | closes the open field, if there is one |
| FieldSplit.Splitter.EmitEmpty | expand/expand.go:2864-2867 | closes a field whose text is that of the open one, empty if there was none |
| FieldSplit.Splitter.SplitAdd | expand/expand.go:2899-2995 | the late counting of separators leaves the fields of an automaton that decides at each character, with one more empty field when the value is not the last of its list and ends in a hard delimiter |
| FieldSplit.Splitter.SplitAddElem | expand/expand.go:2999-3011 | the same for one element of a list; an empty element that is kept closes a field |
| FieldSplit.RunSeparators | expand/expand.go:2899-2995 | a run of separators closes the open field and one empty field for each delimiter beyond it |
| FieldSplit.BlankRunClosesNothing | expand/expand.go:2899-2995 | a run of separators closes the open field alone, softly, if and only if it is made of spaces, tabs and newlines |
| FieldSplit.FieldCount | expand/expand.go:2899-2995 | one field is closed for each non-whitespace delimiter, and one for each whitespace-only run that finds a field open |
| FieldSplit.SplittingKeepsText | expand/expand.go:2899-2995 | the joined text afterwards is the old text followed by the value without its IFS characters |
| FieldSplit.SoftMeans | expand/expand.go:2899-2995 | one more delimiter may be absorbed exactly when the value ends in whitespace separators alone after some field |
| FieldSplit.SplitTwice | expand/expand.go:2899-2995 | adding two values in turn and adding them joined leave the same field texts if and only if the first does not end softly or the second starts with no delimiter |
| FieldSplit.SpaceThenColon | expand/expand.go:2899-2995 | the smallest pair of values for which they differ |
| ChannelDomain.Planner.Find | gosource/channel_domain.go:96-105 | terminates in every reachable forest and returns the representative of the key's group; path compression changes no group |
| ChannelDomain.Planner.Union | gosource/channel_domain.go:106-113 | exactly the two groups are joined; empty keys join nothing |
| ChannelDomain.RepIsGroup | gosource/channel_domain.go:93-113 | two keys have one representative if and only if a path of the joins so far connects them |
| ChannelDomain.Planner.UnionTypes | gosource/channel_domain.go:114-121 | every key of one type is joined with every key of the other and nothing else is reported |
| ChannelDomain.Planner.Select | gosource/channel_domain.go:210-242 | the channels of one select end in one group and become candidates; nothing else changes |
| ChannelDomain.Planner.Certify | gosource/channel_domain.go:287-297 | exactly the candidates whose whole group has no boundary key, and none if anything was opaque |
| ChannelDomain.Plan | gosource/channel_domain.go:92-297 | the same for all the reports of a traversal, in any order |
| ChannelDomain.OrderDoesNotMatter | gosource/channel_domain.go:92-297 | the certificate depends on which reports were made, not on their order or number |
| ChannelDomain.NativeFuncs | gosource/channel_domain.go:128-183 | the passes end with the least set closed under binding: exactly the objects an imported function reaches |
| ChannelDomain.KeyWalk.Visit | gosource/channel_domain.go:30-70 | visits only what is reachable, and nothing it has newly seen leads out of what is seen |
| ChannelDomain.ChannelTypeKeys | gosource/channel_domain.go:30-76 | exactly the keys of the channel types reachable from the type, cycles included |
| BraceWords.MergeAdjacentLits | expand/braces.go:223-241 | the loop computes the merge of adjacent literals |
| BraceWords.MergedIsMerged | expand/braces.go:223-241 | no two literals in a row remain, and no brace appears |
| BraceWords.MergedWithin | expand/braces.go:91-96 | merging a part of a word before merging the whole changes nothing |
| BraceExpansion.Delivery.BracesSeqRec | expand/braces.go:80-207 | for every parsed word, hands over the words of `Yields` in order and stops at once when a word is refused |
| BraceExpansion.Delivery.ExpandSequence | expand/braces.go:97-176 | the same for the numeric loop, followed through a 64-bit wrap-around until the limit on words ends it |
| BraceExpansion.Delivery.ExpandList | expand/braces.go:178-205 | the same for a list, with its rule for empty elements |
| BraceWords.YieldsProductIff | expand/braces.go:80-207 | when all sequences fit their loops, the words yielded are, in order, the left-to-right product of all alternatives if and only if no list with an empty element may stand bare at the end; when none does, if and only if all sequences fit |
| BraceWords.SkipsByChoice | expand/braces.go:178-205 | that structural condition is met exactly when the rule for empty elements drops an alternative at the first brace, or does after some choice there |
| BraceWords.YieldsAll | expand/braces.go:80-207 | the words are the product when nothing is dropped and every sequence fits |
| BraceWords.YieldsFewer | expand/braces.go:178-205 | with sequences that fit, there are never more words than the product has, and fewer as soon as one alternative is dropped anywhere |
| BraceWords.YieldsMore | expand/braces.go:80-176 | with nothing dropped there are never fewer words than the product has, and more as soon as one sequence does not fit |
| BraceWords.YieldsProduct | expand/braces.go:80-207 | in particular, the words are the product when every list element has text |
| Words.ProductAppend | expand/braces.go:80-207 | that product is compositional |
| ProductOrder.ProductInOrder | expand/braces.go:80-207 | the words of two parts in a row: each word of the first with all words of the second, in order |
| ProductOrder.ListInOrder | expand/braces.go:178-205 | the words of a list are those of its elements, in order |
| BraceWords.YieldsAreExpanded | expand/braces.go:80-207 | for every word, no brace and no adjacent literals remain in what is yielded |
| BraceWords.YieldsSome | expand/braces.go:178-207 | every parsed word yields some word, however many elements are empty |
| Words.ChoosingShrinks | expand/braces.go:80-207 | each recursive call has fewer braces left, so the recursion ends |
| NumericLoop.StepOf | expand/braces.go:123-143 | the increment, with negations that wrap, is the size of the step in the direction of the range modulo 2^64, whatever the sign of the step |
| Progression.NumbersAreProgression | expand/braces.go:117-150 | the numbers of a sequence are exactly those between its ends whose distance from the start is a multiple of the step's size, in order from the start |
| Progression.SequenceAlternatives | expand/braces.go:97-176 | the alternatives of a sequence are the texts of those numbers, in order |
| Progression.StepSignIsIgnored | expand/braces.go:125-143 | a step and its negation give the same words |
| Progression.LoopIsProgression | expand/braces.go:144-175 | a loop that fits runs through exactly those numbers, in order, and ends |
| Progression.DecimalMeans | expand/braces.go:163-168 | the text of a number has its value, is at least as wide as asked and padded no further, with a sign for a negative number alone |
| NumericLoop.FitsIffLoopEnds | expand/braces.go:144-175 | the loop over 64-bit counters ends after exactly the numbers the sequence should have if and only if the last one is the operand itself or one more step stays in 64 bits |
| NumericLoop.LoopCountIs | expand/braces.go:144-175 | counted far enough, the loop has the right number of numbers if the sequence fits and more if it does not |
| NumericLoop.StepWrapsAround | expand/braces.go:144-175 | from 2^63 - 2 up to 2^63 - 1 by two the loop goes on from the smallest number instead of ending |
| BraceExamples.ElisionForgetsPrefix | expand/braces.go:178-205 | `a{{,c},d}` yields two words where the product has three: the empty element is judged without the text before the outer brace |
| BraceExamples.ElisionSideBySide | expand/braces.go:178-205 | `x{a,}{,c}` yields three words where the product has four, without any nesting |
| BraceExamples.BackupIsProduct | expand/braces.go:178-205 | `file{,.bak}` yields its product |
| BraceExamples.TooManyAndTooFew | expand/braces.go:80-207 | a word with a sequence that does not fit and with elements that are dropped, which yields its product all the same: two words too many make up for two too few |
| BraceExpansion.FedLength | expand/braces.go:42-60 | words handed over add up as long as none is refused, and never pass 16384 |
| BraceExpansion.FedIsDelivered | expand/braces.go:42-60 | words in order, each but the last accepted, nothing after a refusal or an error, at most 16384 words |
| BraceExpansion.RefusedIff | expand/braces.go:63-75 | a word is refused if and only if it is all text and some backquote has anything behind it; it is named by its text from the first backquote on |
| BraceExpansion.BracesSeq | expand/braces.go:42-60 | that delivery for every parsed word, and of its product when nothing is dropped and every sequence fits |
| TokenName.IndexOfName | gosource/cgo.go:105-111 | distinct numbers have distinct names |
| TokenName.NameOfIndex | gosource/cgo.go:105-111 | every non-empty word over the 36 digits is a name |
| TokenName.FreshAlias | gosource/cgo.go:77-80 | the loop ends within one more try than there are names in use, with the first alias not among them |
| JsonString.JsonStringMetrics | expand/object.go:366-402 | the exact length of the encoded string with HTML escaping, and the number of characters that take an escape |
| JsonString.QuotedTwiceSize | expand/object.go:404-421 | the exact length of a string quoted twice: four bytes, one for each escape and one more for each quote or backslash |
| JsonDecode.StringReadsBack | expand/object.go:366-402 | a reader of JSON strings gives the string back if and only if it is valid UTF-8; otherwise each byte of no character comes back as U+FFFD |
| JsonDecode.BodyIsSafe | expand/object.go:366-402 | no control character is written, and with HTML escaping no angle bracket or ampersand |
| JsonPreflight.Preflight.AddBytes | expand/object.go:119-125 | adds exactly, or refuses and leaves the sum, which never passes 64 MiB |
| JsonPreflight.Preflight.PreflightObject | expand/object.go:127-268 | accepts a value if and only if nothing is met twice on the way down, no part is turned down, and the visits and the bytes fit beside those already made; an accepted value adds exactly its visits and its `Cost`, and has an encoding if and only if its number texts are spelled as numbers; the path set is restored whatever the answer; a cycle or depth error means there is one |
| JsonPreflight.ValidObject | expand/object.go:79-95 | accepts a value if and only if the walk lets it pass from nothing and it has an encoding of at most 64 MiB; of values that pass, exactly those with a number text that is no number are turned down by the encoder; then the encoding exceeds the counted bytes by no more than what quoted strings add, and there is no cycle |
| JsonLimits.EncodesIff | expand/object.go:79-95 | a value of which the walk turns down no part has an encoding if and only if every number text that is written in it is a number literal or empty |
| JsonNumber.ScanIsGrammar | expand/object.go:452-457 | the encoder's scan of a number's text accepts exactly the literals of section 6 of RFC 8259 |
| JsonPreflight.LetterIsNoNumber | expand/object.go:452-457 | number text that is a letter passes the walk and has no encoding |
| JsonPreflight.QuotedFieldExtra | expand/object.go:404-421 | the extra bytes for a quoted scalar, through pointers and nil |
| JsonLimits.PassNext | expand/object.go:113-125 | values pass one after the other if and only if the first ones do and the last does beside their visits and bytes, so that the totals alone decide |
| JsonValue.UnfoldsMeansAcyclic | expand/object.go:127-268 | on no path down is a pointer, slice or map met again, and no path is longer than the depth bound |
| JsonCost.SizeAccount | expand/object.go:127-275 | the encoding's size is exactly the bytes counted, plus the quotes and backslashes of quoted strings that are written, minus what is counted too much: a true boolean, a short float, number text, string keys, the longer of two names, omitted fields and their commas |
| JsonCost.CountIsEnoughIff | expand/object.go:127-275 | so the count is enough for a value if and only if what it counts too little is at most what it counts too much |
| JsonCost.PlainlyQuotedFits | expand/object.go:127-275 | without quotes and backslashes in quoted string fields the count is always enough |
| JsonCost.WithinCost | expand/object.go:127-275 | in any case the encoding exceeds the count by no more than those quotes and backslashes |
| JsonCost.QuotedFieldSize | expand/object.go:404-421 | for a quoted field the count is exact but for those bytes |
| JsonCost.QuotedSizeIsEnoughIff | expand/object.go:404-421 | for one quoted string field the count is enough if and only if the string has neither quotes nor backslashes |
| JsonCost.SumFallsShort | expand/object.go:239-263 | a struct whose encoding is one byte longer than the count |

## Left out

- Tuple: panics, and so the order in which nil dereferences and bounds errors appear; conversion of the resulting statements; the boolean typing of results. Temporaries are fresh by construction.
- CellShare: the contents of the copied fields (a field is a number), the memory model below single field moves, and the callers that bracket several stores by hand.
- AsyncSignal: asyncCallerContext and the contexts derived from a run; the trap table's own lock, read as one step; the status a finish makes of the signal.
- Grammar.Matcher.MatchNode: requires that hooks stay within the source and leave the trail alone, because the scanner of opaque Bash text and the parser of grammar files are not part of this model; `fence-lexeme` is.
- Derivations.MatchAll: states are copies, so the farthest position, which no caller reads from them, is not modelled.
- Utf8: encoding runes, and the identification of runes equal to the error rune.
- GcImage: rewriting characters the scanner rejects, mapping positions through the tree, and line directives.
- Environ: the case-insensitive mode upper-cases each byte by itself, as is right for ASCII names; other characters, whose upper case can have another length, are not modelled. The library's stable sort is an insertion sort with the same contract.
- IndexedArray.Variable.SetIndexed: the caller's clones are taken for granted, so sharing of the backing slices is not modelled. IndexedArray.Variable.UnsetElem starts where the subscript is a non-negative or negative number.
- BytePattern: locales, and the regular expressions used for patterns without byte semantics.
- InternalPattern.NegatedMatch: inner patterns, prefixes and suffixes are arbitrary predicates on byte strings; compiling them, splitting unions and the check for a leading dot on the whole name are left out.
- Replace: parsing the template and the pattern, anchors in the pattern text, and the locale path.
- FieldSplit.Splitter.SplitAdd: a value is a sequence of characters as the range loop yields them; the rest of the word expander, quoting and globbing are left out. The two other copies of the loop lack only the flag for lists.
- ChannelDomain.Plan: which reports the syntax tree gives rise to depends on type information and is not modelled; a report is any join, boundary, candidate or opaque use. ChannelDomain.ChannelTypeKeys takes a type as a node of a finite graph; its memo is left out.
- BraceExpansion.BracesSeq: character sequences, and parsing the operands of a numeric one. The padding flag is given as a width; a list has an element and operands are 64-bit numbers, as the parser leaves them.
- BraceWords.YieldsProductIff: says nothing of a word in which a sequence does not fit and an empty element is dropped as well, where words too many and too few do cancel out at times (`BraceExamples.TooManyAndTooFew`).
- JsonCost.SizeAccount: map entries are encoded in the order of the walk rather than sorted, which has the same length; embedded struct fields, tags, and the methods that refuse a type are given with the value; the spelling of a float is any text of at most 32 bytes.
- JsonPreflight.Preflight.PreflightObject: the cases are split over several methods, and the shared handling of the path set is written once.
- TokenName.FreshAlias: renaming the identifiers of the package.
- File system, globbing walks, terminals, printf formatting, arithmetic, prompt escapes and builtins: not modelled.
