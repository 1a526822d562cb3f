# Landin's checks, modelled and proved

Landin is a compiler whose repository carries its own checkers: a grammar
recogniser that decides whether the documented grammar derives a source, three
hand-written scanners of Landin text, an evaluator that runs Cortex-M0+ images
one Thumb instruction at a time, a lock protocol that keeps a build from
replacing an executable somebody is running, and a verifier that decides
whether a linked executable is what its inputs say. This project models these
five and proves what each is for. `dafny verify dfyconfig.toml` checks all of
it.

Definitions that a specification shares with the code it specifies are pinned by
lemmas of their own, in files named for it: what each terminal matches, what form
each token has, what each instruction does, what each event of the lock protocol
does, each with its names, characters, opcodes and offsets written out.

Where the program updates things in place the model does too (`Pruned`,
`Recogniser`, `Matcher`, `Notation`, `Scanner`, `Evaluation`, `BuildTree`, and
the loops of `visible_code`, `landin_tokens`, the fixed points and the
depth-first search are methods), and each method is proved equal to a function
or a relation about which the laws are then lemmas. The lock protocol is a
transition relation, because what matters is how processes interleave.

## The grammar recogniser

`Grammar.dfy` has trees as numbered nodes with children below their parents, as
`id()` names them in the source, and says what derives what by proof trees in
which every iteration of `*` and `+` consumes something. `Ends` is the set of
places a node can end. `Analysis.dfy` computes the nullable nodes and FIRST sets
by the source's loops, proves them least, and proves that no guard made from
them skips a call with an answer. `Search.dfy` is the search for left recursion:
its answer is exactly whether some production leads back to itself, and when it
says no it leaves a ranking. `Unpruned.dfy` is the memoised recogniser with its
in-progress marks; `Compiled.dfy` the compiled one, its closures represented by
a datatype, with choice tables, guards, per-rule memo and rules compiled when
first called. `Recognise.dfy` puts them together: on every grammar and token
list the verdict is derivation, or a refusal exactly when answering comes round
to a question still being answered, which happens only in grammars the search
reports; and pruning changes no verdict. `Lexical.dfy` is the matcher of lexical
rules and `Straight.dfy` the derivations it can find. `LeftCalls.dfy` says what the
analysis means: which nullable nodes derive nothing, that left recursion is a
question that comes round to itself before any tokens at all, and FIRST node by
node. `Terminals.dfy` has what every terminal matches, over tokens and over
characters, rule name by rule name. `Notation.dfy` is the reader of right-hand
sides, against a relation of what words spell what tree, with its escapes;
`WordForms.dfy` and `Escapes.dfy` have what each kind of word and each escape reads
as; `Readable.dfy` prints trees and says which some words read as.

## The scanners

`Visible.dfy`, `Highlight.dfy` and `Tokens.dfy` are `visible_code`, the
highlighter's `Scanner` with its token expression, and `landin_tokens`. They are
written independently in the source, and `Blanking.dfy` and `Agreement.dfy` say
exactly when they see the same code. `TokenForms.dfy` says without a scanner what a
comment, a number, a word, a literal and a sign are, and that a source is accepted
exactly as it is tiled by them, and `Complaints.dfy` what each complaint about a
refused one means; `VisibleForms.dfy` and `HighlightForms.dfy` have, for
the other two, what each stretch is taken for and how far it reaches. `Characters.dfy` and `Options.dfy` have what
the scanners and everybody share.

## The evaluator

`ThumbWords.dfy` has the arithmetic of words (DDI 0419, sections A2.2.1 and
A6.3), `ThumbMachine.dfy` one function per instruction form, and
`ThumbEvaluation.dfy` the machine that updates registers, flags, memory and
trace, proved equal to those functions, refusals included. Then
`ThumbRuns.dfy` (what every run keeps), `ThumbRanges.dfy` (how far from words
registers can get), `ThumbSigns.dfy` (exactly when a run holds words, and what a
negative register does to sums and shifts), `ThumbBits.dfy` (what each
data-processing instruction computes, byte reversals, and where a BL can go),
`ThumbCompares.dfy` (compares and the branches behind them), `ThumbStack.dfy`
(stores, loads, PUSH and POP) and `ThumbLimbs.dfy` (chains of ADDS/ADCS and
SUBS/SBCS). `ThumbForms.dfy` goes through the instructions by their halfwords, with
the registers, results, flags and branch targets of each, and those that are
refused; `ThumbMoves.dfy` through loads and stores, with address, width and
extension; `ThumbTraces.dfy` says what a step fetches and that a run is the trace
of its steps up to the first that ends it.

## Locks and links

`Locks.dfy` has any number of processes, each with the plan of locks its role
takes, in the order of the source; a process tree whose commands inherit its
locks is one process, and a process may end at any step. `Deadlock.dfy` says
exactly which reader plans can deadlock, `Finishing.dfy` that otherwise everybody
can finish, and what this comes to for plans of one tag. `LockForms.dfy` has, event
by event, when it can happen and what it leaves of every process and file. `Link.dfy` has the
verifier beside a builder that may change objects and library as it likes and may
or may not link, and the two rounds `landin_link` gives such a builder.

## What is true and what is not

* A `+` over a body that can be empty never returns its own start, although the
  analysis calls it nullable (check.py:1406-1407 against 1766-1777). The
  derivation relation follows the recogniser; nullable and FIRST are proved to
  be over-approximations, which is all pruning needs. Nullable is exact if and
  only if no `+` has a nullable body (`NullableExactly`), and then a grammar is
  left recursive exactly when some question comes round (`LeftRecursionExactly`).
* `unescape` replaces one kind of escape after another over the whole text
  (check.py:801-806), so a backslash before `t` is a tab even behind another
  backslash, and doubling a backslash does not protect it
  (`DoubledBackslashIsLost`). A text has a quoted word that reads as it exactly
  when no backslash in it stands before `t`, `n` or `r` (`WritableExactly`).
* The reader takes signs for rule names where nothing else uses them: an operator
  at the beginning of a sequence, `...` except between a literal and another
  word. And the upper end of a range is any word at all, without
  its first and last character (check.py:857-863). `ReadableExactly` has exactly
  the trees that some words of the notation read as.
* `lexical_matches` answers nothing to a question it is answering, and remembers
  what came of that (check.py:921-925). What it matches is always derived without a
  question coming round, so a left-recursive rule is not matched where it calls
  itself: `LeftRecursionIsMissed` has a rule, and a text it derives and is said not
  to.
* LDRSB, LDRSH, SXTB, SXTH and REVSH leave a negative number in a register
  instead of its word. Every state of a run holds words exactly when every one of
  those steps reads a value with its sign bit clear (`RunHoldsWords`); every run
  stays above -32768 (`RunKeepsRange`). Results of additions are right all the
  same; the carry is right exactly when no operand is negative, or one is and the
  sum too (`AddOfNegative`). LSL and ASR do what they do to the word; LSR is right
  only by nothing or by 32 and more, and `shift` by an immediate does not mask it
  (`LsrOfNegative`, `ShiftImmediateOfNegative`); ROR is right exactly when what it
  turns round is all ones (`RorOfNegative`). After a compare the unsigned orders
  find a negative operand lower than anything (`FlagsOfNegative`);
  `SignedCompareHappens` is such a run of two instructions.
* The lock module's description says that the order of locks excludes
  deadlock. That order says nothing of the readers locks of several builds, which
  tag cleanup takes debug first. Whatever plans readers are allowed, a state in
  which nobody can move is reachable exactly when some of them form a ring: each
  asks for the debug build of the next one's tag behind the release build of its
  own, and behind the debug build of no tag of the ring (`DeadlockExactly`). With
  plans of one tag each this is a plan that asks for release and then debug, with
  no debug before (`OneTagExactly`). `OutOfOrderHappens` and `AcrossTagsHappens`
  are runs from nothing into such states. emit_manifest.py reads the two builds of
  one tag in one process, in the order debug, release, which forms no ring.
* A remake removes the executable and, with a stale library, its exchange file.
  Two rounds then always end in a link, and without any one of the removals they
  need not (`SettlesExactly`).
* The highlighter takes a run of signs as one token, so `+--(` hides the
  beginning of a comment from it (`SignHidesComment`); a stray `)--`, an
  unclosed literal or a character literal of more than one character are read
  differently too. `BlankingAgrees` has the exact condition.
* `grammar_signs` collects the comment closing among the signs if a production
  spells it, and then `landin_tokens` takes a stray `)--` as one sign while
  `visible_code` sees a line comment in it (`CloserAsSign`). `MasksExactly` has
  the exact condition for one source, and `ClearExactly` the one on the signs for
  all of them: a sign that can be taken has behind its first character no quote,
  no two hyphens, and no hyphen at its end.

## Model

| member | source | states |
|---|---|---|
| Grammars.EndsAreDerivations | check.py:1701-1784 | the ends of a node are where a proof tree takes it: a tree of derivations in which every iteration consumes |
| Grammars.EndsStar | check.py:1766-1777 | the ends of a `*` are its start and the ends of one or more consuming iterations |
| Grammars.EndsPlus | check.py:1766-1777 | the ends of a `+` are those of one or more consuming iterations, and so never its start |
| Grammars.EndsItemsSnoc | check.py:1754-1763 | a sequence ends where its last item ends, started anywhere the items before it end |
| Grammars.ManyClosed | check.py:1656-1674 | a set closed under one more consuming iteration holds every end of the repetition |
| Terminals.KindRules | check.py:1720-1745 | the seven rules read by the kind of a token, each by its name: one token on where the token is of that kind, an identifier where it is a word that is not reserved, a literal where it is scanned as one or spells true, false, zeroed or uninit |
| Terminals.OtherRules | check.py:712-722 | of all other names, those the scanner owns read any token, and the rest are their productions, or nothing without one |
| Terminals.TokenTerminals | check.py:1714-1719 | over tokens a literal reads the token that is spelled so, of whatever kind, bytes read any, ranges and scalars none |
| Terminals.CharacterTerminals | check.py:927-948 | over characters what each class reads: ranges by their ends in Python's order, bytes any, text bytes and scalars by the characters they exclude, by code |
| Terminals.TextLiterals | check.py:929-931 | over characters a literal reads its own characters, where they stand |
| Terminals.TextRules | check.py:949-950 | over characters every rule is its production, the names the scanner owns included |
| Analyses.TokenFeatures | check.py:1319-1339 | the features of each token are those of the specification |
| Analyses.FeatureIsMatch | check.py:1322-1327 | a feature is present exactly when the unpruned recogniser's test of the token says yes |
| Analyses.Collect | check.py:1370-1380 | the nodes collected are the least set that holds every production and is closed under children, each once |
| Analyses.NullableNodes | check.py:1391-1442 | the loop ends at the least solution of the nullable equations |
| Analyses.FirstNodes | check.py:1393-1449 | the loop ends at a solution of the FIRST equations, and the least |
| Analyses.NullableCovers | check.py:1389-1391 | a node that derives the empty stretch is nullable |
| Analyses.FirstCovers | check.py:1389-1391 | a node that derives a stretch that is not empty has a feature of its first token in its FIRST set |
| Analyses.GuardSkipsNothing | check.py:1524-1537 | where a guard does not admit, the node has no derivation at all |
| Searches.RankedIsAcyclic | check.py:1451-1453 | a ranking that every leading call lowers rules out cycles |
| Searches.LeftRecursive | check.py:1472-1492 | the iterative search says yes exactly when some node leads back to itself, and otherwise every leading call lowers a rank |
| Unpruned.AskingDescends | check.py:1701-1784 | a question only asks others further on, or at the same place along a leading call: the termination measure |
| Unpruned.CircularIsCyclic | check.py:1701-1710 | if answering comes round to the same question, the leading calls have a cycle |
| LeftCalls.NullableExactly | check.py:1397-1408 | the nullable nodes are those that derive nothing, before any tokens at any place, if and only if no `+` has a nullable body |
| LeftCalls.LeftRecursionExactly | check.py:1451-1470 | where no `+` has one, a grammar is left recursive exactly when some question comes round to itself, and that is so at every place of every token list, whatever the tokens |
| LeftCalls.FirstByForm | check.py:1410-1434 | which features can begin each kind of node, feature by feature |
| Unpruned.Recogniser.Item | check.py:1701-1784 | the memoised answer is exactly the set of ends, cached or not; a refusal means the question asked is circular |
| Unpruned.Recogniser.NotCircular | check.py:1701-1710 | a finished table has an answer only for questions that are not circular |
| Unpruned.IterationEnds | check.py:1766-1777 | the frontier loop, once empty, has reached every end of the repetition and no other |
| Compiled.EveryArmPicked | check.py:1598-1627 | an arm the choice table leaves out at a position has no derivation there |
| Compiled.PickedIsEnough | check.py:1598-1627 | the ends of the arms picked by table and guards are the ends of all arms |
| Compiled.ChoiceTable | check.py:1598-1612 | each feature's entry lists exactly the arms whose guard it can meet, each once and in the order of the arms |
| Compiled.Pruned.Build | check.py:1552-1582 | the code built for a node computes that node, whatever simplification was made |
| Compiled.Pruned.Run | check.py:1510-1686 | running the code of a node at a position returns exactly its ends |
| Compiled.Pruned.RunRule | check.py:1584-1596 | a rule's memo answers as its body does, at every position |
| Compiled.Pruned.RunLoop | check.py:1656-1674 | the compiled repetition returns exactly the ends of the repetition |
| Compiled.Pruned.Derive | check.py:1676-1686 | the compiled recogniser says yes exactly to the token lists the start rule derives |
| Recognition.Analyse | check.py:1342-1507 | the analysis as a whole: least fixed points, and left recursion reported exactly when it is there |
| Recognition.UnprunedVerdict | check.py:1699-1784 | refused exactly when the derivation is circular, otherwise derivation, for every grammar |
| Recognition.AcyclicIsNeverCircular | check.py:1451-1453 | without left recursion no token list makes the unpruned recogniser refuse |
| Recognition.Recognises | check.py:1689-1784 | the verdict is derivation; a refusal happens exactly when the derivation is circular, and only in a left-recursive grammar |
| Recognition.BothVerdicts | check.py:1354-1359 | on every grammar without left recursion the two recognisers give the same verdict on every token list, and neither refuses |
| Lexical.LexicalMatches | check.py:913-980 | yes is always a derivation, and one in which no question comes round to itself, left-recursive grammars included; no is the absence of any derivation when deriving the rule is not circular |
| Lexical.LeftRecursionIsMissed | check.py:921-925 | a left-recursive rule derives a text to which the answer is no |
| Lexical.ConsumingRulesAreWhole | check.py:913-980 | where no lexical rule leads back to itself without consuming, no text makes a question circular, so every text is matched completely |
| Notations.ParseIsExact | check.py:824-878 | a tree is read from exactly the words that spell it, all of them |
| Notations.SpellingIsUnambiguous | check.py:824-878 | no words spell two trees |
| WordForms.QuotedReads | check.py:855-863 | a word that begins with a double quote is a range where dots and another word follow, and otherwise a literal of its inside with the escapes read |
| WordForms.PhraseReads | check.py:864-873 | every other word but an opening parenthesis, by its phrase: a scalar, a text byte, a byte, or the name of a rule |
| WordForms.OperatorsRead | check.py:875-877 | the operators are the question mark, the star and the plus, the innermost first |
| Readability.ParseUndoesPrint | check.py:824-878 | reading what the printer writes gives the tree back: nested alternations, groups, stacked operators, byte ranges, texts with their escapes, and signs read as names |
| Readability.ReadableExactly | check.py:742-878 | of all trees, those that some words of the notation read as are those in normal form: what each item holds can be written, and no item takes the beginning of the next for its own |
| Readability.UpperExactly | check.py:857-863 | which texts the upper end of a range can have, of all the words that can stand there |
| Notations.WritableExactly | check.py:800-806 | some quoted word unescapes to a text if and only if no backslash in the text stands before t, n or r |
| Escapes.UnescapeReads | check.py:800-806 | where no backslash is doubled, `unescape` is a reading from left to right: backslash and t, n, r or a quote are the characters 9, 10, 13 and 34, and everything else is itself |
| Notations.DoubledBackslashIsLost | check.py:800-806 | a doubled backslash before t is read as a backslash and a tab, not as a backslash and t |
| Notations.Notation.ParseAll | check.py:809-878 | the parser that moves along the words computes that reading, and complains where it does |
| Notations.Notation.Item | check.py:847-878 | one item: atom, group or range, with the operators behind it |
| Visibility.VisibleCode | check.py:527-593 | the loop over lines computes the masked lines, its two counters carried from line to line |
| Visibility.SeenLineByLine | check.py:527-593 | masking line by line is one walk over the joined text |
| Visibility.SeenChunk | check.py:534-592 | the walk masks or shows one chunk, wherever in the text it is, and goes on from the state it leaves |
| VisibleForms.CommentChunk | check.py:534-553 | inside a block comment an opening goes one level down, a closing one up, and any other character is masked |
| VisibleForms.RawChunk | check.py:557-566 | inside a raw literal a run of as many quotes as opened it, or more, closes it with so many; a shorter run and any other character are masked |
| VisibleForms.CodeChunk | check.py:567-592 | in code what each beginning is masked as, and how far: a comment of either kind, three or more quotes, a literal in quotes, and any other character shown |
| VisibleForms.ClosingExactly | check.py:575-585 | a literal in quotes reaches to the first quote that no backslash stands before, counted from its beginning, or to the end of the line |
| Highlighting.Scanner.Scan | highlight/landin_highlight.py:174-265 | the pieces concatenate to the line, a raw literal is never open inside a comment, and pieces and state are those of the specification |
| Highlighting.LineIsWhole | highlight/landin_highlight.py:174-265 | the same of the specification, for every line and every state it can be scanned in |
| HighlightForms.MarkedExactly | highlight/landin_highlight.py:67-74 | the token expression's comments and literals, first match first: what each looks like and how long it is |
| HighlightForms.NumberExactly | highlight/landin_highlight.py:75-80 | the numbers of the token expression, by base, fraction and exponent |
| HighlightForms.CommentTurn | highlight/landin_highlight.py:193-207 | inside a comment one piece reaches behind the next opening or closing, whichever is first, with the depth it leaves |
| HighlightForms.CodeTurn | highlight/landin_highlight.py:210-262 | in code what one piece is, how long, and the state it leaves, by the kind of the token |
| Blanking.BlankLines | highlight/landin_highlight.py:303-310 | the symbol table's text: each line with its comments and literals blanked, the scanner carried from line to line |
| Blanking.RawPasses | highlight/landin_highlight.py:183-190 | the search for the closing quotes ends where `visible_code` closes a raw literal, or both leave it open |
| Blanking.CommentTurnPasses | highlight/landin_highlight.py:193-207 | a turn in a comment ends where the character walk has the same depth |
| Blanking.BlankingAgrees | highlight/landin_highlight.py:174-265 | over every sequence of lines, what is blanked is what `visible_code` masks exactly when every line is tidy |
| Blanking.SignHidesComment | highlight/landin_highlight.py:83 | a line where it is not: `+--(` |
| Tokeniser.LandinTokens | check.py:983-1308 | the loops over the source compute the tokens of the specification, or its complaint |
| Tokeniser.LongestSign | check.py:1300-1306 | the sign taken is the longest in the grammar that matches |
| Tokeniser.AcceptedIsTiled | check.py:983-1308 | the tokens of an accepted source are its own slices, in order and disjoint, and between them there is nothing but whitespace and comments |
| TokenForms.AcceptsExactly | check.py:983-1308 | a source is accepted as these tokens, spaces and comments if and only if it is tiled by them, each of the form its kind has, said of the characters without a scanner |
| TokenForms.KindsBySpelling | check.py:1049-1308 | every token of an accepted source by its spelling: an integer begins with a digit, has no point and is an integer of the grammar, a float has one and is a float of it, a word is a keyword or identifier, a sign is `_` or a sign of the grammar, and the three literals by their quotes with their content accepted |
| Complaints.SourceRefused | check.py:983-1308 | a source is refused at the first place where nothing fits, and the complaint is true of what stands there |
| Complaints.RefusedForCause | check.py:983-1308 | the sixteen complaints, each with what it says of the characters: an unclosed literal has no closing, a number that is no integer no point, a name behind a float, and so on |
| Agreement.NestedGoes | check.py:1036-1047 | a block comment the tokeniser closes is masked up to its end, however many lines it has |
| Agreement.RawGoes | check.py:1152-1169 | a raw literal the tokeniser closes is masked up to its end, and code follows |
| Agreement.MasksExactly | check.py:527-593 | for an accepted source without carriage returns, `visible_code` leaves the source with exactly its comments and quoted tokens blanked, if and only if no sign reaches over the beginning of one |
| Agreement.SimpleSignsAreClear | check.py:892-910 | with signs that hide nothing, every accepted source is masked exactly |
| Agreement.ClearExactly | check.py:892-910 | no sign reaches over a comment or literal in any accepted source if and only if every sign that can be taken has, behind its first character, no quote, no two hyphens, and no hyphen at its end |
| Agreement.CloserAsSign | check.py:892-910 | a comment's closing among the signs does: a source where the two differ |
| Agreement.AllThreeAgree | highlight/landin_highlight.py:303-310 | where signs are clear, the highlighter blanks exactly the tokeniser's comments and quoted tokens if and only if every line is tidy |
| ThumbWords.AddIsExact | devices/thumb.py:132-139 | on words, result and C are the sum, N and Z describe the result and V says the signed sum does not fit |
| ThumbWords.AddOfNegative | devices/thumb.py:132-139 | of any operands, negative or not, the result, N, Z and V are those of the words, and C is if and only if no operand is negative, or one is and the sum of the readings too |
| ThumbWords.ConditionsDecide | devices/thumb.py:148-152 | after a compare of two words each of the fourteen conditions decides its relation: equality, unsigned and signed order, sign and signed overflow |
| ThumbForms.MovesImmediate | devices/thumb.py:204-205 | MOVS of a byte: the register is the byte, Z and N describe it |
| ThumbForms.AddsImmediate | devices/thumb.py:208-209 | ADDS of a byte to a word: the sum modulo the width, C exactly when it reaches the width, and nothing but the register and the flags changes |
| ThumbForms.SubtractsImmediate | devices/thumb.py:210-211 | SUBS of a byte: the difference modulo the width, C exactly without a borrow |
| ThumbForms.AddsRegisters | devices/thumb.py:196-199 | ADDS of two registers into a third |
| ThumbForms.SubtractsRegisters | devices/thumb.py:196-199 | SUBS of two registers into a third |
| ThumbForms.AddsSmall | devices/thumb.py:196-199 | ADDS of three bits |
| ThumbForms.SubtractsSmall | devices/thumb.py:196-199 | SUBS of three bits |
| ThumbForms.ShiftsLeft | devices/thumb.py:189-194 | LSLS by an immediate, result and flags |
| ThumbForms.ShiftsRight | devices/thumb.py:189-194 | LSRS by an immediate, with nothing standing for 32 |
| ThumbForms.ShiftsSigned | devices/thumb.py:189-194 | ASRS by an immediate, with nothing standing for 32 |
| ThumbForms.ProcessesData | devices/thumb.py:212-213 | which halfword is which of the sixteen data-processing instructions on which registers |
| ThumbForms.AddsHigh | devices/thumb.py:216-218 | ADD of any two registers, the program counter read four ahead and written even, without flags |
| ThumbForms.MovesHigh | devices/thumb.py:221-222 | MOV the same |
| ThumbForms.BranchesTo | devices/thumb.py:223-227 | BX goes to the register with bit 0 clear |
| ThumbForms.CallsTo | devices/thumb.py:223-227 | BLX too, with the address behind it in LR, bit 0 set |
| ThumbForms.AddressOfCounter | devices/thumb.py:269-271 | ADR: the program counter four ahead, rounded down to a word, plus the offset |
| ThumbForms.AddressOfStack | devices/thumb.py:269-271 | ADD of the stack pointer: the same from there |
| ThumbForms.AdjustsStack | devices/thumb.py:338-340 | the stack pointer up or down by up to 508, by words |
| ThumbForms.Extends | devices/thumb.py:341-345 | SXTH, SXTB, UXTH and UXTB: which halfword is which, and what of the register is left |
| ThumbForms.Branches | devices/thumb.py:290-291 | an unconditional branch goes to its offset, forward or backward, from four ahead |
| ThumbForms.ReadsSystem | devices/thumb.py:398-399 | MRS leaves zero |
| ThumbForms.WritesSystem | devices/thumb.py:400-408 | MSR is recorded when the set-up asks for it and the stack pointers are written, and sets the main one |
| ThumbForms.RecordsBarriers | devices/thumb.py:409-411 | which pair is which barrier in the trace |
| ThumbForms.UndefinedHalfwords | devices/thumb.py:278-296 | the halfwords that are refused |
| ThumbCompares.ComparesOnlyFlags | devices/thumb.py:200-218 | executing any of the three compares, whatever the registers hold, leaves everything but the flags as it was, and those of the compare of its operands |
| ThumbCompares.CompareThenBranch | devices/thumb.py:284-289 | a conditional branch behind any of the compares, on words, is taken exactly where its relation holds of the operands |
| ThumbCompares.FlagsOfNegative | devices/thumb.py:132-152 | of operands that may be negative, a condition says what it says of the words, except the four unsigned orders after a negative first operand: exactly when those are still right |
| ThumbWords.ShiftIsShifts | devices/thumb.py:154-171 | a shift of a word by any amount is that many one-bit shifts, in result and carry |
| ThumbWords.AddChainIsSum | devices/thumb.py:132-139 | a chain of additions with carry is the sum of many-limb numbers |
| ThumbWords.SubChainBorrows | devices/thumb.py:132-139 | a chain of subtractions with carry is the difference, and C says there is no borrow |
| ThumbLimbs.AddLimbs | devices/thumb.py:195-199 | ADDS and then ADCS over any number of limbs, in any registers, is the sum, C the carry out |
| ThumbLimbs.SubLimbs | devices/thumb.py:304-334 | SUBS and then SBCS, in any registers, is the difference modulo the width, C the absence of a borrow |
| ThumbEvaluation.Evaluation.Place | devices/thumb.py:90-94 | after placing, the content is there, every other byte is as it was, and the place is one more region |
| ThumbEvaluation.Evaluation.LoadValue | devices/thumb.py:104-116 | a load from a device window is masked and recorded, one from memory is little-endian, others are refused |
| ThumbEvaluation.Evaluation.StoreValue | devices/thumb.py:118-129 | a store to a device window is recorded and leaves memory alone, one to memory writes its bytes, others are refused |
| ThumbMoves.LoadExactly | devices/thumb.py:104-116 | a load is refused misaligned or outside; from a device window it is the masked answer, recorded; from memory the bytes from the lowest up |
| ThumbMoves.StoreExactly | devices/thumb.py:118-129 | a store is refused alike; to a device window it is recorded, to memory each byte is written in its place and no other |
| ThumbMoves.LoadsLiteral | devices/thumb.py:228-229 | LDR of a literal: the word at the program counter four ahead, rounded down, plus the offset |
| ThumbMoves.MovesAtSum | devices/thumb.py:230-248 | the eight loads and stores at the sum of two registers, each with its width and extension |
| ThumbMoves.MovesAtOffset | devices/thumb.py:249-256 | those of words and bytes at an offset, which counts in the width |
| ThumbMoves.MovesHalves | devices/thumb.py:257-262 | those of halfwords |
| ThumbMoves.MovesOnStack | devices/thumb.py:263-268 | those of words at an offset from the stack pointer |
| ThumbMoves.StoresMultiple | devices/thumb.py:274-285 | STM stores the listed registers from the base up and leaves the base behind them |
| ThumbMoves.LoadsMultiple | devices/thumb.py:274-285 | LDM loads them and leaves the base behind them unless it is listed |
| ThumbMoves.Pushes | devices/thumb.py:346-352 | PUSH is of the listed registers, LR last |
| ThumbMoves.PushesAll | devices/thumb.py:346-352 | and stores them from the stack pointer down a word each, which is where it leaves it |
| ThumbMoves.Pops | devices/thumb.py:353-363 | POP is of the listed registers, the program counter last |
| ThumbMoves.PopsAll | devices/thumb.py:353-363 | and loads them from the stack pointer up and leaves it behind them |
| ThumbEvaluation.Evaluation.ProcessData | devices/thumb.py:304-334 | in place it is the specification of the sixteen instructions, of which the lemmas below say what each computes |
| ThumbBits.OnlyDestination | devices/thumb.py:304-334 | data processing changes its destination and the flags, a test or compare only the flags |
| ThumbBits.DescribesResult | devices/thumb.py:141-146 | N and Z describe what is written; logic and products leave C and V, shifts V |
| ThumbBits.LogicalBits | devices/thumb.py:304-334 | every bit of AND, EOR, ORR, BIC and MVN, of registers of either sign |
| ThumbBits.TestBits | devices/thumb.py:319-320 | TST: Z is set exactly when the operands have no bit in common, N when they share the top one |
| ThumbBits.MultiplyIsProduct | devices/thumb.py:329-330 | the product of the words modulo the width, whatever sign the registers have |
| ThumbBits.NegateIsOpposite | devices/thumb.py:321-322 | RSB: the opposite modulo the width, C exactly of zero and V exactly of the word without an opposite |
| ThumbBits.AddsCarry | devices/thumb.py:315-316 | ADC is the sum with the carry, modulo the width, C the carry out |
| ThumbBits.SubtractsBorrow | devices/thumb.py:317-318 | SBC is the difference less the borrow, C its absence |
| ThumbBits.ComparesSum | devices/thumb.py:325-326 | CMN leaves the flags of the sum |
| ThumbBits.RegisterShifts | devices/thumb.py:311-314 | a shift by a register is as many one-bit shifts as its low byte says, in result and carry |
| ThumbBits.ReversedTwice | devices/thumb.py:366-372 | REV undoes REV and REV16 undoes REV16 |
| ThumbBits.SwappedBytes | devices/thumb.py:366-372 | which byte each byte of a reversed word is |
| ThumbBits.SwappedHalfword | devices/thumb.py:373-374 | REVSH is the low halfword with its bytes changed round, read as signed |
| ThumbEvaluation.Evaluation.DoMiscellaneous | devices/thumb.py:336-385 | stack adjustment, extension, PUSH, POP, reversal, masks, hints |
| ThumbEvaluation.Evaluation.DoWide | devices/thumb.py:387-413 | in place it is the specification of the 32-bit instructions, undefined ones refused |
| ThumbBits.LinkOffsetOnto | devices/thumb.py:390-397 | some BL encodes every even offset in [-2^24, 2^24) |
| ThumbBits.LinkOffsetOnce | devices/thumb.py:390-397 | a BL encodes nothing else, and each offset in one way |
| ThumbBits.LinkReaches | devices/thumb.py:390-397 | a BL goes to the word its offset says, with LR behind it, and changes nothing else |
| ThumbEvaluation.Evaluation.StepOnce | devices/thumb.py:182-296 | one step of the machine in place is the step of the specification, refusals included, and a refused one too has only added honest entries to the trace and left bytes outside the regions alone |
| ThumbEvaluation.Evaluation.RunAll | devices/thumb.py:174-180 | a whole run is the specification's, and the trace and the memory are kept on every outcome, a refusal or the step limit included |
| ThumbTraces.StepExactly | devices/thumb.py:182-187 | a step fetches the halfword at the program counter, without recording it, and executes it with the counter behind it; what cannot be fetched refuses the step |
| ThumbTraces.RunExactly | devices/thumb.py:174-180 | a run ends in a state if and only if some trace of steps, none of them at a place to stop, leads there within the limit, to such a place or by a step that waits |
| ThumbRuns.StepKeeps | devices/thumb.py:104-129 | a step that goes through only adds to the trace, by aligned entries that start in a device window and fit their width, and changes no byte outside the regions |
| ThumbRuns.RunKeeps | devices/thumb.py:174-180 | so does every run that ends; for those that are refused see `ThumbEvaluation.Evaluation.RunAll` |
| ThumbSigns.RunHoldsWords | devices/thumb.py:174-180 | every state of a run from words holds words if and only if every sign-extending step of it reads a value with its sign bit clear |
| ThumbSigns.StepIsWord | devices/thumb.py:182-296 | the same of one step, for LDRSB, LDRSH, SXTB, SXTH and REVSH |
| ThumbSigns.SignedCompareHappens | devices/thumb.py:342-346 | a run of SXTB and CMP after which a compare with zero says lower |
| ThumbSigns.LslOfNegative | devices/thumb.py:157-159 | LSL of a negative register is LSL of its word, in masked result and carry |
| ThumbSigns.LsrOfNegative | devices/thumb.py:160-162 | LSR is in its carry, and in its masked result if and only if it shifts by nothing or by 32 and more |
| ThumbSigns.AsrOfNegative | devices/thumb.py:163-166 | ASR is, in masked result and carry |
| ThumbSigns.RorOfNegative | devices/thumb.py:167-171 | ROR is if and only if the bits it turns round are all ones, its carry if and only if the last of them is |
| ThumbSigns.ShiftImmediateOfNegative | devices/thumb.py:189-194 | an immediate shift of a negative register is that of its word unless it is LSR by less than 32, and what it stores is a word except there and in LSL by nothing |
| ThumbRanges.RunKeepsRange | devices/thumb.py:182-296 | every run keeps them between -32768 and the largest word |
| ThumbRanges.ExtendIsWord | devices/thumb.py:342-346 | sign extension leaves a word exactly when the sign bit is clear |
| ThumbRanges.LoadSignedIsWord | devices/thumb.py:236-246 | a signed load leaves a word exactly when the value read has its sign bit clear |
| ThumbStack.StoreThenLoad | devices/thumb.py:104-129 | a load after a store of the same width and place returns the value masked |
| ThumbStack.StoreLeavesOthers | devices/thumb.py:118-129 | disjoint bytes are as they were |
| ThumbStack.PushThenPop | devices/thumb.py:346-363 | executing PUSH of any list with LR and then the matching POP with PC restores every listed register and the stack pointer, and continues at LR with bit 0 clear |
| Locks.PlansAre | scripts/build_lock.py:54-70 | the locks of each scope, in the order global, mode, readers |
| LockForms.HoldsExactly | scripts/build_lock.py:267-277 | a process holds what its plan names before the place it has reached, and a builder that replaces executables its build's readers lock |
| LockForms.GrantedExactly | scripts/build_lock.py:142-157 | an exclusive lock is granted when nobody else holds it, a shared one when nobody else holds it exclusively |
| LockForms.TakesWhenGranted | scripts/build_lock.py:237-239 | a process takes the next lock of its plan when it is granted, and behind its plan only a builder with something to replace takes one, the readers lock of its build |
| LockForms.PublishesInTurn | scripts/build_lock.py:217-249 | when a builder compares, replaces and is done |
| LockForms.ComparisonExactly | scripts/build_lock.py:217-228 | a turn of the comparison: a name that is not linked ends the process, one whose executable is missing or another is noted, and behind the last the readers lock is wanted if any was noted |
| LockForms.FilesExactly | scripts/build_lock.py:240-246 | every linked and every published file after every event |
| LockForms.ProcessExactly | scripts/build_lock.py:217-249 | where the process stands and what it is doing after every other event |
| Locks.StepKeeps | scripts/build_lock.py:142-250 | every step of every process keeps the invariant: locks held compatibly in plan order, comparisons still true |
| Locks.RunKeeps | scripts/build_lock.py:142-250 | so it holds in every reachable state of any number of processes |
| Locks.ReaderUndisturbed | scripts/build_lock.py:160-194 | while a process holds a build through `reading`, no step of any process changes that build's executables |
| Locks.ReaderFindsItsExecutables | scripts/build_lock.py:186-191 | and what it found there stays over any further run |
| Locks.ChangedIsStillExact | scripts/build_lock.py:217-249 | the list of changed executables made before the readers lock is taken is exact when the renames happen |
| Locks.PublishedIsLinked | scripts/build_lock.py:242-249 | when publish ends, bin is link for every name |
| Locks.UnchangedIsLinked | scripts/build_lock.py:226-227 | and when it had nothing to do it is too |
| Deadlocks.DeadlockExactly | scripts/build_lock.py:14-15 | for any set of reader plans, a state in which nobody can move is reachable if and only if some of the plans form a ring |
| Finishing.FinishingExactly | scripts/build_lock.py:14-15 | and if and only if none do, every reachable state has a run on which all processes finish |
| Finishing.OrderlyNeverCrosses | scripts/emit_manifest.py:555-557 | plans that never ask for a debug build after a release build, whatever the tags, form no ring |
| Finishing.OneTagExactly | scripts/build_lock.py:160-194 | for plans of one tag each: a ring is a plan that asks for release and then debug, with no debug before |
| Finishing.OnePlanExactly | scripts/build_lock.py:160-194 | for readers that all follow one plan, of any tags: the plan asks for the release build of some tag and then for its debug build, not asked for before |
| Finishing.HarmlessAlone | scripts/build_lock.py:160-194 | asking for the release build of one tag and then the debug build of another deadlocks with nobody of the same plan, nor does debug again after release |
| Finishing.OutOfOrderHappens | scripts/build_lock.py:160-194 | a run from nothing to a reader and a tag cleanup that wait for each other |
| Finishing.AcrossTagsHappens | scripts/build_lock.py:160-194 | a run from nothing to two readers and two cleanups of different tags that do |
| Links.BuildTree.StaleLibrary | scripts/build_link.py:122-128 | the stale members are exactly those the library does not hold as compiled |
| Links.BuildTree.Verify | scripts/build_link.py:131-173 | the verifier's status and all it writes and removes |
| Links.NothingStaleIsWhole | scripts/build_link.py:94-128 | nothing is stale exactly when library and compiled objects have the same names and every member is the compiled bytes and at most seven more, each 0 or 10 |
| Links.StaleExactly | scripts/build_link.py:94-102 | a name is stale exactly when library and compiled objects do not both have it, or the member is not the compiled bytes and up to seven more that are 0 or 10 |
| Links.ContentsExactly | scripts/build_link.py:113-119 | linked are the library's members and the objects of the one directory, each with its content |
| Links.RemakesExactly | scripts/build_link.py:139-171 | a remake is asked for exactly when the library is not whole, or the executable is the one that was there before and no record is of its content and of what is there to link |
| Links.LeavesStale | scripts/build_link.py:139-146 | of a stale library a verification removes the exchange file and its own executable, and nothing else |
| Links.LeavesFiles | scripts/build_link.py:147-173 | otherwise its own executable at most, and with a remake |
| Links.LeavesRecords | scripts/build_link.py:149-153 | it writes the record of its own executable at most, and after a new link |
| Links.VerifyTells | scripts/build_link.py:131-173 | the record stays true, and status zero means that the executable is a link of the present members and objects |
| Links.RecordsStayTrue | scripts/build_link.py:131-173 | over every history of builder runs and verifications, interrupted ones included, every record is of a link that happened |
| Links.AcceptedIsUpToDate | scripts/build_link.py:131-173 | over every such history, what is accepted is up to date |
| Links.AcceptedStaysAccepted | scripts/build_link.py:147-173 | what was accepted is accepted again while nothing changes, and nothing is rewritten |
| Links.RemakeSettles | scripts/build.sh:417-431 | of the verifier: with a builder that links a missing executable, makes the library whole when its exchange file is missing and keeps a whole one whole, at most two rounds end in a link, whatever the first left |
| Links.SettlesExactly | scripts/build_link.py:139-171 | and they always do if and only if a remake removes the exchange file, the executable of a stale library and the executable nothing records |
| Links.PublishedIsAccepted | scripts/build_link.py:176-192 | when the rows are those of accepted rounds of a history, each executable published against them is what such a round accepted, up to date when it did |

## Left out

- The document, fixture, roadmap, pin, icon and matrix checks of check.py, whose subjects are not source code of this model.
- Splitting a right-hand side into words by a regular expression (check.py:812-822): the reader begins with words. Postfix operators are single words there, so `in "?*+"` is equality with one of them.
- The grammar's reserved words (check.py:1691) are a parameter; so are the lexical rules' answers in `landin_tokens`.
- Recognition.Recognises: the start rule is one of the grammar's rules; the source raises KeyError otherwise.
- Caching an analysis between calls (check.py:1361-1367, 1494-1507), and the order of the tuples of ends, which are sets here.
- Lexical.LexicalMatches: for a rule whose derivation is circular, which of the derivations without a question coming round are still found is not stated; it depends on the order in which questions are first asked.
- Tokeniser.LandinTokens: UTF-8 and indentation of raw literals, escapes of text literals and the content of character literals are abstract predicates (check.py:1171-1205, 1223-1255, 1276-1296). Complaints are kinds, without their text. An empty sign, on which the source does not terminate, is excluded.
- Agreement.MasksExactly: sources with carriage returns, where the tokeniser ends a line comment and `visible_code`, which is given lines, does not.
- Blanking.BlankingAgrees: lines are without their line feed.
- Highlighting.Scanner.Scan: the classes of words (highlight/landin_highlight.py:140-171, 246-259), which depend on the symbol table and mask nothing, and the declarations found in the blanked text.
- `grammar_signs` itself: the signs are a parameter, longest first.
- ELF images and the start from a vector table (devices/thumb.py:35-88); the evaluator starts from given registers. The program counter kept for messages.
- ThumbRuns.RunKeeps: runs that are refused are not in it; the methods of the evaluator promise the same of those.
- ThumbEvaluation.Evaluation.StepOnce: of the state a refusal leaves only what is kept is stated, not the registers.
- ThumbEvaluation.Evaluation.LoadValue: what a device answers depends on address and width only.
- Lock files on disk, `flock`, waiting messages, holder records and process liveness (scripts/build_lock.py:91-157): a lock is granted when no other process holds it incompatibly, and a process tree is one agent, so `inherited` is not modelled. Readers do not wait for builds: the refusal of a build started under a reader of the same build (scripts/build_lock.py:229-236), which is there so that they need not, is left out. Ending is one step, which is also what a crash is.
- Locks.PublishedIsLinked: contents only; the executable bit of a published file (scripts/build_lock.py:224) is not modelled.
- Deadlocks.DeadlockExactly: the processes are builders, readers and the two kinds of cleanup. A process that reads a build and then starts a build of another tag or mode, which scripts/build_lock.py:229-236 does not refuse, is none of these; the ring condition does not cover it.
- Finishing.FinishingExactly: states that there is such a run, not that every schedule is fair.
- Reading `ar` archives (scripts/build_link.py:50-85): the library is its members. Digests are injective. Records are values, without their JSON, and a damaged one is an absent one.
- Links.RemakeSettles: the builder is GPRbuild, of which only these three things are assumed; that no source changes between the rounds is the third.
- Links.AcceptedIsUpToDate: assumes of the builder that it links last and that a link changes the executable's stamp.
- Links.PublishedIsAccepted: the manifest's rows are a map; lines that are no rows are skipped before it.
