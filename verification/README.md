# Chimera: verified models of the shell, the console, the boot loader and the disk builder

A Dafny model of the parts of Chimera whose correctness is hardest to see from the code: the word
expansion, arithmetic, control flow, stack allocator, job table, command table and redirections of
the shell (`sh/`), the VT100 console of the kernel (`kernel/video_console.c`), the page tables the
boot loader builds (`boot/efi/efiloader.c`) and the FAT32 image builder (`scripts/make_disk.py`).
Each part has a simple meaning of its own — a match relation, a grammar with an evaluator, a
semantics with explicit outcomes, a flat address map, a stack of snapshots, a terminal that knows
nothing of buffers, a catalogue of files — and the code's own form (loops, pointers, flags, arrays
changed in place) is proved to have exactly that meaning.

`dafny verify dfyconfig.toml` checks everything.

| file | part |
|---|---|
| `Glob.dfy`, `Trim.dfy`, `Split.dfy`, `Escape.dfy`, `GlobLaws.dfy`, `ExpandLaws.dfy` | word expansion (sections 2.6.2, 2.6.5 and 2.13 of POSIX.1-2017, Shell Command Language) |
| `ArithValue.dfy`, `ArithGrammar.dfy`, `ArithLex.dfy`, `ArithEval.dfy`, `ArithWrite.dfy`, `ArithLaws.dfy` | arithmetic expansion (section 2.6.4 there; section 6.5 of ISO C) |
| `Control.dfy`, `ControlLaws.dfy` | `break`, `continue`, `return` and loops |
| `StackAlloc.dfy` | the shell's stack allocator |
| `Jobs.dfy`, `JobsLaws.dfy` | the job table |
| `CommandCache.dfy`, `CommandLaws.dfy`, `Redir.dfy` | the command table and the redirection stack |
| `Wrappers.dfy` | a value that may be missing |
| `PhysMem.dfy`, `PageTable.dfy`, `Loader.dfy` | four-level page tables and the kernel loader (section 4.5 of the Intel SDM, volume 3A) |
| `Terminal.dfy`, `Console.dfy`, `TerminalLaws.dfy` | the VT100 terminal (sections 5.4 and 8.3 of ECMA-48) and its drawing |
| `FatChains.dfy`, `FatCatalog.dfy`, `Fat32.dfy`, `FatLaws.dfy` | the FAT32 image builder (Microsoft FAT32 File System Specification) |

## How the models read

- A state that the source keeps in globals or in an object is a class; its `Valid()` (or `Fresh`,
  `Settled`, `Saving`, `Searching`) is the invariant that every operation keeps, so it holds in every
  state that any sequence of operations reaches. The operations that keep it only under a condition
  (`StUnalloc`, `AddProcess`, `CommandTable.Run`) say exactly when.
- Pointers are a block or table identity and an index, so that `realloc` and a grown table really
  move things and a pointer that is not relocated dangles.
- What the environment decides is an input: the pages the firmware hands out, which files open,
  what `wait` reports, which files exist, the locale's collation, the font.
- Where the source raises an error or runs out of a resource, a method returns `ok == false`; what
  it then promises is said in its contract.
- The meanings are pinned down from outside by the files named `...Laws`: texts, byte strings, programs
  and disks in, results out, with tables and constants written out there and without the functions that
  the meanings are built from.
- `fuel` in `Control` counts steps of both evaluators together: `FuelIsAClock` shows that it never
  changes an answer, so the simulation is about every run that ends.

Six expectations turned out not to hold of the code in general; each has a run that breaks it and
the exact condition, which a caller could test:

- `stunalloc` of the latest allocation: in every run that allocation is in the top block exactly when the
  cursor is not at the start of that block (`StackAlloc.LatestOnTop`, `StackAlloc.Stack.Run`), and only then
  is there a cursor afterwards (`StackAlloc.UnallocExact`). `StackAlloc.LatestBuried` is a run in which it is
  not.
- A job's recorded state is right after a process is added exactly when the job was still active
  (`Jobs.Launched`, `Jobs.JobTable.AddProcess`); `Jobs.LaunchAfterReport` breaks it.
- Adding a process keeps the job list in order exactly when the job does not, as the finished background
  job that it replaces, free itself first (`Jobs.JobTable.AddProcess`, `Jobs.PushExact`);
  `Jobs.LaunchLetsGo` breaks it. The shell itself makes neither of these two runs, since a pipeline is
  launched without waiting in between (sh/eval.c:559-606).
- Remembered command positions agree with fresh searches after every run, unless an exception leaves a
  command with a path of its own before the table is cleared: then they do exactly when a search along the
  shell's path finds the same positions (`CommandCache.CommandTable.Run`). An interrupt while the shell
  waits for such a command (`CommandCache.StaleAfterInterrupt`; sh/eval.c:1148-1152) or while `type`
  looks a name up (`CommandCache.StaleAfterType`) breaks it.
- A file updated on an existing disk is seen under its name exactly when that name was not in the
  directory or was in its first cluster (`FatCatalog.UpdateSeen`); in `Fat32.HiddenUpdate` the old entry
  hides it.
- Updating a file leaves every other file that can be reached from the root as it was exactly when the name
  is not that of a directory with a file in it or below it (`Fat32.Disk.UpdateFile`,
  `FatCatalog.DirReplacedExactly`); in `Fat32.LostBelow` a file two levels down is lost.

## Model

| member | source | states |
|---|---|---|
| Glob.PatMatch | sh/expand.c:1254-1396 | for every well-formed pattern and every string it ends, and returns true exactly when the declarative match relation holds (each `*` stands for any substring), although it remembers only the last `*`; `GlobLaws` says what that relation is for every kind of pattern text |
| Glob.EarlierStarIsForgotten | sh/expand.c:1290-1308 | once a later `*` is reached, a longer match of an earlier one gives nothing new |
| Glob.NoLaterMatchAtEnd | sh/expand.c:1375-1377 | at the end of the string no longer match of the last `*` can succeed, so the early `return 0` is right |
| Glob.Mismatch | sh/expand.c:1380-1393 | after a mismatch the search goes on one byte further from the last `*`, or the whole match is impossible |
| Glob.StarReached | sh/expand.c:1290-1308 | taking a new `*` as the one to come back to keeps the whole match decidable from here; a final `*` matches |
| Glob.ScanBracket | sh/expand.c:1309-1374 | the bracket loop finds the closing bracket of the bracket grammar and whether some item has the byte |
| Glob.TestItem | sh/expand.c:1330-1370 | one pass of that loop tests exactly the item at that place and steps over it |
| Glob.MatchByte | sh/expand.c:1309-1379 | a bracket expression or ordinary character accepts a byte exactly as its element does; `GlobLaws.BracketLaw`, `NegationLaw`, `PlainBracket` and `RangeBracket` say which bytes those are |
| GlobLaws.EmptyPattern | sh/expand.c:1268-1271 | the empty pattern matches the empty string only |
| GlobLaws.OrdinaryByte | sh/expand.c:1375-1379 | a character without a special meaning matches itself and then the rest of the pattern matches the rest of the string |
| GlobLaws.EscapedByte | sh/expand.c:1272-1275 | any character after an escape matches itself, special or not |
| GlobLaws.QuestionMark | sh/expand.c:1276-1289 | `?` matches any one byte |
| GlobLaws.Asterisk | sh/expand.c:1290-1308 | `*` matches every prefix of the string: the pattern matches exactly when what follows `*` matches some suffix |
| GlobLaws.BracketLaw | sh/expand.c:1309-1374 | a bracket with any list of characters, ranges and classes, after nothing, `!` or `^`, takes one byte, and takes it exactly when some item has it, or none has after `!` or `^` |
| GlobLaws.NegationLaw | sh/expand.c:1316-1319 | for every closed bracket text and byte, `[!` and `[^` accept the byte exactly when `[` does not |
| GlobLaws.PlainBracket | sh/expand.c:1366-1369 | a bracket of plain bytes accepts exactly the bytes listed |
| GlobLaws.RangeBracket | sh/expand.c:1352-1365 | a range accepts a byte exactly when it collates between the two ends, both included |
| GlobLaws.ClassBracket | sh/expand.c:1226-1247 | a class accepts exactly what the locale puts in it; an unknown one accepts nothing |
| GlobLaws.NoSuchClass | sh/expand.c:1235-1238 | what looks like a class without a name, or with one of 20 bytes or more, is none, and its bytes stand for themselves |
| GlobLaws.OpenBracket | sh/expand.c:1331-1335 | a `[` that is never closed is an ordinary character |
| Trim.SubEvalVarTrim | sh/expand.c:540-611 | the value left between start and new end is the value without its shortest or longest matching prefix or suffix, unchanged when nothing matches; what precedes it is untouched |
| Trim.TrimmedIsUnique | sh/expand.c:555-603 | the trimming relation leaves exactly one result |
| Trim.RecordLeft | sh/expand.c:529-538 | the in-place shift moves exactly the kept bytes to the start of the value |
| Trim.PrefixMatches | sh/expand.c:557-566 | cutting with a NUL, matching and putting the byte back tests the prefix and leaves the buffer as it was |
| Trim.ShortestPrefix | sh/expand.c:556-567 | the shortest matching prefix is removed |
| Trim.LongestPrefix | sh/expand.c:569-581 | the longest matching prefix is removed |
| Trim.ShortestSuffix | sh/expand.c:583-592 | the shortest matching suffix is removed |
| Trim.LongestSuffix | sh/expand.c:594-602 | the longest matching suffix is removed, and nothing is lost by never trying the empty suffix |
| ExpandLaws.PrefixTrimmed | sh/expand.c:556-581 | the trimming relation for `#` and `##`, written out with the match relation alone: the shortest and the longest matching prefix goes, or nothing when none matches |
| ExpandLaws.SuffixTrimmed | sh/expand.c:583-602 | the same for `%` and `%%` and suffixes |
| Split.SplitterMeetsRule | sh/expand.c:162-250 | from every state and for every IFS and value, the words emitted plus the final flush are the fields of the declarative splitting rule |
| Split.ExpandUnquoted | sh/expand.c:221-250 | expanding an unquoted value end to end gives exactly those fields |
| Split.FieldsConserve | sh/expand.c:162-206 | the rule itself loses, adds and reorders nothing but IFS characters, and no field contains one |
| Split.StepKeepsPending | sh/expand.c:163-184 | each input character moves what is pending into what is emitted, for every state of the machine |
| Split.SplitConcat | sh/expand.c:186-206 | two adjacent expansions split as their concatenation |
| Split.Splitter.NextWord | sh/expand.c:162-184 | the three-state step in place equals the step function |
| Split.Splitter.PutSplit | sh/expand.c:186-206 | the loop over the value equals the run of that function |
| ExpandLaws.LeadingBlanks | sh/expand.c:163-184 | IFS white space before the first field is nothing, and a value of nothing else has no field |
| ExpandLaws.LastWord | sh/expand.c:186-206 | a word without IFS characters is one field |
| ExpandLaws.HardDelimiter | sh/expand.c:163-184 | an IFS character that is not white space ends a field, even an empty one, together with the white space before it |
| ExpandLaws.SoftDelimiter | sh/expand.c:163-184 | IFS white space after a word ends the field, however much there is, and adds no field at the end; with the three laws before, this decides the fields of every value |
| Escape.StPutsQuotes | sh/expand.c:149-159 | the text is appended with a control character before each byte the syntax table marks |
| Escape.RmEscapes | sh/expand.c:1404-1425 | in place, the string becomes its unescaped form and what follows its terminator is untouched |
| Escape.RmEscapesUndoesQuotes | sh/expand.c:149-159 | unescaping undoes escaping, for every string and either syntax table |
| Escape.QuotedTextMatchesItself | sh/syntax.c:40-68 | text escaped with the double-quote table is a well-formed pattern that matches exactly that text |
| Escape.EscapedIsLiteral | sh/expand.c:149-159 | an escaped text reads as a sequence of literal pattern elements |
| ExpandLaws.EscapedParts | sh/expand.c:149-159 | escaping goes character by character: one in the table gets an escape before it, any other stays |
| ExpandLaws.EscapeTables | sh/syntax.c:40-68 | the two tables, character by character: the nine control codes, and inside double quotes also the eleven characters that mean something to a pattern, a tilde prefix or an assignment |
| ExpandLaws.BaseLeavesText | sh/expand.c:149-159 | outside double quotes text without control characters stays as it is, so its pattern characters keep their meaning |
| ArithValue.BinopMeaning | sh/arith_yacc.c:121-162 | what each operator computes, as congruences, truncated division and comparisons, independent of the case analysis |
| ArithValue.DivisionLaw | sh/arith_yacc.c:126-132 | quotient and remainder obey section 6.5.5 of ISO C for every pair of operands |
| ArithValue.DoBinop | sh/arith_yacc.c:121-162 | the only errors are a zero divisor and the smallest value divided by -1 |
| ArithValue.ShiftMeaning | sh/arith_yacc.c:139-142 | shifts are multiplication modulo 2^64 and division rounding down, by the count modulo 64 |
| ArithValue.BitwiseMeaning | sh/arith_yacc.c:155-160 | bitwise and, or and exclusive or act on every one of the 64 bits separately |
| ArithValue.FormatRoundTrip | sh/arith_yylex.c:53-77 | every 64-bit value written as text is read back unchanged without an overflow report |
| ArithGrammar.ParseIsTheGrammar | sh/arith_yacc.c:64-322 | a token string parses to a tree exactly when the tree is well formed for C precedence and associativity and is written with those tokens; the grammar is unambiguous and precedence climbing finds its tree; `ArithLaws.TwoOperators` and the laws beside it fix the levels and the grouping by operator lists of their own |
| ArithGrammar.ClimbComplete | sh/arith_yacc.c:203-242 | once the tokens of an operand are read, the climb goes on as if it were the left operand |
| ArithGrammar.EndIsYield | sh/arith_yacc.c:166-322 | a stream spells a tree from some place exactly when its tokens there are the tree's |
| ArithLaws.TwoOperators | sh/arith_yacc.c:64-81 | with the ten levels of ISO C written out as lists of operators: for all numbers or names a, b, c and operators p, q, `a p b q c` is read as a p (b q c) exactly when q is in a tighter list or both are the same of the two that group to the right, and as (a p b) q c otherwise |
| ArithLaws.LevelOf | sh/arith_yacc.c:64-83 | every infix operator is in exactly one of those lists, the one of its level |
| ArithLaws.UnaryThenInfix | sh/arith_yacc.c:184-197 | unary operators bind tighter than every infix operator |
| ArithLaws.Parenthesized | sh/arith_yacc.c:172-177 | parentheses override the levels |
| ArithLaws.InfixInConditional | sh/arith_yacc.c:278-298 | `?:` is looser than every infix operator in all three places |
| ArithLaws.ConditionalsGroupRight | sh/arith_yacc.c:292-297 | a conditional after the colon belongs to the second branch |
| ArithLaws.AssignmentsGroupRight | sh/arith_yacc.c:300-313 | assignments of all kinds group to the right and take everything that follows |
| ArithLex.Yylex | sh/arith_yylex.c:79-274 | one call returns the longest operator, name or number at that place and leaves the buffer after it |
| ArithLex.ScanOperator | sh/arith_yylex.c:171-274 | the switch with its jumps finds the longest operator, with the assignment form of each operator 11 above it |
| ArithLex.ScanUndoesWrite | sh/arith_yylex.c:79-274 | any writable token string, written with blanks, scans back to itself |
| ArithEval.Arith.Evaluate | sh/arith_yacc.c:324-341 | the value, the variable store or the error is that of the tree evaluator on the only tree the text can be read as; a text without a tree is an error; `ArithLaws` fixes how texts are read and what each operator gives |
| ArithLaws.OperatorRead | sh/arith_yylex.c:171-272 | each of the 35 operator texts, listed with its token, is read as that token wherever it stands, unless the next character makes a longer one |
| ArithLaws.NameRead | sh/arith_yylex.c:110-170 | a letter or underscore with all the letters, underscores and digits that follow is one name |
| ArithLaws.BlanksBefore | sh/arith_yylex.c:87-94 | blanks before a token do not matter, and only blanks are the end |
| ArithLaws.Refused | sh/arith_yylex.c:95-96 | a character that begins no token is refused, and so are `++` and `--` |
| ArithLaws.BinaryText | sh/arith_yylex.c:79-274 | two decimal numbers with an infix operator between them, as text, are read as that operator applied to those numbers |
| ArithLaws.NumeralRead | sh/arith_yylex.c:53-77 | digits in base 10, base 8 after `0` and base 16 after `0x` denote their positional value; beyond 63 bits decimal ones stop at the largest value (2^63 itself at the smallest) and the others wrap |
| ArithLaws.BitwiseTables | sh/arith_yacc.c:155-160 | bit i of `&`, inclusive or and `^` of two values is both, either or exactly one of their bits i, for all 64 bits |
| ArithLaws.UnaryMeaning | sh/arith_yacc.c:184-197 | `+` is nothing, `-` the wrapping negative, `!` whether the operand is 0, `~` every bit turned over |
| ArithLaws.ShortCircuit | sh/arith_yacc.c:244-276 | the logical operators evaluate their right operand, with its assignments, only when the left one has not decided, and give 0 or 1 |
| ArithLaws.OneBranch | sh/arith_yacc.c:278-298 | `?:` evaluates the branch its condition chooses, with its assignments, and not the other |
| ArithLaws.LeftOperandFirst | sh/arith_yacc.c:203-231 | an assignment in the left operand is seen by the right one |
| ArithLaws.CompoundAssignment | sh/arith_yacc.c:317-321 | `x op= e` is `x = x op e` for the operator written before `=`, and x is read after e has taken effect |
| ArithLaws.VariableMeaning | sh/arith_yacc.c:93-109 | an unset variable is 0, or an error under -u; an empty one is 0; a decimal number has its value; assigning a read-only one is an error that changes nothing |
| ArithLaws.VariableNumber | sh/arith_yylex.c:53-77 | a variable that holds white space, a sign and a decimal, octal or hexadecimal numeral has that value; it is an error when the value does not fit, unless it is an unsigned octal or hexadecimal one of 64 bits, which wraps, and when anything follows the numeral |
| ArithEval.Arith.Assignment | sh/arith_yacc.c:300-322 | right side first, then the variable is read if the assignment is compound, then stored; under `noeval` the tokens are consumed and nothing is read or stored |
| ArithEval.Arith.CondExpr | sh/arith_yacc.c:278-298 | both branches are consumed, only the chosen one has effects or errors |
| ArithEval.Arith.OrExpr | sh/arith_yacc.c:261-276 | logical or evaluates its right side only when the left is zero |
| ArithEval.Arith.AndExpr | sh/arith_yacc.c:244-259 | `&&` evaluates its right side only when the left is not zero |
| ArithEval.Arith.Binop2 | sh/arith_yacc.c:203-231 | operators apply left to right with the precedence table, left operand before right |
| ArithEval.Arith.Primary | sh/arith_yacc.c:166-201 | numbers, variables, parentheses and unary operators agree with the tree; under `noeval` no variable is read |
| ArithEval.StoreThenLookup | sh/arith_yacc.c:317-320 | a variable just assigned reads back with that value and no other variable changes |
| ArithEval.WrittenParses | sh/arith_yacc.c:324-341 | the tokens of a well-formed tree parse to that tree |
| ArithEval.ErrorStays | sh/arith_yacc.c:203-276 | an error in an operand is the outcome, whatever is parsed after it |
| ArithWrite.EvaluateWritten | sh/arith_yacc.c:324-341 | every expression tree, written as text with the parentheses it needs and evaluated, gives the tree's value and effects or its error |
| ArithWrite.ParenthesizeKeepsMeaning | sh/arith_yacc.c:166-322 | adding the needed parentheses changes no meaning |
| Control.Shell.EvalTree | sh/eval.c:182-296 | evaluation with `evalskip`, `skipcount` and `loopnest` simulates the semantics with outcomes normal, break k, continue k and return; nothing runs while a skip is pending and `loopnest` is restored; `ControlLaws` states the events of that semantics, loop by loop |
| Control.Shell.EvalLoop | sh/eval.c:304-337 | while and until loops simulate theirs, with pending jumps counted down loop by loop |
| Control.Shell.EvalFor | sh/eval.c:341-373 | for loops likewise |
| Control.Shell.EvalCommand | sh/eval.c:1045-1060 | a return stops at the function call; break and continue pass through it to the loops of the caller |
| Control.Shell.BreakCmd | sh/eval.c:1228-1248 | break and continue set the skip that the structured outcome names, limited to the loops around them |
| Control.Shell.EndIteration | sh/eval.c:314-324 | the test after a loop body goes on, ends this loop or passes the jump outwards as the outcome says; `ControlLaws.BreakLeavesExactly` and `ContinueLeavesExactly` count the loops that a jump leaves |
| Control.Shell.EvalString | sh/eval.c:142-174 | commands of a string run in order until a skip is pending; blank lines are skipped and leave the status, and without any command the status is 0 |
| Control.JumpsStayInside | sh/eval.c:1228-1248 | a pending break or continue always has a count between 1 and the number of loops around it |
| ControlLaws.BreakLeavesExactly | sh/eval.c:319-324 | for all 1 <= k <= n: of n nested loops, each with a command after it, `break k` in the innermost enters the innermost k once, runs no command after the first k - 1 of them, then the command after the k-th, and the loops further out go on to their last word |
| ControlLaws.ContinueLeavesExactly | sh/eval.c:361-369 | the same for `continue k`, with the k-th loop going on too |
| ControlLaws.ReturnLeavesAllLoops | sh/eval.c:1045-1060 | `return` inside any number of loops of a function leaves them all and the function, running nothing that follows a loop |
| ControlLaws.StillLeaving | sh/eval.c:361-369 | while more loops are still to be left, a loop and the command after it add nothing but the entry into the loop |
| ControlLaws.LoopLeft | sh/eval.c:361-369 | a body that jumps ends its loop in the first iteration, with one level fewer to go |
| ControlLaws.LoopGoesOn | sh/eval.c:357-370 | a body that ends normally or continues this loop is run for every word |
| ControlLaws.ForRuns | sh/eval.c:341-373 | a for loop in exact states: the body once for each word, the status of the last body or 0, and an end before the words that are left when a body jumps out |
| ControlLaws.WhileRuns | sh/eval.c:304-337 | a while or until loop in exact states: it iterates until its test, a break, a continue of an outer loop or a return ends it, in the test or in the body, and has the status of the last body or 0 |
| ControlLaws.ContinueInTest | sh/eval.c:314-318 | a continue in the condition tests it again |
| ControlLaws.TooManyLevels | sh/eval.c:1241-1246 | more levels than loops are all loops, and outside loops nothing happens |
| ControlLaws.JumpState | sh/eval.c:1228-1248 | break and continue have status 0 and change nothing else |
| ControlLaws.IfEvents | sh/eval.c:232-243 | `if a; then b; else c; fi` runs a and then exactly one of b and c, which sees the status of a; a false condition without else leaves status 0 |
| ControlLaws.ListEvents | sh/eval.c:203-221 | `a; b` runs both, the two conditional lists run b exactly when a succeeds or fails, and `!` makes 0 into 1 and anything else into 0 |
| ControlLaws.ReturnEndsFunction | sh/eval.c:1045-1060 | a function defined as `a; return v; b` and then called before c: a and c run and b does not, and c sees v, or the status of a when return has no operand |
| ControlLaws.FunctionJumps | sh/eval.c:1045-1060 | break and continue in a function act on the loops around the call |
| ControlLaws.SignalLeavesAllLoops | sh/eval.c:1148-1156 | a command ended by a signal leaves every loop of an interactive shell, and only there |
| ControlLaws.NothingThere | sh/eval.c:189-195 | missing parts: an empty command has status 0, an empty second part leaves the status alone |
| ControlLaws.ScriptRuns | sh/eval.c:142-174 | a script runs its commands in order, blank ones aside, up to the first that jumps |
| StackAlloc.Stack.Bracket | sh/memalloc.c:197-227 | whatever is allocated, released, built or nested between setting a mark and popping it, popping restores the cursor and every earlier allocation is in place with its bytes |
| StackAlloc.Stack.Run | sh/memalloc.c:135-346 | over every sequence of saves, builds, nested marks and latest-first releases the items below stay in place with their bytes, and at its end the run holds exactly the texts saved or built and not released, each intact in an allocation of its own; the latest of them is in the top block exactly when the cursor is not at its start; a run stops early, and says so, only at a string of 2^30 bytes or at a release whose allocation is not in the top block |
| StackAlloc.Stack.SetStackMark | sh/memalloc.c:197-206 | the mark saves the cursor, and the top block is pinned |
| StackAlloc.Stack.PopStackMark | sh/memalloc.c:209-227 | blocks above the mark are freed, the cursor is the saved one, `sstrend` is its end again, blocks below are unchanged |
| StackAlloc.MarkInChain | sh/memalloc.c:197-227 | the block of a live mark is still in the chain |
| StackAlloc.TopIsFree | sh/memalloc.c:263-273 | the cursor stands at the start of the top block only when nothing lies there, so `realloc` moves nothing that is in use |
| StackAlloc.Stack.StNewBlock | sh/memalloc.c:135-154 | a new top block of at least the asked, aligned and minimum size; the chain stays a chain |
| StackAlloc.Stack.StAlloc | sh/memalloc.c:157-169 | the space lies above everything on the stack; no block changes; a new block only when the aligned size does not fit |
| StackAlloc.Stack.StUnalloc | sh/memalloc.c:172-181 | for every pointer, whatever the distance between blocks: the cursor is the pointer and `sstrend` stays, and the stack is in order afterwards exactly when the pointer is into the top block |
| StackAlloc.UnallocExact | sh/memalloc.c:172-181 | moving the cursor to a pointer leaves a cursor that fits exactly when the pointer is into the top block |
| StackAlloc.LatestOnTop | sh/memalloc.c:157-181 | the latest live allocation is in the top block exactly when the cursor is not at the start of that block |
| StackAlloc.Stack.Step | sh/memalloc.c:157-346 | one operation of a run puts its text on top or takes the latest off; a release is refused exactly when the latest live allocation is outside the top block |
| StackAlloc.Stack.GrowStackBlock | sh/memalloc.c:240-281 | the free space at least doubles and grows by the asked amount, its bytes come first in it, and nothing allocated moves; it fails exactly at the size limit |
| StackAlloc.Stack.GrowInPlace | sh/memalloc.c:263-273 | the `realloc` branch keeps every item, since none lies in the block that moves |
| StackAlloc.Stack.GrowInNewBlock | sh/memalloc.c:274-280 | the other branch opens a block, copies the free bytes and leaves the stack as it was |
| StackAlloc.Stack.MakeStrSpace | sh/memalloc.c:324-331 | at least the asked number of characters fit after the pointer, and those written so far are unchanged |
| StackAlloc.Stack.StPutc | sh/memalloc.h:68 | the string gets one more character, growing if it must |
| StackAlloc.Stack.StPutBin | sh/memalloc.c:334-340 | the string gets the bytes appended |
| StackAlloc.Stack.GrabStackStr | sh/memalloc.h:82 | the finished string becomes an allocation where it stands: no block is opened and no byte moves |
| StackAlloc.Stack.LeftIsAligned | sh/memalloc.c:157-169 | the free space is always a whole number of alignment units |
| StackAlloc.Stack.BuildString | sh/memalloc.c:284-346 | a string put together from parts and grabbed holds exactly those parts |
| StackAlloc.Stack.PutNested | sh/expand.c:467-469 | a string under construction that is grabbed, followed by any bracketed use of the stack, and ungrabbed again is where it was with the same text |
| StackAlloc.LatestBuried | sh/memalloc.c:157-181 | a run after which the latest live allocation is outside the top block |
| PageTable.Mapper.MapPage | boot/efi/efiloader.c:417-444 | if the address has no 2 MiB translation, the processor's walk over the bytes in memory takes its page to the given frame and lets it be written, and takes every other address where it did before with the permission it had; only table pages are written; it fails only when pages run out |
| PageTable.Mapper.MapPage2M | boot/efi/efiloader.c:449-467 | the same for the 2 MiB region of the address, frame and permission |
| PageTable.Mapper.NextTable | boot/efi/efiloader.c:423-441 | a missing table is zeroed and linked without changing any translation, and the masked entry leads one level down |
| PageTable.LeadsServes | boot/efi/efiloader.c:417-467 | table pages are unshared: the walks of two addresses meet in a table only when it serves both |
| PageTable.LinkKeepsTree | boot/efi/efiloader.c:423-440 | linking a new page keeps the tables a tree whose pointers all let be written |
| PageTable.LinkKeepsWalk | boot/efi/efiloader.c:423-440 | linking an empty table changes no translation |
| PageTable.StoreLeaf | boot/efi/efiloader.c:443-466 | a stored leaf translates exactly the page or region it stands for, writable if the leaf says so |
| PageTable.EntryBits | boot/efi/efiloader.c:441-466 | the entries stored are the physical address with exactly the present, the read/write and, for 2 MiB pages, the page-size bit set |
| PhysMem.LittleEndian | boot/efi/efiloader.c:423-443 | the processor reads an entry from eight bytes, the lowest first |
| PageTable.WalkReadsTables | boot/efi/efiloader.c:417-467 | the processor's walk over memory, with the write permission of all levels, is the walk over the tables whose bytes are there |
| PageTable.StoreBacked | boot/efi/efiloader.c:443-466 | storing one entry in memory changes that entry of that table and no byte outside its page |
| PageTable.ZeroBacked | boot/efi/efiloader.c:409-415 | zeroing a page in memory makes it an empty table and touches no other table |
| PageTable.SparedBacked | boot/efi/efiloader.c:529-532 | writes outside the table pages leave every table as it was |
| PhysMem.StoreLoad | boot/efi/efiloader.c:443-443 | a 64-bit word stored as eight bytes is loaded again unchanged |
| Loader.LoadMachOKernel | boot/efi/efiloader.c:487-548 | with enough pages, and the firmware's pages and segments apart, one memory results in which the processor's walk translates as the flat map of both direct maps overlaid by the segments, all of it writable, the segments' bytes are in place, and nothing outside them and the table pages has changed |
| Loader.DirectView | boot/efi/efiloader.c:494-503 | every address below 4 GiB translates to itself and its higher-half alias to the same frame |
| Loader.SegmentView | boot/efi/efiloader.c:512-541 | every byte of every segment, read through the tables in memory, is its file byte, or zero past the file's part, and can be written |
| Loader.AllWritable | boot/efi/efiloader.c:487-548 | after loading, every mapped address can be written, its permission being the conjunction over all levels of the walk through memory, and exactly the first 4 GiB, their higher-half alias and the segments are mapped |
| Loader.MapIdentity | boot/efi/efiloader.c:494-497 | the first loop maps exactly the first 4 GiB |
| Loader.MapHigherHalf | boot/efi/efiloader.c:499-503 | the second loop adds exactly the alias of those addresses |
| Loader.MapSegment | boot/efi/efiloader.c:534-537 | a segment's pages, and only they, are overlaid on the map |
| Loader.PlaceSegment | boot/efi/efiloader.c:529-532 | clearing and copying put file bytes and zeros in place and change no translation |
| Loader.FilledStays | boot/efi/efiloader.c:534-537 | writing page tables disturbs no segment |
| Console.BatchMatchesImmediate | kernel/video_console.c:640-664 | a string written as a batch and the same string put byte by byte end in the same cursor, parser, pen, shadow buffer, framebuffer and dirty rows |
| Console.Screen.Write | kernel/video_console.c:648-664 | the terminal is what its bytes make of it, the framebuffer's text area shows it, the margin is untouched and nothing is left to flush; `TerminalLaws` says what bytes make of a terminal, pixel by pixel |
| Console.Screen.PutEach | kernel/video_console.c:640-646 | the same for immediate drawing |
| Console.Screen.constructor | kernel/video_console.c:680-723 | a blank screen with the cursor at home, on which shadow and framebuffer agree |
| Console.Screen.PutcChar | kernel/video_console.c:604-638 | in either mode one byte acts as the terminal's step, and shadow and framebuffer still agree wherever no flush is due |
| Console.Screen.FlushBatch | kernel/video_console.c:139-155 | copying the dirty rows, or everything after a scroll, makes the whole text area agree |
| Console.Screen.RowChanged | kernel/video_console.c:228-234 | marking a row dirty, or copying its scanlines, keeps the agreement |
| Console.Screen.MarkRowDirty | kernel/video_console.c:103-110 | the dirty range comes to cover the row |
| Console.Screen.SyncScanlines | kernel/video_console.c:112-128 | exactly the scanlines of the range are copied |
| Console.Screen.PaintChar | kernel/video_console.c:320-339 | the cell at the cursor shows the glyph with the pen's attributes |
| Console.Screen.RenderGlyph | kernel/video_console.c:157-179 | the two loops draw the whole glyph and nothing else |
| Console.Screen.ClearLineRect | kernel/video_console.c:208-235 | exactly the rectangle is erased |
| Console.Screen.Clear | kernel/video_console.c:237-255 | all scanlines are blank and the cursor is home |
| Console.Screen.ScrollTextUp | kernel/video_console.c:257-287 | the text area moves up with padding and the scanlines below handled as the terminal says |
| Console.Screen.ScrollTextDown | kernel/video_console.c:289-318 | the text area moves down likewise |
| Console.Screen.PutcNormal | kernel/video_console.c:341-391 | printable and control bytes act as the terminal's |
| Console.Screen.PutcEsc | kernel/video_console.c:393-442 | bytes after ESC act as the terminal's |
| Console.Screen.PutcGotPars | kernel/video_console.c:469-570 | final bytes of control sequences act as the terminal's; `TerminalLaws` states each of them on whole byte strings |
| Terminal.PutChar | kernel/video_console.c:604-638 | after every byte the cursor is on the grid, also when 32-bit sums wrap, and the parameter index is below 16 |
| Terminal.ControlSequence | kernel/video_console.c:444-472 | for every list of up to 16 decimal numbers, ESC [ numbers final-byte makes the final byte act on exactly those numbers modulo 2^32 |
| Terminal.ParamsCollected | kernel/video_console.c:444-467 | each number of a parameter string ends in its own place and nothing else changes |
| Terminal.CursorAddressed | kernel/video_console.c:497-505 | ESC [ r ; c H puts the cursor on that row and column, clipped to the grid, and draws nothing |
| TerminalLaws.GridSize | kernel/video_console.c:691-692 | the grid has as many cells of 8 by 16 pixels as fit on the screen |
| TerminalLaws.GraphicsReset | kernel/video_console.c:533-539 | after `ESC [ 0 m`, or `ESC [ m`, the pen is white on black without attributes, whatever it was, and nothing else has changed |
| TerminalLaws.GraphicsAttributes | kernel/video_console.c:540-551 | 1, 4, 7 and 22, 24, 27 set and clear bold, underline and reverse, each exactly its own attribute |
| TerminalLaws.GraphicsInk | kernel/video_console.c:552-564 | 30 to 37 and 90 to 97 give the ink the named colour and 39 white, and change nothing else |
| TerminalLaws.GraphicsPaper | kernel/video_console.c:556-566 | 40 to 47 and 100 to 107 give the paper the named colour and 49 black, and change nothing else |
| TerminalLaws.GraphicsOther | kernel/video_console.c:534-568 | every other number leaves the pen as it was |
| TerminalLaws.GraphicsInOrder | kernel/video_console.c:534-535 | several numbers in one sequence do what they do in sequences of their own, one after the other |
| TerminalLaws.CursorUp | kernel/video_console.c:475-480 | `ESC [ n A` moves the cursor up n rows, as far as the first, and nothing else |
| TerminalLaws.CursorDown | kernel/video_console.c:481-485 | `ESC [ n B` moves it down n rows, as far as the last; the 32-bit sum can wrap |
| TerminalLaws.CursorRight | kernel/video_console.c:486-490 | `ESC [ n C` moves it right, as far as the last column; the 32-bit sum can wrap |
| TerminalLaws.CursorLeft | kernel/video_console.c:491-496 | `ESC [ n D` moves it left, as far as the first column |
| TerminalLaws.CursorPlaced | kernel/video_console.c:497-505 | `H` and `f` put it on the row and column given, counted from 1, at most the last; what is left out is 1 |
| TerminalLaws.LineErasing | kernel/video_console.c:524-532 | exactly the pixels that `ESC [ K` turns into paper for each number: from the cursor on, up to it, or the whole row, and no other |
| TerminalLaws.DisplayErasing | kernel/video_console.c:506-523 | exactly the pixels that `ESC [ J` turns into paper for 0 and 1, and none for numbers above 2 |
| TerminalLaws.DisplayCleared | kernel/video_console.c:506-523 | `ESC [ 2 J` turns every pixel into paper and puts the cursor in the top left corner |
| TerminalLaws.Character | kernel/video_console.c:373-388 | a character changes exactly the pixels of its cell, to ink and paper as the font, underline, reverse and bold say, and moves the cursor on, to the next row or not at all |
| TerminalLaws.NextRows | kernel/video_console.c:359-366 | line feed, `ESC E` and `ESC D` go to the next row; in the last row the screen moves up pixel by pixel and its last row becomes paper |
| TerminalLaws.RowAbove | kernel/video_console.c:417-422 | `ESC M` goes to the row above; in the first row the screen moves down |
| TerminalLaws.Reset | kernel/video_console.c:401-406 | `ESC c` makes the pen white on black without attributes and every pixel black |
| TerminalLaws.ControlCharacters | kernel/video_console.c:343-372 | carriage return and backspace move the cursor in its row; other control characters do nothing |
| TerminalLaws.TabStop | kernel/video_console.c:349-358 | a tab goes to the next multiple of 8, or to the next row past the last column |
| TerminalLaws.Ignored | kernel/video_console.c:430-441 | `ESC (`, `ESC )` and `ESC #` swallow one byte, and ESC before a byte without a meaning does nothing |
| TerminalLaws.PrivateMode | kernel/video_console.c:572-591 | `ESC [ ? 7 h` makes the terminal wrap and any other final byte makes it stop, 6 does the same for the origin, other numbers do nothing |
| Jobs.JobTable.DoWait | sh/jobs.c:1199-1243 | for every table: after a report processes, states, freed slots and the list are as the report makes them; states that were right stay right: active, stopped or done as the processes are |
| Jobs.ReportedRight | sh/jobs.c:1203-1229 | after a report a state is right exactly when no process runs, it says active, or a process was reported to go on; a right state stays right |
| Jobs.JobTable.NoChild | sh/jobs.c:1189-1190 | without a child to wait for the job is recorded as done and nothing else changes |
| Jobs.NoteJob | sh/jobs.c:1203-1229 | the pass over one job's processes gives their new statuses, the state to record and whether the job is now complete |
| Jobs.Note | sh/jobs.c:1205-1224 | only a live process with that pid takes the report; the flags tell whether any runs or is stopped |
| Jobs.StateFollows | sh/jobs.c:1208-1229 | a report starts no process, except by telling that one goes on |
| Jobs.JobTable.MakeJob | sh/jobs.c:743-808 | the first free slot is taken, or the first of a grown table; all other jobs, the list and the background job are as before |
| Jobs.JobTable.Grow | sh/jobs.c:749-783 | a grown table keeps job numbers, the order of the list and the background job |
| Jobs.JobTable.Relocate | sh/jobs.c:758-777 | every pointer into the old table is turned into one to the same slot of the new one |
| Jobs.JobTable.SetCurJob | sh/jobs.c:811-829 | the job comes first on the list, the order of the others stays |
| Jobs.JobTable.DelJob | sh/jobs.c:831-845 | the job is off the list, the order of the others stays |
| Jobs.BypassLinked | sh/jobs.c:836-843 | bypassing an entry keeps the pointers a list of distinct in-use slots |
| Jobs.JobTable.FreeJob | sh/jobs.c:507-527 | the slot is free, off the list and no longer the background job |
| Jobs.JobTable.AddProcess | sh/jobs.c:979-997 | for every job with room: it gets one more running process, and a finished background job is let go; table, list and background job are in order afterwards exactly when the job has not let go of itself, and then states that were right are all right exactly when this one said active |
| Jobs.JobTable.RestartJob | sh/jobs.c:286-304 | every stopped process of an unfinished job runs again, the job is current, active if a process was stopped, and right states stay right |
| Jobs.JobTable.GetCurJob | sh/jobs.c:851-866 | the most recently used stopped job other than the given one, else the most recently used other job, else none |
| Jobs.Launched | sh/jobs.c:986-990 | adding a process leaves the recorded state right exactly when the job was still active |
| Jobs.PushExact | sh/jobs.c:811-829 | putting a job first on the list leaves a list of in-use slots exactly when the job is in use |
| Jobs.LaunchAfterReport | sh/jobs.c:979-997 | a run of table operations after which a job is recorded as done with a running process |
| Jobs.LaunchLetsGo | sh/jobs.c:979-997 | a run of table operations after which a free slot is on the list and is the background job |
| JobsLaws.ReportedProcesses | sh/jobs.c:1205-1219 | a report gives every live process with its pid the status reported, running, stopped by that signal or ended, and changes no other process |
| JobsLaws.ReportedStates | sh/jobs.c:1220-1229 | a job is active exactly while a process runs and done exactly when all have ended, after every report if it was before |
| JobsLaws.ReportedFrees | sh/jobs.c:1225-1240 | a slot becomes free exactly when its last process ends and nobody waits for the job, remembers it or needs it as the background job, in a shell that is not interactive |
| JobsLaws.ReportedList | sh/jobs.c:1225-1240 | a job leaves the list of recently used jobs exactly when its last process ends and it is not the one waited for |
| JobsLaws.ReportedOrder | sh/jobs.c:831-845 | the jobs that stay on that list keep their order |
| JobsLaws.StopsJob | sh/jobs.c:1205-1229 | a stop report leaves a job of one process recorded as stopped, and the process stopped by that signal |
| JobsLaws.ContinuesJob | sh/jobs.c:1205-1229 | a report that it goes on leaves it active and running |
| JobsLaws.RestartMeans | sh/jobs.c:286-304 | restarting a job makes every stopped process run, touches no other, and makes the job active if it had one |
| CommandCache.CommandTable.FindCommand | sh/exec.c:344-462 | whatever is remembered, a lookup answers as an empty table would: function, builtin, position of a fresh PATH search, or unknown; and everything remembered still agrees with a fresh search |
| CommandCache.CommandTable.SearchPath | sh/exec.c:391-443 | the loop finds the first element that has the command and tells whether it looked at a relative one |
| CommandCache.PAdvance | sh/exec.c:205-243 | successive calls give the elements of the path in order |
| CommandCache.SearchElsewhere | sh/exec.c:493-498 | a position found without a relative element is the same from every directory |
| CommandCache.CommandTable.ChangeDirectory | sh/exec.c:493-498 | after cd every remembered position is what a fresh search from there finds |
| CommandCache.CommandTable.ChangePath | sh/exec.c:508-512 | so it is after PATH has changed |
| CommandCache.CommandTable.Run | sh/eval.c:879-1167 | for every run of lookups, cd, PATH assignments, function definitions and removals, lookups by `type` and `command -v`, exceptions and nested commands with a path of their own: what each lookup finds, and path, directory and functions at the end, are those of a shell without a table; everything remembered agrees with fresh searches exactly when these find the positions that an exception has left from another path, of which there are none when the run was not left by an exception |
| CommandCache.CommandTable.RunPrefixed | sh/eval.c:884-1167 | a command with a path of its own resolves along it; then a function's body runs with it as a local PATH; a builtin's body runs; an external command may be left by an exception while the shell waits, and then its position stays in the table |
| CommandCache.CommandTable.RunBuiltin | sh/eval.c:1063-1134 | a special builtin keeps the PATH and passes errors on, but not when called through `command` (sh/eval.c:969-970); any other runs without it and stops errors |
| CommandCache.CommandTable.DescribeAll | sh/exec.c:727-836 | `type` and `command -v` along a path that is not the shell's: found along that path, and forgotten afterwards unless an exception comes first |
| CommandCache.CommandTable.Agreement | sh/exec.c:519-540 | with positions from another path in the table, it agrees with fresh searches exactly when they find the same, and also after any cd exactly when the flag is up or no relative element was passed |
| CommandCache.StaleAfterInterrupt | sh/eval.c:1148-1167 | a run with an interrupt while waiting, after which a remembered position is wrong |
| CommandCache.StaleAfterType | sh/exec.c:737-833 | the same for an interrupted `type` |
| CommandCache.CommandTable.CallFunction | sh/eval.c:1011-1056 | the caller's PATH is back after the function, also when an exception leaves it |
| CommandCache.CommandTable.ClearCmdEntry | sh/exec.c:519-540 | remembered positions are gone, functions and builtins stay |
| CommandCache.ClearChain | sh/exec.c:526-537 | one chain loses exactly its remembered positions |
| CommandCache.CommandTable.CmdLookup | sh/exec.c:567-591 | the entry for a name is found exactly when the table has one |
| CommandCache.CommandTable.SetEntry | sh/exec.c:567-655 | the name gets the command, all other names keep theirs |
| CommandCache.CommandTable.Defun | sh/exec.c:662-673 | the function is defined and the table still agrees with fresh searches |
| CommandCache.CommandTable.UnsetFunc | sh/exec.c:681-692 | the function is gone, nothing else |
| CommandLaws.PathElements | sh/exec.c:205-243 | the elements of directories joined by colons are those directories, empty ones included |
| CommandLaws.SearchMeans | sh/exec.c:391-443 | a search finds the first directory that has the file, relative and empty ones being below the current directory, and nothing exactly when none has |
| CommandLaws.NameMeans | sh/exec.c:344-462 | a name with a slash is a file; otherwise a function comes first, unless passed over, then a builtin, then the first file along the path |
| CommandLaws.DescribeMeans | sh/exec.c:727-836 | `type` and `command -v` along a path of their own find what a shell with that path would |
| CommandLaws.InOrder | sh/eval.c:879-1167 | commands run in order, each in the shell the ones before it have left, up to the first exception |
| CommandLaws.ShellChanges | sh/exec.c:493-512 | cd, assigning PATH, defining and removing a function change exactly what they say |
| CommandLaws.FunctionPath | sh/eval.c:1011-1056 | a function called with a PATH of its own runs with it, and the shell has its own path back however the function ends |
| CommandLaws.SpecialBuiltinPath | sh/eval.c:1087-1092 | a special builtin keeps the PATH it was given, and exceptions pass through it |
| CommandLaws.BuiltinPath | sh/eval.c:1087-1134 | any other builtin, and every builtin called through `command`, runs with the path of the shell and stops errors |
| CommandLaws.ExternalPath | sh/eval.c:1135-1167 | a file run with a path of its own is found along that path, and the shell stays as it was |
| Redir.Redirector.Run | sh/redir.c:102-330 | for every nesting of pushed lists, empty ones and ones that fail part way included, the pops restore the whole descriptor table, `fd0_redirected`, `redirlist` and `empty_redirs`; while descriptors are to spare, every command runs exactly if no redirection of its list fails, and finds the descriptors its list describes |
| Redir.Redirector.Redirect | sh/redir.c:102-161 | one frame is pushed that restores the table as it was, also when the list fails; a list that succeeds has exactly the effects of its redirections in order, and it fails only at a file that cannot be opened, a closed descriptor to duplicate or a full table |
| Redir.Redirector.PopRedir | sh/redir.c:303-330 | the table and the flag are those of the matching push; a counted frame or an allocated one is removed |
| Redir.Redirector.Push | sh/redir.c:115-127 | the list with its counters encodes a plain stack with one more frame |
| Redir.Redirector.SaveFd | sh/redir.c:136-151 | a descriptor is copied to a free number from 10 on, or noted as closed, without changing a low descriptor |
| Redir.Redirector.OpenRedirect | sh/redir.c:164-244 | only the redirected descriptor changes, as its redirection says |
| Redir.UndoStep | sh/redir.c:315-324 | undoing one descriptor restores it and closes its copy |
| Redir.SaveStep | sh/redir.c:136-151 | saving a descriptor keeps the frame able to restore everything |
| Redir.ClosesDescriptor | sh/redir.c:225-227 | a successful `n>&-` leaves n closed and every other low descriptor as it was |
| Redir.DuplicatesDescriptor | sh/redir.c:217-224 | a successful `n>&m` leaves n with the file of m and changes no other low descriptor; while output is collected in memory, duplicating 1 leaves the table alone |
| Redir.DuplicatesItself | sh/redir.c:132-134 | `n>&n` changes nothing |
| Redir.OpensFile | sh/redir.c:236-244 | a successful `n>file` leaves n with the file and changes no other low descriptor |
| Redir.FailureMeans | sh/redir.c:164-244 | a redirection fails exactly when its file does not open or the descriptor it duplicates is closed and not collected in memory; closing and `n>&n` never fail |
| Redir.MemoryFollows | sh/redir.c:217-219 | while output is collected in memory, a duplicate of a duplicate of 1 is collected too: the table stays as it was |
| Redir.Exchanges | sh/redir.c:128-156 | a list is done from left to right: `c>&a a>&b b>&c c>&-` exchanges a and b and closes c |
| FatChains.AddChain | scripts/make_disk.py:145-149 | linking newly allocated clusters adds one chain: chains stay disjoint, acyclic and ended, and every used entry is in one |
| FatChains.RemoveChain | scripts/make_disk.py:291-295 | clearing a chain's entries removes that chain and no other |
| FatChains.GrowChain | scripts/make_disk.py:185-189 | linking a free cluster after a chain's last one lengthens that chain only |
| FatChains.ChainsDisjoint | scripts/make_disk.py:110-218 | no cluster is in two chains or twice in one |
| Fat32.Disk.AllocCluster | scripts/make_disk.py:110-125 | a free cluster is taken, marked and zeroed; it fails exactly when none is free |
| Fat32.Disk.WriteFileData | scripts/make_disk.py:138-158 | the new chain, read back and cut to the size, is the data; everything else on the disk is as before |
| Fat32.Disk.AppendToDir | scripts/make_disk.py:176-191 | the directory's entries are the old ones and the new one, in a further cluster if the last was full; all other chains keep their contents |
| Fat32.Disk.AddFile | scripts/make_disk.py:211-218 | the directory gets the long-name entries and the file's entry, the file reads as its data, and every other file is unchanged |
| Fat32.Disk.AddDirectory | scripts/make_disk.py:193-209 | a new directory with its two dot entries and an entry for it in the parent; no file changes |
| Fat32.Disk.UpdateFile | scripts/make_disk.py:274-306 | for every name: the file whose entry was found in the first cluster, or a new one, has the new data, and a directory of that name is freed; every other file that could be reached from the root still can, with its data, exactly when that is not a directory with a file in it or below it |
| Fat32.LostBelow | scripts/make_disk.py:193-306 | a run in which a file below an otherwise empty directory is lost |
| Fat32.HiddenUpdate | scripts/make_disk.py:267-306 | a run in which an update is hidden by the entry of an earlier one |
| Fat32.Disk.FindOrCreateDir | scripts/make_disk.py:245-265 | the directory at a path can be reached from the root, everything that could be reached still can, and no file changes |
| Fat32.Disk.FindSubdir | scripts/make_disk.py:252-261 | the scan finds a subdirectory of that name in the first cluster, or there is none |
| Fat32.Disk.FreeChain | scripts/make_disk.py:291-295 | the loop clears exactly the entries of the chain, and nothing when there is none |
| Fat32.Disk.DropEntry | scripts/make_disk.py:287-296 | freeing the clusters of a found entry removes exactly its file, or its directory with the files in it |
| Fat32.Disk.ScanDir | scripts/make_disk.py:278-297 | the scan finds the first entry of that name in the first cluster, else the first unused slot there, else nothing |
| FatCatalog.UpdateSeen | scripts/make_disk.py:274-306 | looking the name up after an update finds the entry just written exactly when the name was not in the directory or was in its first cluster |
| FatCatalog.DirReplacedExactly | scripts/make_disk.py:287-302 | a file put in the place of a directory leaves all other reachable files exactly when there is none in or below the directory |
| FatCatalog.PathIsUnique | scripts/make_disk.py:193-209 | there is only one path from the root to a directory |
| FatCatalog.BelowIsLost | scripts/make_disk.py:288-302 | what was reached through a freed directory can no longer be reached |
| FatCatalog.EntryRoundTrip | scripts/make_disk.py:166-174 | a directory entry's name, attribute, start cluster and size are read back as packed |
| FatCatalog.DataAdded | scripts/make_disk.py:138-158 | new data clusters disturb no directory and no file |
| FatCatalog.EntryWritten | scripts/make_disk.py:176-191 | writing an entry disturbs no other directory and no file |
| FatCatalog.FileDropped | scripts/make_disk.py:288-295 | freeing one file's clusters disturbs no other file |
| FatCatalog.DirDropped | scripts/make_disk.py:288-295 | freeing a directory's clusters disturbs no other directory and no file outside it |
| FatLaws.FileRead | scripts/make_disk.py:138-174 | a reader that knows only bytes and offsets finds every file of every reachable state: attribute 0x20, its size, and a first cluster from which the table leads to exactly its data |
| FatLaws.DirectoryRead | scripts/make_disk.py:176-191 | every entry of a directory is where that reader looks for it, and after the last comes a zero byte or the end of the chain |
| FatLaws.SubdirectoryRead | scripts/make_disk.py:193-209 | the entry of a directory leads that reader to the directory |
| FatLaws.EntryLayout | scripts/make_disk.py:166-174 | the bytes of an entry: name, attribute, zeros, cluster at 26 and 20 and size at 28 with the low byte first |
| FatLaws.NewDirectory | scripts/make_disk.py:193-203 | the cluster of a new directory holds `.` for itself, `..` for its parent, or 0 for the root, and zeros |
| FatLaws.DotsRead | scripts/make_disk.py:197-201 | the reader finds both on the disk |
| FatLaws.FoundMeans | scripts/make_disk.py:278-297 | the search for a name gives the first entry with its 11 bytes that is no part of a long name |
| FatLaws.DirectoryBit | scripts/make_disk.py:257 | an entry is taken for a directory exactly when bit 4 of its attribute is set, as in the entries made for directories and not in those of files and long names |
| FatLaws.UpdateMeans | scripts/make_disk.py:276-306 | an update changes the entry found among the first 128, or adds one at the end, and leaves all others in their places |

## Left out

- Glob.PatMatch: asks for patterns in which no escape or bracket range is cut off by the end of the text, because the code then reads past the terminator; multi-byte locales are not modelled, and collation and character classes are parameters.
- Word expansion beyond matching, trimming, splitting and escaping: tilde, directory globbing, command substitution and the parsing of `${}`.
- ArithEval.Arith.Evaluate: shifts and unary minus are taken as 64-bit two's complement where ISO C leaves them open; the limits on the length of names are those of the lexer only.
- Control: `case`, pipelines, subshells, redirected commands, `set -e`, `set -n`, traps and exceptions are not part of the semantics.
- StackAlloc.Stack.GrowStackBlock: int overflow of block sizes is not modelled; blocks are taken to stay below 2^30 bytes.
- PageTable.Mapper.MapPage: the source does not check for a failed page allocation; the model stops there with `ok == false`.
- Loader: reading and parsing the Mach-O file, a failed allocation of segment pages, the entry point and the physical bounds passed to the kernel.
- Console: a missing backbuffer, enabling, locking and the blinking cursor; scanlines are copied whole, as they are when the pitch is a multiple of four bytes.
- Jobs.JobTable.DoWait: the system call itself, signals and the messages printed afterwards; process groups, terminal control and the `changed` and `pipefail` flags.
- CommandCache.CommandTable.Run: `%` options in PATH, error codes and messages, files that appear or vanish between lookups, the lookup of the word `command` itself, and a local PATH declared inside a function.
- Redir.Redirector.Redirect: redirections without a push (`exec`, subshells), writing here-documents, `noclobber` checks.
- Fat32.Disk.UpdateFile: it fails only when no cluster is free; that ends the build, so nothing is promised of the disk then. Names are taken as the builder makes them, which never begin with a dot.
- Jobs.JobTable.AddProcess: what is written through the process array of a job that has just freed it is not modelled.
- The boot sector, 8.3 names, long-name entries' contents, writing and loading the table's bytes, and the walk over host files in the image builder.
- `dash/`, `kilo/`, the rest of the kernel and the other userland programs.
