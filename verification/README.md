# Verified models of the Lua core and of the computer around it

The repository boots a small computer that runs Lua 5.1.5 programs: it carries the whole Lua core
and adds an event loop, a reader for FAT file systems and a window library written in Lua. This
project models the parts of it that are hardest to get right and proves what they are for.

- **Expression code generator** (`Bytecode`, `PendingCode`, `Patching`, `ExpSemantics`, `ExpLemmas`,
  `ExpFinish`, `JumpLists`, `CodeGen`, `Compile`, `ExpMeaning`). `FuncState` is the code generator
  with its code array, its patch lists threaded through unpatched jumps, its register stack and its
  constant table. The main theorem is preservation of meaning: the machine, run on the emitted code,
  computes the value of the source expression. `PendingCode.Run` gives a meaning to code that still
  has pending jumps, and `ExpSemantics.Computes` is the relation that every operation keeps. What
  the operators mean is stated on its own in `ExpMeaning`.
- **Operator precedence** (`Precedence`, `Grouping`): trees that respect the priority table and
  texts correspond one to one, and these trees are those of the grammar of the reference manual.
- **Tables** (`NodeChains`, `TableSizes`, `TableCounts`, `TableMap`, `Traversal`, `Table`). The
  class `Table.Table` has an array part and a hash part with Brent's variation; it behaves as a
  finite map. Its invariant is about next-links: acyclic, one predecessor, every key on the chain of
  its main position. A ghost budget shows that one insertion rehashes at most once.
- **Incremental garbage collector** (`GcHeap`, `GcStores`, `Marking`, `WeakTables`, `GcInvariant`,
  `GcSweep`, `GcReach`, `UpvalLinks`, `GcContents`, `GcUpdate`, `Collector`, `Mutator`, `GcRuns`).
  The class `Collector.Global` holds heap, colours, lists and phase. The collector's steps and the
  program's steps are methods that keep one invariant, the doubly linked list of open upvalues
  included, so it holds in every interleaving. `GcStores` ties the references that the collector
  follows to the fields of the objects, and reachability to paths along them.
- **Bytecode checker** (`Checker`, `CheckerMeaning`): accepted code keeps the machine on
  instructions, exactly if a condition on LOADBOOL holds that the checker does not test. What is
  accepted is exactly what the description of the opcodes asks for.
- **Pattern matcher** (`PatternSpec`, `Matcher`, `PatternTheory`, `PatternMeaning`): the
  backtracking matcher, which undoes captures, against an ordered list of results and against a
  declarative relation that speaks of the characters of the pattern.
- **Sort** (`Sort`), **binary chunks** (`ChunkFormat`, `ChunkIO`, `ChunkMeaning`), **quoting and
  lexing** (`Quoting`, `StringMeaning`): a sorted permutation with bounded recursion, and two round
  trips over a reader that cuts the bytes into blocks of any sizes.
- **The computer itself**: the line buffer of windows (`Window`), the event loop with its linked
  queues and key codes (`Events`, `Keys`), the FAT reader (`Fat`, `FatMeaning`). `Basics` holds
  shared definitions.

Five natural claims are false of the code. For each there is an input that shows it, and the exact
condition under which the claim holds. A full collection may leave strings that cannot be reached
(`GcRuns.WeakStringStays`): it leaves exactly the reachable and the fixed objects if and only if the
strings in reachable weak tables are among these (`Collector.Global.FullGc`). Accepted code may skip
past its end (`Checker.SkipTooFarIsAccepted`): it is safe if and only if each LOADBOOL with a C of 2
or more skips a whole instruction that is not the last (`Checker.AcceptedIsSafe`). A read may get
the bytes of another cluster (`Fat.FragmentedRead`): it is exact for all contents of the disk if and
only if it is empty or starts in the cluster that holds its first byte (`Fat.ReadIsExact`). The
lines of a window may have another width than the window (`Window.NegativeWidth`,
`Window.WidthAfterNegative`): in a sequence of operations they always have its width if and only if
no negative width is given to a window with lines (`Window.Run`). The pause key, whose number should
be 197, has that of the number lock (`Keys.PauseIsNumLock`): of the keys that send three bytes, 197
comes from a second byte of 0xE0 only (`Keys.LongIs197`).

Errors that the original raises with `longjmp` are results here. Reader, writer, order function, key
codes and timers are parameters. `dafny verify dfyconfig.toml` checks the whole project.

## Model

| member | source | states |
|---|---|---|
| Compile.CompileReturn | lua/lcode.c:390-419 | for every expression over constants, locals, `not`, `and`, `or` and comparisons, the machine run on the emitted code halts with the target register equal to the source-level value and all parameters unchanged, or fails exactly when the expression raises an error |
| ExpMeaning.CompareNumbers | lua/lvm.c:225-252 | compiled code for `return a <op> b` on two numbers halts with the truth of the comparison of the reals, for each of the six operators |
| ExpMeaning.CompareStrings | lua/lvm.c:203-222 | the same on two strings, in the order of a dictionary |
| ExpMeaning.ComparisonMeans | lua/lvm.c:225-276 | any two values may be tested for equality; two numbers are ordered by size, two strings as in a dictionary, and to order anything else is an error |
| ExpMeaning.StrLessIsPrecedes | lua/lvm.c:203-222 | a string is less exactly if it is a proper prefix of the other one or has the smaller character at the first place where they differ |
| ExpMeaning.LogicMeans | lua/lcode.c:538-640 | only nil and false are false; `and` and `or` give one of their operands and leave the right one unevaluated if the left one decides |
| Compile.MachineFollowsRun | lua/lvm.c:389-585 | the interpreter loop, one step at a time, comes to what the symbolic run of settled code says |
| Compile.SettledIsExecutable | lua/lcode.c:150-182 | code without pending jumps, closed by a RETURN, never jumps or skips outside the code array |
| CodeGen.FuncState.SubExpr | lua/lparser.c:828-853 | compiling any expression keeps the meaning relation: running the new code from any entry state gives the value, through fall-through or an exit on the right patch list, with lower registers unchanged |
| CodeGen.FuncState.BinaryExp | lua/lcode.c:710-781 | the infix action, the right operand and the postfix action together compile a binary operator |
| CodeGen.FuncState.Exp2Reg | lua/lcode.c:390-411 | all exits of an expression are brought into one register; afterwards both lists are empty and the register holds the value |
| CodeGen.FuncState.Discharge2Reg | lua/lcode.c:343-379 | the described value is put into the register unless it is a pending comparison, which changes nothing |
| CodeGen.FuncState.Discharge2AnyReg | lua/lcode.c:382-387 | the value ends in some register that the register accounting allows |
| CodeGen.FuncState.Exp2NextReg | lua/lcode.c:414-419 | the value is in the first free register and exactly one register is reserved |
| CodeGen.FuncState.Exp2AnyReg | lua/lcode.c:422-433 | the value is in some register, without jumps left |
| CodeGen.FuncState.Exp2Val | lua/lcode.c:436-441 | no jumps are left and the value is still described |
| CodeGen.FuncState.Exp2RK | lua/lcode.c:444-469 | the value is an RK operand: a constant index that fits, or a register |
| CodeGen.FuncState.GoIfTrue | lua/lcode.c:539-560 | code goes on exactly when the value is true; the false list carries the value of every other run |
| CodeGen.FuncState.GoIfFalse | lua/lcode.c:563-583 | code goes on exactly when the value is false; the true list carries the value of every other run |
| CodeGen.FuncState.JumpOnCond | lua/lcode.c:524-536 | one test and one jump are emitted; the jump is taken exactly when the truth is the one asked for, also when a NOT is folded into the test |
| CodeGen.FuncState.CodeNot | lua/lcode.c:586-618 | the descriptor stands for the negation, with the lists interchanged and made to deliver booleans |
| CodeGen.FuncState.CodeComp | lua/lcode.c:673-686 | the emitted comparison decides the source comparison, with operands exchanged for `>` and `>=` |
| CodeGen.FuncState.InvertJump | lua/lcode.c:516-521 | only the condition of the comparison before the jump is inverted |
| CodeGen.FuncState.Nil | lua/lcode.c:35-56 | the register holds nil, also when the code is left out at the start of a function or an earlier LOADNIL is widened |
| CodeGen.FuncState.Concat | lua/lcode.c:185-196 | concatenation of two disjoint patch lists is sequence append, and only list links change |
| CodeGen.FuncState.GetJump | lua/lcode.c:100-106 | the next jump of the list, or the end of the list |
| CodeGen.FuncState.FixJump | lua/lcode.c:80-87 | only the offset of that jump changes |
| CodeGen.FuncState.PatchListAux | lua/lcode.c:150-160 | exactly the listed jumps are retargeted, each by whether it delivers a value, and their tests get the register; nothing else changes |
| CodeGen.FuncState.PatchTestReg | lua/lcode.c:131-141 | a TESTSET gets its register, or becomes a TEST |
| CodeGen.FuncState.RemoveValues | lua/lcode.c:144-147 | exactly the listed tests become tests without a copy |
| CodeGen.FuncState.NeedValue | lua/lcode.c:122-128 | true if and only if some jump of the list does not deliver a value |
| CodeGen.FuncState.Code | lua/lcode.c:789-801 | jumps due here are settled to the new instruction before it is stored |
| CodeGen.FuncState.Jump | lua/lcode.c:59-66 | the new jump heads a list that goes on with the jumps that were due here |
| CodeGen.FuncState.PatchToHere | lua/lcode.c:179-182 | the list is appended to the jumps due here and the position becomes a jump target |
| CodeGen.FuncState.CondJump | lua/lcode.c:74-77 | a test and its pending jump are appended, the jump being a list of its own |
| CodeGen.FuncState.CodeLabel | lua/lcode.c:337-340 | a LOADBOOL is appended at a position marked as a jump target |
| CodeGen.FuncState.AddK | lua/lcode.c:229-247 | the constant is in the table at the returned index, and no constant moves |
| CodeGen.FuncState.FreeExp | lua/lcode.c:223-226 | the register is given back if and only if it is a temporary |
| CodeGen.FuncState.SimpleExp | lua/lparser.c:727-775 | constants and locals cost no code |
| CodeGen.FuncState.CodeString | lua/lparser.c:133-135 | the descriptor is an index of the string in the constant table |
| JumpLists.IsListUnique | lua/lcode.c:100-106 | a patch list is determined by its head: following offsets gives one acyclic list |
| JumpLists.LinkedIsList | lua/lcode.c:185-196 | joining two disjoint lists at the last link yields their append |
| Patching.RunPatched | lua/lcode.c:131-160 | patching means: leaving through a listed jump becomes going on at its target, after the copy that its test makes |
| Patching.PatchedWellFormed | lua/lcode.c:150-160 | patching keeps code well formed and settles exactly the listed jumps |
| PendingCode.RunAppend | lua/lcode.c:789-801 | code that falls off its end goes on with whatever is appended; other outcomes stay |
| PendingCode.RunSameUpToPending | lua/lcode.c:80-106 | the links that pending jumps carry do not change what code does |
| Bytecode.SetNilsGet | lua/lvm.c:420-426 | LOADNIL sets exactly the registers from A to B to nil |
| ExpFinish.FinishLabels | lua/lcode.c:390-411 | with the two LOADBOOL labels every exit arrives at the end with its value in the register |
| ExpFinish.FinishJoined | lua/lcode.c:390-411 | without labels, when every exit delivers its value, so does the joined end |
| ExpLemmas.ComputesLogical | lua/lcode.c:710-781 | after the guard on the left operand the right operand decides `and` and `or` |
| ExpLemmas.ComputesNot | lua/lcode.c:586-618 | negating the rest and interchanging the lists computes `not` |
| ExpLemmas.ComputesComparison | lua/lcode.c:673-686 | comparing the two operands computes the source comparison, although the right operand's code runs in between |
| ExpLemmas.GuardsTest | lua/lcode.c:539-583 | a test with its pending jump, and the other list declared due, is a guard on the truth of the expression |
| ExpSemantics.EvalAgree | lua/lparser.c:727-775 | the value of an expression depends only on the active locals |
| Precedence.LexState.ReadSubExpr | lua/lparser.c:828-853 | the loop reads exactly what the recursive reading function says, and stops where it stops |
| Precedence.ReadsBack | lua/lparser.c:812-853 | a tree that respects the priorities is what `subexpr` reads from its own tokens |
| Precedence.ReadsRespecting | lua/lparser.c:812-853 | whatever is read respects the priorities, consumes exactly its tokens, and stops only where it must |
| Precedence.Unambiguous | lua/lparser.c:812-820 | a text has at most one tree that respects the priorities |
| Grouping.ReadsTheGrammar | lua/lparser.c:810-853 | a text is read as a tree exactly if the tree has these tokens and is in the grammar of seven levels of binary operators and one of unary ones, with `..` and `^` to the right |
| Grouping.RespectsIsGrammar | lua/lparser.c:810-821 | a tree respects the numbers of the priority table exactly if it is in that grammar |
| Grouping.TwoBinary | lua/lparser.c:810-821 | of two binary operators in a row the one of the higher level goes first, and of one level the left one, but for `..` and `^` |
| Grouping.UnaryFirst | lua/lparser.c:810-821 | of the binary operators only a power goes into the operand of a unary one |
| Grouping.MinusSigns | lua/lparser.c:810-853 | subtraction groups to the left; a power's exponent may start with a minus sign, which takes a further power |
| Table.Table.constructor | lua/ltable.c:358-371 | a new table holds nothing |
| Table.Table.Put | lua/ltable.c:494-505 | assignment updates the abstract map exactly at the key, nil removing it, with the two key errors exactly for nil and NaN, and rehashes at most once |
| Table.Table.Get | lua/ltable.c:469-491 | a lookup returns what the abstract map holds, nil if nothing |
| Table.Table.Find | lua/ltable.c:435-491 | the slot of the key is found, and none is found only if no node in use has the key |
| Table.Table.Set | lua/ltable.c:494-529 | a slot for the key without any change of the map; existing keys move nothing |
| Table.Table.NewKey | lua/ltable.c:399-429 | a new slot for an absent key keeps the map and the chain invariant; with no rehash allowed it finds a free node |
| Table.Table.GetFreePos | lua/ltable.c:382-388 | a free node, or proof that none is left: the pointer only moves down over used nodes |
| Table.Table.LinkFreeNode | lua/ltable.c:418-423 | a colliding key whose main position is held by right goes to a free node linked behind it |
| Table.Table.MoveCollidingNode | lua/ltable.c:409-417 | an out-of-place occupant moves to the free node and the new key takes its main position |
| Table.Table.Assign | lua/ltable.c:494-505 | storing through a slot updates the map and moves nothing |
| Table.Table.Resize | lua/ltable.c:297-324 | both parts are rebuilt with the requested sizes, the map is unchanged, and no re-insertion rehashes |
| Table.Table.Reinsert | lua/ltable.c:309-321 | while rebuilding there is always room, so one re-insertion uses at most one free node and no rehash |
| Table.Table.Rehash | lua/ltable.c:333-349 | the array part gets the best size for all keys and the new one, the hash part just room for the rest, and the new key then fits |
| Table.Table.CountAndSize | lua/ltable.c:333-346 | the counting loops count every key exactly once |
| Table.Table.SetNodeVector | lua/ltable.c:272-294 | a fresh vector of the smallest power of two, or overflow exactly above the limit |
| Table.Table.SetArrayVector | lua/ltable.c:263-269 | the array part keeps its values and new slots are nil |
| Table.Table.FindIndex | lua/ltable.c:137-159 | the position of a key of the traversal, also when the key died; failure exactly if there is none |
| Table.Table.Next | lua/ltable.c:162-179 | the next entry with a value and its value in the map, the end of the table, or an invalid key |
| Table.Table.RemoveEntry | lua/lgc.c:62-66 | marking the key of an empty entry dead changes neither the map nor the place of a traversal |
| Table.Table.Length | lua/ltable.c:560-576 | the length is a border of the map |
| Table.Table.UnboundSearch | lua/ltable.c:532-553 | doubling and binary search end at a border, also by the linear fallback |
| NodeChains.TakeOver | lua/ltable.c:399-429 | a key that takes an empty main position keeps every key findable |
| NodeChains.InsertAfter | lua/ltable.c:418-423 | linking a free node behind the main position keeps chains acyclic, with one predecessor, and every key findable |
| NodeChains.InsertMoving | lua/ltable.c:409-417 | moving the out-of-place node keeps the same |
| TableSizes.ComputeSizes | lua/ltable.c:189-208 | the largest power of two n such that more than half of 1..n are keys, with the exact count of those keys |
| TableCounts.NumUseArray | lua/ltable.c:222-244 | the number of keys with a value in the array part, also for every slice |
| TableCounts.NumUseHash | lua/ltable.c:247-260 | the number of keys with a value in the hash part, and the slices of those that could go to the array |
| TableCounts.CountInt | lua/ltable.c:211-219 | exactly the slice of an integer key is counted |
| TableMap.HashBoundCount | lua/ltable.c:345-348 | keys left for the hash part are all keys less those counted for the array part |
| Traversal.EveryEntryOnce | lua/ltable.c:162-179 | a traversal from nil to the end visits no key twice, only entries, in boundedly many steps, and every entry that stays, whatever fields are reassigned or cleared and whatever keys die in between |
| Table.Traverse | lua/ltable.c:162-179 | the loop of `next` from nil, with assignments to existing fields and dying keys in between, ends; no key is visited twice, every entry that stays is visited, and without clearing the keys visited are exactly those of the table |
| Traversal.TraversalGoesOn | lua/ltable.c:137-159 | in the middle of a traversal the key last returned is always found again |
| Collector.Global.constructor | lua/lstate.c:143-190 | a new state satisfies the invariant of program and collector |
| Collector.Global.SingleStep | lua/lgc.c:556-607 | one step of the collector, from any phase, gets further in the phase or ends it, keeps the invariant, frees nothing the program can get at, and leaves contents alone except for entries cleared from weak tables |
| Collector.Global.FullGc | lua/lgc.c:635-658 | from any phase a full collection ends; left are exactly the reachable objects, the strings that reachable weak tables hold and the fixed strings, hence exactly the reachable and the fixed objects if and only if those strings are among them; contents stay but for the cleared weak entries, no object that is left stores a reference to one that is gone, and no reference dangles |
| Collector.Global.Atomic | lua/lgc.c:525-553 | at the end of marking everything that is not dead refers only to what is not dead; started from a fresh cycle the marked objects are exactly the reachable ones and the kept strings |
| Collector.Global.MarkAtomic | lua/lgc.c:525-545 | after the atomic phase marked objects refer strongly to marked objects only, and every marked weak table is listed |
| Collector.Global.MarkReachable | lua/lgc.c:653-656 | a whole mark phase leaves alive exactly what is reachable and the strings in reachable weak tables |
| Collector.Global.ReallyMarkObject | lua/lgc.c:69-112 | marking a white object keeps the tricolour invariant and strictly reduces the work left |
| Collector.Global.TraverseTable | lua/lgc.c:158-196 | the strong references of the table are marked, dead keys removed, and a weak table listed for clearing |
| Collector.Global.TraverseNodes | lua/lgc.c:183-194 | every entry is marked as its weakness says, and keys of empty entries die |
| Collector.Global.PropagateMark | lua/lgc.c:277-320 | one gray object is visited; the tricolour invariant holds and the work shrinks |
| Collector.Global.PropagateThread | lua/lgc.c:297-305 | a thread stays gray and is put on the list to be visited again |
| Collector.Global.PropagateAll | lua/lgc.c:323-327 | propagation ends with no gray object left to visit |
| Collector.Global.MarkRoot | lua/lgc.c:501-512 | the roots are marked and nothing outside the reachable set is |
| Collector.Global.RemarkUpvals | lua/lgc.c:515-522 | walking the doubly linked list marks the values of all marked open upvalues, also those of dead threads |
| Collector.Global.IsCleared | lua/lgc.c:337-345 | exactly unmarked objects that are not strings go; a string is marked instead |
| Collector.Global.ClearTable | lua/lgc.c:351-375 | the table loses exactly the entries that refer to cleared objects |
| Collector.Global.ClearTables | lua/lgc.c:351-375 | so do all listed tables |
| Collector.Global.SweepBucket | lua/lgc.c:407-428 | a bucket of strings is swept: the dead are freed, the others become white |
| Collector.Global.SweepObject | lua/lgc.c:407-428 | one object of the list is freed if dead, else whitened together with the open upvalues of a thread; alive objects keep their contents and the work shrinks |
| Collector.Global.FreeObject | lua/lgc.c:378-400 | freeing a dead object keeps the invariant; a thread closes its upvalues first |
| Collector.Global.FinishSweep | lua/lgc.c:648-652 | the pending sweep ends with everything alive kept |
| Collector.Global.BarrierForward | lua/lgc.c:661-671 | after the forward barrier either the target is marked or the black object is not black any more |
| Collector.Global.BarrierBack | lua/lgc.c:674-682 | after the backward barrier the table is gray and will be visited again |
| Collector.Global.StoreInTable | lua/lgc.h:89-90 | a store into a table followed by its barrier keeps the invariant in every phase |
| Collector.Global.StoreWithBarrier | lua/lgc.h:86-87 | so does a store into a closure or a closed upvalue followed by the forward barrier |
| Collector.Global.StoreInThread | lua/lgc.c:256-270 | stacks are written without any barrier |
| Collector.Global.Link | lua/lgc.c:685-691 | a new object is white, on the list of all objects, and the sweep position stays right |
| Collector.Global.CloseUpval | lua/lgc.c:694-709 | closing the topmost open upvalue moves it to the list of all objects with its value, with the barrier or colour change that the phase needs, or frees it if dead |
| Collector.Global.Close | lua/lfunc.c:96-112 | exactly the upvalues at the level or above are closed, each with the last value of its slot; dead ones are freed; the stack does not change |
| Collector.Global.FreeUpval | lua/lfunc.c:89-93 | a dead open upvalue leaves both lists |
| Mutator.AccessibleUsable | lua/lgc.h:65-71 | whatever the program can get at, through weak references too, is not dead |
| Mutator.ReachableUsable | lua/lgc.h:65-71 | so is whatever is reachable through strong references |
| Mutator.LoadUsable | lua/lobject.h:274-353 | a value that is read from any field of an object that is not dead is not dead: metatable, array, entry, environment, upvalue, globals, stack, slot of an open upvalue |
| Mutator.RootUsable | lua/lgc.c:500-511 | neither is one that is read from a root |
| Mutator.FixString | lua/lstring.h:24-24 | a string may be fixed at any time |
| Mutator.NoBlackToWhite | lua/lgc.c:661-682 | in the mark phase no black object refers to a white one, not even by a key of an empty entry |
| Mutator.SetArray | lua/lapi.c:671-681 | a store into the array part keeps the invariant |
| Mutator.SetNode | lua/lapi.c:671-681 | a store into an existing entry keeps the invariant without a barrier for the key |
| Mutator.NewKey | lua/ltable.c:425-426 | a new key keeps the invariant with the barrier for the key |
| Mutator.Rearrange | lua/ltable.c:297-324 | a resize, or a node that moves when a key is inserted, puts entries and keys elsewhere without barriers |
| Mutator.SetMetatable | lua/lapi.c:697-731 | setting a metatable keeps the invariant |
| Mutator.SetMode | lua/lgc.c:158-196 | a change of weakness at any time keeps the invariant |
| Mutator.SetEnv | lua/lapi.c:734-760 | setting the environment of a function keeps the invariant |
| Mutator.SetClosureValue | lua/lapi.c:203-225 | so does replacing an upvalue of a C function |
| Mutator.SetUpval | lua/lvm.c:451-456 | an assignment to an upvalue reaches the stack slot if it is open and keeps the invariant, even if the thread is dead |
| Mutator.FindUpval | lua/lfunc.c:53-79 | captures of one stack slot share one upvalue, revived if it was dead; a new one is made exactly if there is none, at its place in the list sorted by level, and nothing else changes |
| UpvalLinks.PushThreads | lua/lfunc.c:66-78 | linking a new upvalue behind the head keeps the doubly linked list a circle through exactly the open upvalues |
| UpvalLinks.WithoutThreads | lua/lfunc.c:82-86 | so does unlinking any one of them |
| Mutator.FoundString | lua/lstring.c:75-93 | an interned string that is dead is revived |
| Mutator.NewTable | lua/ltable.c:358-371 | a new table is usable at once, in every phase |
| Mutator.NewClosure | lua/lfunc.c:23-41 | so is a new closure |
| Mutator.NewThread | lua/lstate.c:119-131 | so is a new thread |
| Mutator.NewUpval | lua/lfunc.c:44-50 | so is a new upvalue |
| Mutator.NewString | lua/lstring.c:50-72 | so is a new string, even if its bucket is swept already |
| GcRuns.Run | lua/lgc.c:556-607 | every interleaving of program steps, loads from objects and roots among them, and collector steps from a new state ends in a state where nothing the program can get at is dead, no such object stores a reference to a dead one and, in the mark phase, no black object refers to a white one |
| GcRuns.Perform | lua/lgc.c:556-607 | each step that uses only objects that are not dead keeps the invariant |
| GcReach.WeakStringIsKept | lua/lgc.c:337-345 | a counterexample to exact collection: a string that only a weak table refers to is not reachable and is among the kept strings |
| GcRuns.WeakStringStays | lua/lgc.c:635-658 | a run that builds this heap: after a full collection the string is still there and cannot be reached |
| GcReach.SweepReach | lua/lgc.c:407-428 | sweeping does not change what is reachable |
| GcContents.WholeCollection | lua/lgc.c:635-658 | sweep, mark and sweep together change an object only by removing weak entries that refer to unreachable objects |
| GcContents.CollectedMeans | lua/lgc.c:347-379 | after a collection a table has lost exactly the weak values and the entries of weak tables that refer to unreachable objects, strings as values excepted; other objects store what they stored |
| GcContents.KeptMeans | lua/lgc.c:329-341 | the strings that a weak table may keep without their being reachable are those in its array part, its keys, and its values whose keys stay |
| GcStores.EntryIsStored | lua/lobject.h:274-353 | the references that the collector counts as an object's entries are exactly those that some field of it stores |
| GcStores.StrongIsHeld | lua/lgc.c:158-322 | those that it follows are exactly those stored in fields that are not weak |
| GcStores.AnyIsMentioned | lua/lobject.h:329-353 | with the keys of empty entries they are exactly those that an object mentions |
| GcStores.ReachableByPath | lua/lgc.c:277-322 | an object is reachable if and only if a path of references stored in fields that are not weak leads to it from a root |
| GcInvariant.ExactlyReachable | lua/lgc.c:525-553 | marks that are closed, contain the roots and stay inside the reachable set are the reachable set |
| GcSweep.OnlyAliveLeft | lua/lgc.c:407-428 | when everything is white again, what is left was alive |
| WeakTables.ClearedAll | lua/lgc.c:351-375 | after clearing, marked objects refer only to marked objects, weakly too |
| Checker.CheckCode | lua/ldebug.c:484-486 | the checker accepts exactly the prototypes in which every word that is an instruction passes its checks |
| Checker.SymbExec | lua/ldebug.c:317-475 | a full symbolic execution returns an instruction if and only if all checks pass |
| Checker.Parity | lua/ldebug.c:343-364 | a word is an instruction exactly if an even run of SETLIST-like words precedes it |
| Checker.CheckSpecific | lua/ldebug.c:373-472 | the checks for one opcode |
| Checker.CheckClosure | lua/ldebug.c:450-461 | all pseudo-instructions after a CLOSURE are moves or upvalue reads |
| Checker.AcceptedIsSafe | lua/ldebug.c:317-487 | accepted code is safe for the machine if and only if each LOADBOOL with a C of 2 or more skips a whole instruction that is not the last |
| Checker.GeneratedIsSafe | lua/lcode.c:337-355 | accepted code whose LOADBOOL operands are 0 or 1 never leaves the code array nor lands on a count word |
| Checker.RunsAreGood | lua/lvm.c:389-765 | every run of safe code stays inside the code and on instructions |
| Checker.SkipTooFarIsAccepted | lua/ldebug.c:374-381 | a counterexample: the checker accepts a LOADBOOL with a C of 2 that skips past the end |
| CheckerMeaning.AcceptedMeans | lua/ldebug.c:275-475 | the checker accepts exactly the code whose header fits, which ends with a RETURN, and each of whose instructions has registers, constants, upvalues, jump targets and following instructions as the comment at its opcode asks for |
| CheckerMeaning.RunInRange | lua/lopcodes.h:150-233 | every instruction that a run of accepted and safe code comes to has its operands in range |
| CheckerMeaning.OpenTop | lua/ldebug.c:286-303 | when an instruction of a run leaves values up to the top of the stack, the next one of the run is right after it and takes them |
| CheckerMeaning.NextMeans | lua/lvm.c:389-765 | to which words each instruction of accepted code may lead |
| CheckerMeaning.OnlyReturn | lua/ldebug.c:275-285 | the code RETURN 0 1 is accepted exactly if its header fits |
| CheckerMeaning.ReturnAllIsAccepted | lua/ldebug.c:288-303 | the code of `return ...` is accepted |
| CheckerMeaning.Fields | lua/lopcodes.h:32-113 | the five fields of a word that is put together from opcode and operands |
| CheckerMeaning.FieldsAreAll | lua/lopcodes.h:32-113 | a word is determined by its fields |
| Matcher.MatchState.Match | lua/lstrlib.c:365-440 | the matcher ends for every pattern with the first result in the order of priority, an error if that comes first, or no match, and then the captures are as they were |
| Matcher.MatchState.MaxExpand | lua/lstrlib.c:301-313 | greedy repetition, the most repetitions first |
| Matcher.MatchState.MinExpand | lua/lstrlib.c:316-326 | lazy repetition, the fewest repetitions first |
| Matcher.MatchState.StartCapture | lua/lstrlib.c:329-340 | a new capture, undone if the rest fails; an error if there are too many |
| Matcher.MatchState.EndCapture | lua/lstrlib.c:343-351 | the innermost open capture is closed, and reopened if the rest fails |
| Matcher.MatchState.CaptureToClose | lua/lstrlib.c:194-199 | the last open capture |
| Matcher.MatchState.MatchCapture | lua/lstrlib.c:354-362 | a copy of a finished capture, an error for an invalid index |
| Matcher.MatchState.MatchBalance | lua/lstrlib.c:281-298 | the end of a balanced text |
| PatternTheory.SetEndIsFirst | lua/lstrlib.c:202-223 | a set ends at the first bracket where an item of it starts, the first item not counting, and is malformed exactly if there is none |
| PatternTheory.ResultsDescribe | lua/lstrlib.c:365-440 | the ordered list of results holds exactly what an unordered relation derives in which an item stands for any allowed number of characters |
| PatternMeaning.MatchMeans | lua/lstrlib.c:365-440 | the matcher succeeds if and only if the pattern describes a match in terms of its own characters, and what it gives is one that the pattern describes |
| PatternMeaning.ResultsAreDescribed | lua/lstrlib.c:365-440 | the ordered list of results holds exactly what the pattern describes |
| PatternMeaning.DescribesMeans | lua/lstrlib.c:194-440 | what a pattern describes, by classes, sets, captures and balanced texts stated on their own, is what the matcher's functions lead to |
| PatternMeaning.ClassMeans | lua/lstrlib.c:226-242 | each class letter is a stated set of bytes, its upper-case form the complement, and any other character stands for itself |
| PatternMeaning.SetMeans | lua/lstrlib.c:245-265 | a set has a character exactly if one of its items, a class, a range or a character, has it |
| PatternMeaning.CaretComplements | lua/lstrlib.c:245-265 | with `^` first a set matches exactly the characters that it does not match without |
| PatternMeaning.BackMeans | lua/lstrlib.c:186-191 | a back reference succeeds exactly if the text repeats the capture, and is an error exactly if there is no such closed capture |
| PatternMeaning.TokenMeans | lua/lstrlib.c:365-440 | what the characters at a place of the pattern stand for |
| PatternMeaning.ClassEndMeans | lua/lstrlib.c:202-223 | where a single character class ends |
| PatternMeaning.BalanceMeans | lua/lstrlib.c:281-298 | a balanced text ends where for the first time as many closings as openings were met |
| PatternTheory.ErrorBlocks | lua/lstrlib.c:365-440 | whether an attempt can come to an error depends on the pattern and on which captures are open, not on the text; where one can, none succeeds |
| PatternTheory.Greedy | lua/lstrlib.c:301-313 | the first result uses the largest number of repetitions after which the rest has a result |
| PatternTheory.Lazy | lua/lstrlib.c:316-326 | the first result uses the smallest such number |
| PatternTheory.BalanceIsFirst | lua/lstrlib.c:281-298 | a balanced match is the shortest text in which openings and closings balance |
| PatternMeaning.Find | lua/lstrlib.c:495-535 | the leftmost match, or one at the first start only if the pattern is anchored, is found if and only if there is one; an error is raised only if the pattern describes nothing at any start |
| PatternTheory.MemFind | lua/lstrlib.c:444-463 | the first occurrence, or none |
| Sort.SortArray | lua/ltablib.c:256-264 | for every strict weak order the result is a sorted permutation, and calls nest at most log2 of the length deep |
| Sort.AuxSort | lua/ltablib.c:193-254 | the range is a sorted permutation, nothing else moves, and only the smaller part is recursed on |
| Sort.Partition | lua/ltablib.c:223-243 | the pivot ends where nothing before it is greater and nothing after it less |
| Sort.ScanUp | lua/ltablib.c:225-229 | the upward scan stops inside the range, so its error is never raised |
| Sort.ScanDown | lua/ltablib.c:230-234 | so does the downward scan |
| ChunkIO.DumpAndLoad | lua/lundump.c:195-209 | dumping and loading gives back the prototype tree for every way the bytes are cut into blocks |
| ChunkFormat.ChunkBack | lua/ldump.c:153-164 | a whole chunk is read back, a stripped one without sources and debug data |
| ChunkFormat.FnBack | lua/ldump.c:129-141 | so is each prototype, with a source shared with its parent restored, and what follows is left unread |
| ChunkFormat.SourceBack | lua/ldump.c:129-131 | the source written only if it differs from the parent's comes back |
| ChunkFormat.StrippedAccepted | lua/lundump.c:161-181 | the checker accepts stripped code too |
| ChunkFormat.DebugBack | lua/ldump.c:111-127 | debug data is read back |
| ChunkFormat.ConstsBack | lua/ldump.c:80-109 | constants are read back |
| ChunkFormat.StrBack | lua/ldump.c:61-74 | strings are read back, a missing one apart from an empty one |
| ChunkMeaning.SaveAndLoad | lua/ldump.c:153-164 | a tree of functions that only return, with any constants and debug data that fit, flags 0, 2, 3 or 7 and parameters that fit the stack, is dumped and loaded back, whole or stripped, if the writer never fails |
| ChunkMeaning.OnlyReturnsIsWellFormed | lua/lundump.c:161-181 | these functions can be stored, the limits of all fields being numbers |
| ChunkMeaning.ViewFlags | lua/lobject.h:257-259 | the three low bits of the flags are what the checker sees as parameter `arg`, `...` and the need for `arg` |
| ChunkMeaning.ViewParts | lua/lobject.h:230-255 | the other things that the checker sees |
| ChunkMeaning.SampleIsWritten | lua/ldump.c:129-164 | the bytes of a chunk with header, constants of each kind and all debug data, as literals |
| ChunkMeaning.SampleIsRead | lua/lundump.c:161-209 | the loader reads these bytes as that function |
| ChunkIO.DumpState.DumpFunction | lua/ldump.c:129-141 | the dumper writes the bytes of the format, until the writer fails |
| ChunkIO.DumpState.DumpConstants | lua/ldump.c:80-109 | so for constants |
| ChunkIO.DumpState.DumpDebugData | lua/ldump.c:111-127 | so for debug data |
| ChunkIO.DumpState.DumpString | lua/ldump.c:61-74 | so for strings |
| ChunkIO.DumpState.Dump | lua/ldump.c:153-164 | a dump that succeeds has written the whole chunk |
| ChunkIO.LoadFunction | lua/lundump.c:161-181 | the loader returns what the format says, its failures included |
| ChunkIO.LoadConstants | lua/lundump.c:100-135 | so for constants, null strings included |
| ChunkIO.LoadDebug | lua/lundump.c:137-159 | so for debug data |
| ChunkIO.LoadString | lua/lundump.c:76-88 | so for strings |
| ChunkIO.Undump | lua/lundump.c:195-209 | so for a whole chunk, with its header |
| ChunkIO.Zio.Fill | lua/lzio.c:21-32 | the next byte, or the end of the stream, at which the buffer stays as it is |
| ChunkIO.Zio.GetC | lua/lzio.h:22-22 | the next byte, or the end of the stream, at which the count of unread bytes wraps around |
| ChunkIO.Zio.Lookahead | lua/lzio.c:35-45 | the next byte, which stays in the stream |
| ChunkIO.Zio.Read | lua/lzio.c:58-71 | the next bytes however they are spread over blocks; nothing is missing exactly if the stream has enough |
| Quoting.AddQuoted | lua/lstrlib.c:696-723 | the loop writes the quoted form of the string |
| Quoting.LiteralBack | lua/llex.c:278-331 | reading the quoted form of any byte string gives back the string and counts its lines |
| Quoting.LexState.ReadString | lua/llex.c:278-331 | the lexer reads what the text says, its errors included, however the reader cuts it |
| Quoting.LexState.IncLineNumber | lua/llex.c:129-137 | a newline pair counts as one line |
| Quoting.QuoteAndRead | lua/lstrlib.c:696-723 | quoting and reading is the identity on byte strings |
| StringMeaning.LiteralMeans | lua/llex.c:278-331 | a literal is read as a string exactly if the text up to the delimiter spells it: plain characters, letter escapes with their control characters, up to three digits with their decimal value, and ends of lines |
| StringMeaning.MalformedMeans | lua/llex.c:278-331 | it is malformed exactly if after some characters the text ends, a line ends, a decimal escape is above 255 or there are too many lines |
| StringMeaning.ScanMeans | lua/llex.c:309-319 | up to three digits are read as their decimal value |
| StringMeaning.EscapeMeans | lua/llex.c:295-302 | which letters are escapes, and of which characters |
| StringMeaning.QuotedMeans | lua/lstrlib.c:696-723 | each character is quoted by itself, in one of three ways or as it is |
| Window.BlitOverlays | rom/apis/window.lua:114-172 | in all cases of clipping the new line is the pointwise overlay of the visible text on the old line |
| Window.WindowBuffer.InternalBlit | rom/apis/window.lua:114-183 | the text and both colours are laid over the line of the cursor, no other line changes, the cursor moves behind the text, and lines that have the width of the window keep it |
| Window.WindowBuffer.Write | rom/apis/window.lua:188-191 | the same with the current colours |
| Window.WindowBuffer.Blit | rom/apis/window.lua:193-201 | the same with given colours, refused exactly if lengths differ |
| Window.WindowBuffer.constructor | rom/apis/window.lua:46-74 | every line of a new window shows spaces in white on black, and its lines have its width if and only if that is not negative or there is no line |
| Window.Blank | rom/apis/window.lua:46-74 | a blank line has spaces, and in its two other strings the colour of the text and that of the background |
| Window.WindowBuffer.Clear | rom/apis/window.lua:203-219 | every line shows spaces in the current colours and has the width of the window if and only if that is not negative |
| Window.WindowBuffer.ClearLine | rom/apis/window.lua:221-237 | only the line of the cursor changes, to spaces in the current colours |
| Window.WindowBuffer.Scroll | rom/apis/window.lua:348-374 | line y shows what line y + n showed, or spaces in the current colours |
| Window.WindowBuffer.Reposition | rom/apis/window.lua:425-468 | with both sizes given, and for a window whose lines had its width, all lines have exactly the new width if and only if it is not negative or there is no line; with one size missing only the position changes |
| Window.Run | rom/apis/window.lua:46-468 | in every sequence of operations with integer coordinates, all lines have exactly the width of the window at the start and after each operation if and only if neither the start nor an operation gives a negative width to a window with lines |
| Window.Apply | rom/apis/window.lua:188-468 | each operation keeps the width of the lines if and only if it is such a one |
| Window.ResizedOk | rom/apis/window.lua:438-459 | a line gets the new width if and only if that is not negative, and then keeps its beginning and is blank beyond; with a negative width as many characters less one go from its end |
| Window.NegativeWidth | rom/apis/window.lua:425-459 | a run: a window of width 3 that is given width -1 keeps a line of 3 characters |
| Window.WidthAfterNegative | rom/apis/window.lua:425-459 | a run: given width 5 after that, it has a line of 8 characters |
| Events.EventLoop.GetNextEvent | os.cpp:122-168 | the delivered event is the first that passes the filter, with its own arguments; only rejected events are dropped, the order is kept, and names and arguments stay as many |
| Events.EventLoop.QueueEvent | os.cpp:183-190 | the event waits behind all others with its arguments |
| Events.EventLoop.TimerEvent | os.cpp:197-200 | the timer waits behind all others |
| Events.EventLoop.Receive | os.cpp:126-148 | keys, characters and timers become events in this order |
| Events.EventLoop.FlushTimers | os.cpp:142-147 | every timer becomes an event, in order |
| Keys.PressAndRelease | os.cpp:107-140 | press and release of a key are events `key` and `key_up` of the same number, and a character comes after the press |
| Keys.NumbersDiffer | os.cpp:116-120 | different keys have different numbers, above 127 exactly for extended keys |
| Keys.LongIs197 | os.cpp:112-118 | what sends three bytes has the number 197 of the pause key only if its second byte is 0xE0, because the code is put together with another prefix than the one that is looked for |
| Keys.PauseIsNumLock | os.cpp:112-118 | so the pause key has the number of the number lock |
| Keys.InOrder | os.cpp:122-148 | what an arrival comes to is before what later arrivals come to, keys before timers |
| Events.LinkedQueue.Push | queue.c:24-31 | the value is appended to the contents of the linked nodes |
| Events.LinkedQueue.Pop | queue.c:33-39 | the first value leaves; popping an empty queue does nothing |
| Events.LinkedQueue.Size | queue.c:8-12 | the number of values |
| Events.LinkedQueue.Front | queue.c:14-17 | the first value, if any |
| Events.LinkedQueue.Back | queue.c:19-22 | the last value, if any |
| Events.LinkedQueue.Empty | queue.c:4-6 | true if and only if there is no value |
| Fat.Read | includeos-patch/fat_sync.cpp:29-54 | the bytes of the chain that starts at the first cluster plus the number of skipped clusters, as many as asked for; exactly bytes pos to min(pos + n, size) of the file if the read starts in the cluster that holds pos; no result exactly if the 64-bit sum wraps around and falls short of the start |
| Fat.ReadIsExact | includeos-patch/fat_sync.cpp:29-54 | for clusters above 2, a read is exact for all contents of the disk if and only if it is empty or starts in the cluster that holds its first byte |
| Fat.WrongStart | includeos-patch/fat_sync.cpp:43-43 | a read that starts in the wrong cluster gets a wrong byte, for some contents of a disk with the same layout |
| Fat.FragmentedRead | includeos-patch/fat_sync.cpp:43-43 | a run: a read past the first cluster of a fragmented file gets the byte of another cluster |
| Fat.Fat12Entries | includeos-patch/fat.hpp:84-92 | FAT12 links are decoded as the packed 12-bit entries |
| FatMeaning.Fat16Entries | includeos-patch/fat.hpp:84-92 | FAT16 links are decoded as 16-bit entries, the low byte first |
| FatMeaning.Fat32Entries | includeos-patch/fat.hpp:84-92 | FAT32 links are decoded as 32-bit entries, the low byte first |
| FatMeaning.ChainByte | includeos-patch/fat.hpp:76-82 | in which sector of the disk each byte of a chain of clusters is, and where in it |
| FatMeaning.FileByte | includeos-patch/fat_sync.cpp:29-54 | where each of the bytes of a file that an exact read gives is on the disk |

## Left out

- Compile.CompileReturn: expressions with arithmetic, concatenation, calls, tables, globals and upvalues are not compiled; the limits on registers, jump distance and constants are not modelled, so their errors do not occur.
- ExpMeaning.StrLessIsPrecedes: strings are compared character by character, as in the C locale.
- CodeGen.FuncState.SimpleExp: of the alternatives of `simpleexp` only constants and local variables are there.
- CodeGen.FuncState.SubExpr: it takes the expression as a tree; which tree the tokens give is the subject of `Precedence`.
- Bytecode.SetNilsGet: instructions are datatype values; their packing into 32 bits appears only in `Checker`.
- Precedence.LexState.ReadSubExpr: operands other than parenthesised expressions are single tokens, and the limit on nested C calls is not modelled.
- Numbers are reals in the code generator and opaque 64-bit patterns in chunks; NaN appears only as a table key; metamethods are nowhere called.
- Table.Table.Put: after the error "table overflow" nothing is said about the table; array parts above 2^26 slots, which only `luaH_resizearray` with a larger argument could make, are not modelled.
- Table.Table.Resize: the array part is reallocated before, not after, the elements of its vanishing slice are re-inserted from the old vector; memory errors are not modelled.
- Table.Table.Find: strings are compared by content and hash functions are arbitrary; pointer identity of interned strings is not modelled.
- Collector.Global.SingleStep: userdata, finalizers, prototypes as separate objects, the cost estimates and thresholds that decide when a step is due, and the resizing of the string table and of stacks are not modelled.
- Collector.Global.TraverseTable: whether a table is weak is a field of the table that may change at any time, instead of a string looked up in the metatable; arrays are marked in ascending order.
- Mutator.Resume: the running thread may be any thread; call frames and error handling are not modelled.
- Checker.SymbExec: its use for error messages, tracing which instruction set a register, has no postcondition.
- CheckerMeaning.RunInRange: what values the registers hold, and so the types that instructions find, is not modelled; nothing is said of an instruction that takes values up to the top of the stack when none was left there.
- Matcher.MatchState.Match: character classes are those of the C locale; the C stack is unbounded; substitution (`gsub`) and iteration (`gmatch`) are not modelled.
- PatternMeaning.Find: the start is already normalised to lie inside the subject, and the choice of a plain search is made by the caller.
- Sort.SortArray: the table is an array and the order function a pure function; nothing is said of order functions that are not strict weak orders.
- ChunkFormat.ChunkBack: sizes are those of a 32-bit little-endian machine with 8-byte numbers; chunks of other machines are only refused by their header.
- Quoting.LexState.ReadString: the other tokens of the lexer and the limit on token length are not modelled.
- Quoting.QuoteAndRead: the text must stay below the limit on lines, which the lexer enforces.
- Window.WindowBuffer.Reposition: drawing on the parent terminal, palettes and visibility are not modelled, and coordinates and sizes are integers.
- ChunkIO.Zio.GetC: it may not be called again after the end of the stream, where the original would read outside its buffer; blocks are shorter than the largest `size_t`.
- Events.EventLoop.GetNextEvent: stack space and a thread for each event are taken for granted, so the early returns that leave the queues misaligned do not occur; waiting for hardware is a finite sequence of arrivals.
- Keys.PressAndRelease: which character a key stands for is a parameter, and a key whose bytes are cut short by a timer is not modelled.
- Fat.Read: sector size and block size are equal, and the device can read the clusters that the read goes to.
- Fat.ReadIsExact: the two clusters that it compares are not among those numbered up to 2, which all stand for the root directory.
- Directory listing, its cache and path resolution of the file system are not modelled.
- Terminal drawing, redstone stubs, file system wrappers, the remaining Lua libraries and the ROM programs are not modelled.
