# memory_visualizer core, modelled in Dafny

memory_visualizer is a teaching tool. It reads a small C++-like script,
runs it line by line against a simulated memory, and draws the memory.
This project models the two parts that decide what the memory holds:

- **MemoryManager** keeps a registry of memory blocks, a bounded event log,
  the next block id and the stack depth. It creates stack variables and
  objects, allocates heap blocks, frees them, links pointers, copies shared
  pointers, moves unique pointers, retires stack slots at a scope exit and
  reports leaks.
- **ScriptParser** interprets the script. It removes comments, trims and
  tokenizes each line, then routes the line to a handler. There are handlers
  for class bodies, `main`, braces, declarations, `new`, `delete`, smart
  pointers and assignments. Each handler drives the manager and keeps the
  parser's own tables: variable name to block id, and class name to layout.

Every operation is a pure function from a state to the next state, plus the
value the C++ member function returns. The parser works on a `Session`,
which pairs its own fields with the manager it drives.

Files (one module each):

- `common.dfy`: `Option`.
- `memory_block.dfy`: the entities of MemoryBlock.h.
- `memory_manager.dfy`: MemoryManager.cpp.
- `script_text.dfy`: the string helpers of ScriptParser.cpp.
- `script_parser.dfy`: the handlers and the script loop of ScriptParser.cpp.
- `manager_properties.dfy`: properties of the manager that span several calls.
- `parser_properties.dfy`: properties of the parser that span several calls.
- `scenarios.dfy`: particular script lines whose treatment follows from the
  code as written.

Conventions that hold across the model:

- `None` stands for nullptr, `npos` and `-1`.
- `NULL_ID` (-1) in `pointsTo` means a null pointer.
- Sizes are those of an LP64 target: int 4, long 8, pointer 8.
- The invariant `MemoryManager.Valid` says:
  - ids are positive, below `nextId` and strictly increasing;
  - reference counts are never negative;
  - the stack depth is never negative;
  - the log holds at most 100 entries.
- The invariant `ScriptParser.SessionValid` adds:
  - every variable names a registered block;
  - every class layout is well formed;
  - no layout records a destructor;
  - the scope depth is never negative.

## Model

| member | source | states |
|---|---|---|
| MemoryBlock.DefaultBlock | MemoryBlock.h:64-71 | A default block has id -1, is not live, is not a pointer, points nowhere, owns nothing and describes no object |
| MemoryBlock.DefaultClassInfo | MemoryBlock.h:31-34 | A default layout has no members, total size 0, and no constructor or destructor; it is well formed |
| MemoryManager.Reset | MemoryManager.cpp:343-349 | After reset the registry and the log are empty, the next id is 1, the depth is 0, and the state is valid |
| MemoryManager.AddEvent | MemoryManager.cpp:369-376 | The new entry is last. Below the bound the log just grows. A bounded log stays within 100 entries, and the result is always the newest suffix of old log plus entry, so only the oldest entry is ever dropped |
| MemoryManager.FindIndexFrom | MemoryManager.cpp:324-331 | findBlock returns the first block in registry order with the id, or none when no block has it |
| MemoryManager.FindIndexAppend | MemoryManager.cpp:324-331 | Appending a block never moves an existing id, and a new id is found at the end |
| MemoryManager.CreateStackVariable | MemoryManager.cpp:13-36 | Returns the old next id and pushes a live, plain stack block of that name and size. The depth grows by one and an Allocated event is logged. On a valid state the result is valid and the id was unused |
| MemoryManager.CreateClassObject | MemoryManager.cpp:39-68 | A null layout returns -1 and changes nothing. Otherwise pushes a live stack object of the layout's total size, deepens the stack and logs Constructed |
| MemoryManager.AllocateHeap | MemoryManager.cpp:71-105 | Pushes a live non-pointer block. Its storage class is Heap exactly for raw and SmartPtr otherwise. Its count is 1 exactly when shared, 0 otherwise. The stack is untouched and Allocated is logged |
| MemoryManager.AllocateClassObject | MemoryManager.cpp:108-148 | As AllocateHeap, with the layout's size and class. A null layout returns -1, changes nothing and uses up no id |
| MemoryManager.Deallocate | MemoryManager.cpp:151-175 | Succeeds iff the id names a live block. Failure changes nothing. A shared block with several owners only loses one owner. Any other block dies, every pointer at it becomes null and nothing else changes. Block identities are kept and validity is preserved |
| MemoryManager.DecreaseRefCount | MemoryManager.cpp:379-392 | Unknown ids and counts <= 0 change nothing. Otherwise the count drops by one and Assigned is logged. A live block whose count reaches zero is then freed exactly as Deallocate frees it. Counts never go negative |
| MemoryManager.AssignAt | MemoryManager.cpp:184-204 | A shared pointer first releases its old target. Then the pointer takes the new target, which gains one owner exactly when the pointer is shared and the target is registered. Liveness is otherwise kept and Assigned is logged |
| MemoryManager.AssignPointer | MemoryManager.cpp:178-207 | Succeeds iff the pointer id is registered; an unknown id changes nothing. A raw or unique pointer may be bound to any id, registered or not. Block identities and validity are kept |
| MemoryManager.NewSharedCopy | MemoryManager.cpp:216-246 | The copy is a new live shared stack pointer of pointer size at the same target. The target, looked up after the push, gains one owner, and Copied is logged exactly when that lookup succeeds. Every other old block is unchanged |
| MemoryManager.CopySharedPtr | MemoryManager.cpp:210-247 | Anything but a registered shared pointer returns -1 and changes nothing. Otherwise the effect is NewSharedCopy of the source's target. Validity is preserved |
| MemoryManager.MoveAt | MemoryManager.cpp:260-267 | The target takes over the source's pointee and the source becomes null. No count and no liveness changes, blocks other than the two are unchanged, and Moved is logged |
| MemoryManager.MoveUniquePtr | MemoryManager.cpp:250-268 | Succeeds iff both ids are registered unique pointers. Failure changes nothing; success has MoveAt's effect |
| MemoryManager.LastLiveStack | MemoryManager.cpp:274-276 | The reverse search finds the last live stack block, or none when there is no live stack block |
| MemoryManager.EndScope | MemoryManager.cpp:271-295 | At depth 0, or with no live stack block, nothing changes. Otherwise that last block dies and the depth drops by one. A block that owns nothing leaves every other block alone, so pointers at it dangle. A unique owner frees its pointee; a shared owner gives up one owner |
| MemoryManager.EndScopeValid | MemoryManager.cpp:271-295 | A scope exit preserves the manager invariant and keeps every registered id in place |
| MemoryManager.HasLivePointer | MemoryManager.cpp:306-312 | True iff some live pointer block targets the id |
| MemoryManager.DetectLeaks | MemoryManager.cpp:298-321 | Returns, in registry order, the ids of the reference definition LeakIds: live heap-kind raw blocks that no live pointer targets |
| ManagerProperties.LeakIdsMembership | MemoryManager.cpp:301-316 | An id is reported iff some block carrying it is a leak |
| ManagerProperties.LeakReportExact | MemoryManager.cpp:298-321 | In a valid registry a block's id is reported iff that block is a leak |
| ManagerProperties.LeaksAreUnreachableRaw | MemoryManager.cpp:303-315 | A reported id belongs to a live raw heap-kind block that no live pointer targets; smart and stack blocks are never reported |
| ManagerProperties.DeallocateLeavesNoPointer | MemoryManager.cpp:163-172 | Freeing a live block not held by several shared owners kills it and leaves no live pointer aimed at it |
| ManagerProperties.DeallocateSharedKeepsBlock | MemoryManager.cpp:157-161 | A shared block with several owners stays live and has one owner fewer |
| ManagerProperties.EndScopeLeavesDangling | MemoryManager.cpp:275-292 | Retiring a block that owns nothing leaves other pointers at it aimed at a dead block |
| ManagerProperties.FindOwnId | MemoryManager.cpp:324-331 | In a valid registry findBlock returns each block for its own id |
| ManagerProperties.CreatedIdIsFresh | MemoryManager.cpp:13-36 | A created id was unused, and every earlier id is still found where it was |
| ManagerProperties.DeallocateStaysDead | MemoryManager.cpp:151-175 | deallocate never revives a dead block |
| ManagerProperties.DecreaseRefCountStaysDead | MemoryManager.cpp:379-392 | decreaseRefCount never revives a dead block |
| ManagerProperties.EndScopeStaysDead | MemoryManager.cpp:271-295 | endScope never revives a dead block, whatever its cascade frees |
| ManagerProperties.AssignPointerStaysDead | MemoryManager.cpp:178-207 | assignPointer never revives a dead block, even when releasing the old target frees it |
| ManagerProperties.SelfMoveNulls | MemoryManager.cpp:250-268 | Moving a unique pointer onto itself succeeds and leaves the pointer null |
| ScriptText.FindFrom | ScriptParser.cpp:60-61 | `find`: the first occurrence at or after the start, or none when there is no occurrence |
| ScriptText.StartsWithIsPrefix | ScriptParser.cpp:40 | `find(p) == 0` holds iff p is a prefix |
| ScriptText.Trim | ScriptParser.cpp:683-689 | trim removes exactly the leading and trailing runs of space, tab, CR and LF. The result is empty iff the text is all such characters; otherwise it starts and ends with another character |
| ScriptText.TrimIdempotent | ScriptParser.cpp:683-689 | Trimming twice is trimming once |
| ScriptText.Tokenize | ScriptParser.cpp:692-702 | Every token is non-empty and holds no whitespace character of the C `isspace` set |
| ScriptText.TokenizeJoinWords | ScriptParser.cpp:692-702 | Tokenizing words joined by single blanks gives back the words |
| ScriptText.RemoveComments | ScriptParser.cpp:663-680 | A line with neither comment marker is returned unchanged |
| ScriptText.CutLineComment | ScriptParser.cpp:667-670 | The result is the line cut just before its first "//": a prefix of the line, with "//" at the cut and nowhere before it. A line with no "//" is kept whole |
| ScriptText.RemoveCommentsLeavesNoLineComment | ScriptParser.cpp:663-680 | No "//" survives comment removal, including after a block comment is spliced out |
| ScriptText.SplitLines | ScriptParser.cpp:650-660 | No line holds a newline, and a non-empty text gives at least one line |
| ScriptText.SplitLinesJoin | ScriptParser.cpp:650-660 | Joining the lines with newlines restores the text, up to the one trailing newline getline drops |
| ScriptText.NatToStringRoundTrip | ScriptParser.cpp:25 | The printed line number reads back as the number |
| ScriptParser.ResetParser | ScriptParser.cpp:770-778 | reset empties both tables and the error text, sets depth 0 and clears both flags |
| ScriptParser.FreshSessionValid | ScriptParser.cpp:6-9 | A freshly constructed parser and manager satisfy the session invariant |
| ScriptParser.GetPointerType | ScriptParser.cpp:723-731 | Unique iff the type mentions unique_ptr; Shared iff it mentions shared_ptr but not unique_ptr; Raw otherwise |
| ScriptParser.GetTypeSize | ScriptParser.cpp:734-743 | The size of the first keyword in table order that occurs in the type text; sizeof(int) when none occurs |
| ScriptParser.StripSemicolon | ScriptParser.cpp:292-295 | Exactly one trailing semicolon is dropped, and nothing else changes |
| ScriptParser.DeclName | ScriptParser.cpp:292-301 | The name without semicolon, and without the star when it was starred |
| ScriptParser.GetVariableIdSound | ScriptParser.cpp:758-761 | In a valid session the answer is not -1 exactly when the name is bound, and a bound name's id is one findBlock finds |
| ScriptParser.GetClassInfoSound | ScriptParser.cpp:764-767 | In a valid session every layout returned is well formed (its total is the sum of its member sizes) and records no destructor |
| ScriptParser.ParseClassDeclaration | ScriptParser.cpp:150-175 | Fails iff there is no second token. Otherwise the named class gets a fresh empty layout and becomes current, and a class body begins. Other classes, the variables and memory are untouched |
| ScriptParser.ParseClassMember | ScriptParser.cpp:178-222 | Never fails and never touches memory or other classes. A line containing `C()` only sets the constructor flag. A basic or known-class member appends name, type and size and adds to the total. Any other line changes nothing. The destructor flag is never raised |
| ScriptParser.ParseClassMemberValid | ScriptParser.cpp:178-222 | Member lines keep every layout well formed and destructor-free |
| ScriptParser.ParseClassEnd | ScriptParser.cpp:225-229 | The class body ends and the current class name is cleared; nothing else changes |
| ScriptParser.ParseFunctionStart | ScriptParser.cpp:232-242 | A function body starts, at depth 1 when the header holds `{` and at depth 0 otherwise |
| ScriptParser.ParseScopeStart | ScriptParser.cpp:259-262 | The depth grows by one; nothing else changes |
| ScriptParser.ParseScopeEnd | ScriptParser.cpp:265-279 | Fails iff the depth is 0, changing only the error. Otherwise the depth drops, the manager runs one endScope, and the function body ends on reaching depth 0 |
| ScriptParser.ParseDeclaration | ScriptParser.cpp:282-323 | Fails iff there is no second token. Otherwise exactly one stack block is created and the cleaned name is bound to it. It is a null raw pointer of pointer size when the type is a pointer type or the name is starred, and otherwise a value of the type's size |
| ScriptParser.ParseDeclarationWithInit | ScriptParser.cpp:326-348 | Declares the text before the first '=', closed by a semicolon, and ignores the value. With no '=' it is a plain declaration |
| ScriptParser.DeclareObject | ScriptParser.cpp:378-399 | Binds the cleaned name to the next id, creating one stack block and deepening the stack by one |
| ScriptParser.DeclareObjectBlock | ScriptParser.cpp:378-399 | The new block is a live stack block of the class. It is a pointer of pointer size iff the name is starred, and otherwise an object of the class's current size. Older blocks are untouched |
| ScriptParser.ObjectNameIsDeclName | ScriptParser.cpp:361-370 | Removing the star then the semicolon gives the same name and star verdict as the other order used in parseDeclaration |
| ScriptParser.ParseObjectDeclaration | ScriptParser.cpp:351-400 | Succeeds iff there are two tokens and the first names a known class, with a distinct message for each failure. Success declares the object |
| ScriptParser.ParseNew | ScriptParser.cpp:403-465 | Fails, in order: without '=' or "new ", on an unknown name before '=', on a non-pointer. Failures leave memory alone. Success pushes a raw heap block, named after the type and sized by it or its class, and points the variable at it |
| ScriptParser.ParseDelete | ScriptParser.cpp:468-503 | Fails, in order: without a name, on an unknown name, on a non-pointer, on a null pointer. Failures leave memory alone. Success nulls the pointer, and a raw or unique pointer's live pointee held by at most one owner dies |
| ScriptParser.NameAfterAngle | ScriptParser.cpp:517-524 | The first token after the type holding '>' with a token after it, or none |
| ScriptParser.ParseSmartPtr | ScriptParser.cpp:506-579 | Fails with fewer than two tokens or without a usable name. Otherwise binds the name to a new null stack pointer of the type's discipline. On a make_unique/make_shared line with `<T>`, a pointee of that discipline is pushed next and bound; a shared pointee ends with two owners |
| ScriptParser.AssignEffect | ScriptParser.cpp:611-646 | A null literal nulls a pointer and leaves a value alone. Shared to shared makes the left name a fresh copy. Unique to unique with std::move transfers the pointee. Other pointer pairs take the right pointer's target. Anything else changes nothing |
| ScriptParser.ParseAssignment | ScriptParser.cpp:582-647 | Without '=' it fails with no message. An unknown left name, or one whose block is gone, fails with its message. Otherwise it succeeds with AssignEffect's effect, keeping ids and the session invariant |
| ScriptParser.ExecuteLine | ScriptParser.cpp:34-147 | A blank line succeeds unchanged. No line loses a registered id, a successful line keeps the error text, and a valid session stays valid |
| ScriptParser.RunLines | ScriptParser.cpp:18-30 | A failed run's error text starts with "Line n: " for a line n of the run. That n is the first failing line, followed by its own message, by `ParserProperties.FirstFailureReported` |
| ScriptParser.RunLinesSound | ScriptParser.cpp:15-31 | With a handler that keeps ids, error text and validity, the whole run keeps them |
| ScriptParser.ExecuteScript | ScriptParser.cpp:15-31 | A failed script reports a one-based line number of the script. A successful one keeps the error text, and a valid session stays valid. The line reported is the first failing one, by `ParserProperties.ScriptReportsFirstFailure` |
| ParserProperties.CleanedNameIsToken | ScriptParser.cpp:289-301 | Removing a semicolon or a star keeps a token free of whitespace |
| ParserProperties.DeclarationKeepsNames | ScriptParser.cpp:282-323 | Declarations bind only names free of whitespace |
| ParserProperties.ObjectDeclarationKeepsNames | ScriptParser.cpp:351-400 | Object declarations bind only names free of whitespace |
| ParserProperties.SmartPtrKeepsNames | ScriptParser.cpp:506-579 | Smart-pointer declarations bind only names free of whitespace |
| ParserProperties.AssignmentKeepsNames | ScriptParser.cpp:582-647 | An assignment only rebinds a name already bound |
| ParserProperties.ExecuteLineKeepsNames | ScriptParser.cpp:34-147 | No line ever binds a name holding whitespace |
| ParserProperties.ClassBodyKeepsMemory | ScriptParser.cpp:44-57 | No line inside a class body touches memory |
| ParserProperties.OutsideFunctionIgnored | ScriptParser.cpp:80-83 | Outside a function, a line that is not a header, return or brace succeeds and changes nothing |
| ParserProperties.SmartPointerRoutedFirst | ScriptParser.cpp:110-116 | In a function body, a line naming a smart-pointer type or factory goes to parseSmartPtr before any '=' is examined, unless it is a delete or `= new` line |
| ParserProperties.DestructorLineMarksConstructor | ScriptParser.cpp:180-187 | A class-body line mentioning `~C()` sets the constructor flag of C, because it also contains `C()` |
| ParserProperties.OpenBraceLine | ScriptParser.cpp:70-73 | Outside a class body a `{` line is parseScopeStart |
| ParserProperties.CloseBraceLine | ScriptParser.cpp:75-78 | Outside a class body a `}` line is parseScopeEnd |
| ParserProperties.BracePairRestoresDepth | ScriptParser.cpp:259-279 | `{` then `}` succeed, restore the depth and retire exactly one stack block through endScope |
| ParserProperties.FailureIgnoresRest | ScriptParser.cpp:24-27 | Lines after a failing line never run |
| ParserProperties.SuccessComposes | ScriptParser.cpp:18-30 | Running a then b is running b from the state a successful run of a leaves |
| ParserProperties.FirstFailureReported | ScriptParser.cpp:18-30 | When lines a succeed and the next line fails, the run stops there. Its error is "Line n: " with n one more than the number of lines in a, followed by that line's own message, in the state that line left |
| ParserProperties.ScriptReportsFirstFailure | ScriptParser.cpp:15-31 | A script reports its first failing cleaned line, by one-based number, followed by that line's own message |
| ParserProperties.BlankLinesSkipped | ScriptParser.cpp:22 | Blank lines are skipped without effect |
| ParserProperties.CommentOnlyScript | ScriptParser.cpp:15-31 | A script of blank and comment-only lines succeeds and changes nothing |
| Scenarios.StarredNotBasic | ScriptParser.cpp:705-709 | No basic type name holds a star |
| Scenarios.StarredNewDeclarationFails | ScriptParser.cpp:90-107 | A `= new` line whose first token holds a star and whose text before '=' holds a blank fails as an undefined variable, and memory is untouched |
| Scenarios.StarredNewLineFails | ScriptParser.cpp:90-107 | In particular `int* ptr = new int;` fails with "Undefined variable: int* ptr" |
| Scenarios.DeclaredNewLineFails | ScriptParser.cpp:90-107 | A `= new` line whose first token is a basic or class type, and whose text before '=' holds a blank, fails as an undefined variable after its declaration has run |
| Scenarios.StarredNameNewLineFails | ScriptParser.cpp:90-107 | In particular `int *p = new int;` declares `p` and then fails with "Undefined variable: int *p" |
| Scenarios.AssignFromExpressionIsNoOp | ScriptParser.cpp:611-646 | A right side that is neither a variable nor a null literal makes the assignment succeed with no effect |
| Scenarios.StdMoveIsNoOp | ScriptParser.cpp:619-646 | `p2 = std::move(p1);` changes nothing, because `std::move(p1)` is not a variable name |
| Scenarios.SmartInitLineFails | ScriptParser.cpp:515-529 | A four-token `T<U> name = init;` line whose name holds no '>' fails with "Cannot extract variable name" |
| Scenarios.LongIntSizedAsInt | ScriptParser.cpp:734-743 | `long int` is sized 4, because "int" is searched first |
| Scenarios.UnknownTypeSize | ScriptParser.cpp:734-743 | A name holding no keyword is sized as int |

## Left out

- Visualizer.cpp, Visualizer.h and main.cpp are not part of this model. They
  cover drawing, input and the window.
- Synthetic addresses, screen positions, animation targets, highlight and
  expansion flags, block lifetimes, `currentTime` and `update` are not
  modelled. They only feed the drawing.
- Event descriptions and timestamps are not modelled. A log entry keeps its
  kind and block id only.
- `getExampleScript` and `getExampleCount` are constant script text and
  carry no logic.
- `parseFunctionEnd` is never called by `executeLine`. `extractTypeName` and
  `extractVariableName` are never called at all.
- `parseReturn` always succeeds with no effect. It is modelled inline in
  `ExecuteLine`.
- A `ClassInfo*` is modelled as the key of its class-table slot. The layout
  read through it is the one the slot holds when the pointer is used.
- `size_t` and `int` are unbounded here. Wrap-around of the id counter or of
  a class's total size is not modelled.
- The C++ `copySharedPtr` re-reads the source block through a pointer taken
  before `push_back`, which may reallocate the registry. The model reads the
  source's target once, before the push, as the code evidently intends.
- String positions count characters here, where `std::string` and `isspace`
  work on bytes. The two agree for scripts written in ASCII.
- `ScriptParser.RunLines` takes the line handler as a parameter. This lets
  its lemmas hold for any handler; `ExecuteScript` passes `ExecuteLine`.
- `ScriptParser.ExecuteLine`: its contract states frame and validity facts
  only. Which handler each kind of line reaches is stated by the lemmas
  `ParserProperties.OutsideFunctionIgnored`, `SmartPointerRoutedFirst`,
  `OpenBraceLine`, `CloseBraceLine` and `ClassBodyKeepsMemory`. It is not
  restated for every branch.
- `ScriptParser.ParseDeclaration`, `ScriptParser.ParseSmartPtr` and
  `ScriptParser.DeclareObjectBlock` describe the new blocks only for a
  registry satisfying `Valid`. The strictly increasing ids are what
  guarantee that findBlock finds the new block at the end.
- `ScriptParser.ParseDelete`: the fate of the pointee is stated only for a
  raw or unique pointer whose live pointee has at most one owner. The shared
  cases follow from `MemoryManager.Deallocate` and `MemoryManager.AssignAt`
  but are not restated.
- `ScriptParser.AssignEffect`: the shared-copy branch is described for a
  valid registry only.
- `ScriptText.Tokenize`: the partner lemma covers words joined by single
  blanks, not every spacing.
- `ScriptText.RemoveComments`: the contract states the comment-free case
  and, through `RemoveCommentsLeavesNoLineComment`, that no line comment
  survives. The exact text left by a block-comment splice is stated only by
  the body.
