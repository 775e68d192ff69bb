# Coroutines debugger agent: a Dafny model of its core

The coroutines debugger agent is a Java agent for Kotlin programs. It rewrites
the bytecode of suspend functions and of their `doResume` state machines so that
they report to a manager. The manager keeps one stack per coroutine and puts
each stack back together from two kinds of event:

- "this suspend function returned with this continuation";
- "this `doResume` was entered for this completion".

From those stacks it answers "which coroutines exist, on which thread, and
where is each one suspended".

This project models that core in Dafny:

- **Instruction scans of the transformer** (module `TransformerUtils`, over the
  instruction model in `Bytecode`). These are: which instruction is the next or
  previous meaningful one; whether a method starts a state machine; which
  suspend function a `doResume` calls; whether a descriptor is a suspend
  descriptor; which source line each call sits on.
- **The manager's data classes** (`CommonDataClasses`): method ids, call
  positions, method calls and their text.
- **One coroutine's stack** (`ManagerStack`, a class with the source's
  fields). Its steps are "suspend function returned", "apply the collected
  frames" and "doResume entered", and a shape invariant is proved to hold
  across all of them. The module also covers how a coroutine context's text
  is read into a name.
- **The stacks manager** (`Registry`): the tables from names, initial
  completions, continuations and threads to stacks; the event handlers; the
  clean-up of collected continuations; and the list of stack-change events.
- **The coroutine dump text** (`CoroutineDump`).
- **The earlier prototype in `mylibrary`**, whose `Utils.kt` the agent's own
  `Utils.kt` repeats:
  - the suspend-function kinds (`SuspendFunctions`);
  - its per-coroutine stack with its pretty printer (`LibraryStack`);
  - the table that pairs each `doResume` with the suspend function it
    implements (`SuspendPairing`).
- **The regular-expression matcher** that the agent's test suite uses on
  stack dumps (`RegexMatcher`).

Small string helpers are specified in `Text`: decimal rendering and parsing,
replacement, split, join and line splitting. The Kotlin exceptions that the
code lets escape (`NullPointerException`, `NoSuchElementException`,
`IllegalArgumentException`, `IndexOutOfBoundsException`) are values in
`Wrappers`, returned as `Result` failures or as an `Outcome`.

Paths in the table below are relative to the repository root.

`src/main/kotlin/agent/Utils.kt` repeats the pairing code of
`mylibrary/Utils.kt` (the tables, `updateDoResumeToSuspendFunctionMap`,
`isDoResume`, `isSuspend`, `continuationVarIndex` and their helpers) with the
same bodies, in a different order: for example `isSuspend` is at lines 131-138
there and at 97-104 in the prototype. Each `SuspendPairing` member therefore
models both files, and the table cites the `mylibrary` lines. The two files
differ in the rest:

- the agent's file adds `methodCallNodeToLabelNode` (lines 92-103), whose body
  is the transformer's; `TransformerUtils.MethodCallNodeToLabelNode` models both;
- it has no `prettyPrint`;
- its text-printing helper is `insertPrint` where the prototype has
  `insertPrintln`;
- it declares its own suspend-function classes (lines 12-20). The prototype
  declares its classes in `mylibrary/src/main/kotlin/mylibrary/DataClasses.kt`
  (lines 11-51), and those are the classes the `SuspendFunctions` module models.

The pairing members follow the prototype's `isSuspend` as it is written.
Section "Findings" shows where that test lets through a method without a
Continuation. The corrected test (`SuspendPairing.IsSuspend`) and the corrected
`continuationVarIndex` (`SuspendPairing.ContinuationVarIndexFixed`) are given
beside them, with what they are meant to state proved.

## Model

| member | source | states |
|---|---|---|
| Bytecode.FirstLineNumber | kotlinx-coroutines-debug-transformer/src/main/kotlin/kotlinx/coroutines/debug/transformer/Utils.kt:197-198 | the result is the smallest line number in the method, and the method really holds a line-number node with that line; it is -1 exactly when there is no line-number node |
| TransformerUtils.IsGetCoroutineSuspended | kotlinx-coroutines-debug-transformer/src/main/kotlin/kotlinx/coroutines/debug/transformer/Utils.kt:24-27 | a definition: a method call named `getCOROUTINE_SUSPENDED` on `IntrinsicsKt` with descriptor ()Ljava/lang/Object;; `StateMachinePrologue` states its part in the prologue |
| TransformerUtils.IsGetLabel | kotlinx-coroutines-debug-transformer/src/main/kotlin/kotlinx/coroutines/debug/transformer/Utils.kt:32-33 | a definition: a GETFIELD of the field `label`; the source's doubled GETFIELD test is listed under "Left out" |
| TransformerUtils.IsAReturn | kotlinx-coroutines-debug-transformer/src/main/kotlin/kotlinx/coroutines/debug/transformer/Utils.kt:35-36 | a definition: the opcode is ARETURN; `LastAReturn` and `CorrespondingSuspendFunctionForDoResume` state the scans built on it |
| TransformerUtils.IsAStore | kotlinx-coroutines-debug-transformer/src/main/kotlin/kotlinx/coroutines/debug/transformer/Utils.kt:60 | a definition: the opcode is ASTORE |
| TransformerUtils.IsALoad | kotlinx-coroutines-debug-transformer/src/main/kotlin/kotlinx/coroutines/debug/transformer/Utils.kt:61-62 | a definition: the opcode is ALOAD and, when an operand is given, the instruction loads that variable |
| TransformerUtils.MeaningfulAtOrAfter | kotlinx-coroutines-debug-transformer/src/main/kotlin/kotlinx/coroutines/debug/transformer/Utils.kt:44-50 | the found position is a meaningful instruction (not a label, line number or frame) at or after the start; no meaningful instruction lies between the start and it, or after the start when none is found |
| TransformerUtils.IsMeaningful | kotlinx-coroutines-debug-transformer/src/main/kotlin/kotlinx/coroutines/debug/transformer/Utils.kt:38-42 | a definition: labels, line numbers and frames are not meaningful, every other instruction is; `MeaningfulAtOrAfter` and `MeaningfulFromComplete` state what the scans built on it find |
| TransformerUtils.MeaningfulAtOrBefore | kotlinx-coroutines-debug-transformer/src/main/kotlin/kotlinx/coroutines/debug/transformer/Utils.kt:52-58 | the mirror image: the nearest meaningful instruction at or before the position, or none at all |
| TransformerUtils.NextMeaningful | kotlinx-coroutines-debug-transformer/src/main/kotlin/kotlinx/coroutines/debug/transformer/Utils.kt:44-50 | the loop that walks `next` finds the first meaningful instruction strictly after the node, or null |
| TransformerUtils.PreviousMeaningful | kotlinx-coroutines-debug-transformer/src/main/kotlin/kotlinx/coroutines/debug/transformer/Utils.kt:52-58 | the loop that walks `previous` finds the last meaningful instruction strictly before the node, or null |
| TransformerUtils.MeaningfulFrom | kotlinx-coroutines-debug-transformer/src/main/kotlin/kotlinx/coroutines/debug/transformer/Utils.kt:38-42 | a reference definition: every listed position is a meaningful instruction at or after the start |
| TransformerUtils.MeaningfulFromComplete | kotlinx-coroutines-debug-transformer/src/main/kotlin/kotlinx/coroutines/debug/transformer/Utils.kt:38-42 | the list is strictly increasing and holds every meaningful position from the start on, so it is the source's filtered instruction list |
| TransformerUtils.NextIsFilterHead | kotlinx-coroutines-debug-transformer/src/main/kotlin/kotlinx/coroutines/debug/transformer/Utils.kt:44-50 | the next meaningful instruction is the head of the filtered list, and stepping past it leaves the tail |
| TransformerUtils.NextMatches | kotlinx-coroutines-debug-transformer/src/main/kotlin/kotlinx/coroutines/debug/transformer/Utils.kt:64-65 | a position is returned only when the instruction there passes the expected test |
| TransformerUtils.NextMatchesOnFilter | kotlinx-coroutines-debug-transformer/src/main/kotlin/kotlinx/coroutines/debug/transformer/Utils.kt:64-65 | `nextMatches` is "the head of the filtered list after the node, if it passes the test" |
| TransformerUtils.StateMachinePrologue | kotlinx-coroutines-debug-transformer/src/main/kotlin/kotlinx/coroutines/debug/transformer/Utils.kt:70-75 | a state machine starts at a node if and only if three things hold: the node reads `COROUTINE_SUSPENDED`, there are at least four meaningful instructions after it, and those four are an ASTORE, an ALOAD, a read of `label` and a table switch, in that order |
| TransformerUtils.IsStateMachineStartsHere | kotlinx-coroutines-debug-transformer/src/main/kotlin/kotlinx/coroutines/debug/transformer/Utils.kt:70-75 | a definition: the node reads `COROUTINE_SUSPENDED` and four chained `nextMatches` steps succeed; `StateMachinePrologue` states what that means on the filtered list |
| TransformerUtils.IsAbstract | kotlinx-coroutines-debug-transformer/src/main/kotlin/kotlinx/coroutines/debug/transformer/Utils.kt:104-105 | a definition: the ACC_ABSTRACT bit of the access flags is set |
| TransformerUtils.IsDoResume | kotlinx-coroutines-debug-transformer/src/main/kotlin/kotlinx/coroutines/debug/transformer/Utils.kt:101-111 | a definition: named `doResume`, arguments exactly (Object, Throwable), Object returned, not abstract; `SuspendPairing.TransformerDoResumeIsConcrete` relates it to the prototype's test |
| TransformerUtils.IsStateMachineForAnonymousSuspendFunction | kotlinx-coroutines-debug-transformer/src/main/kotlin/kotlinx/coroutines/debug/transformer/Utils.kt:77-78 | true exactly for a `doResume` whose first instruction starts the state-machine prologue; an empty instruction list fails with an index error |
| TransformerUtils.LastMeaningful | kotlinx-coroutines-debug-transformer/src/main/kotlin/kotlinx/coroutines/debug/transformer/Utils.kt:80 | an empty list dereferences a null `last`; otherwise the result is the last meaningful instruction, or none when there is no meaningful instruction |
| TransformerUtils.LastAReturn | kotlinx-coroutines-debug-transformer/src/main/kotlin/kotlinx/coroutines/debug/transformer/Utils.kt:82-87 | the backward loop finds the last ARETURN, or none when there is none; it fails exactly on an empty list |
| TransformerUtils.CorrespondingSuspendFunctionForDoResume | kotlinx-coroutines-debug-transformer/src/main/kotlin/kotlinx/coroutines/debug/transformer/Utils.kt:92-99 | a non-`doResume` is an illegal argument and an empty one a null dereference; success holds exactly when the last meaningful instruction is ARETURN and the meaningful one before it is a method call, and the id then names that call with its owner in dotted form |
| TransformerUtils.ContinuationOffsetFromEnd | kotlinx-coroutines-debug-transformer/src/main/kotlin/kotlinx/coroutines/debug/transformer/Utils.kt:169 | a definition: 3 for a name ending in `$default`, 1 otherwise; `IsSuspendPosition` states the positions this gives |
| TransformerUtils.IsSuspend | kotlinx-coroutines-debug-transformer/src/main/kotlin/kotlinx/coroutines/debug/transformer/Utils.kt:171-176 | a definition: the argument at count minus offset exists, is a Continuation, and Object is returned; `IsSuspendPosition` spells it out per kind of name |
| TransformerUtils.IsSuspendPosition | kotlinx-coroutines-debug-transformer/src/main/kotlin/kotlinx/coroutines/debug/transformer/Utils.kt:169-176 | a descriptor is a suspend one if and only if it returns Object and a Continuation argument sits last, or third from last for a `$default` name |
| TransformerUtils.LastLabelBefore | kotlinx-coroutines-debug-transformer/src/main/kotlin/kotlinx/coroutines/debug/transformer/Utils.kt:206-217 | the result is a label before the position with no label between it and the position, or none when no label comes before |
| TransformerUtils.MethodCallNodeToLabelNode | src/main/kotlin/agent/Utils.kt:92-103 | the loop maps exactly the method calls that have a label before them, each to the last such label; the transformer's copy at kotlinx-coroutines-debug-transformer/src/main/kotlin/kotlinx/coroutines/debug/transformer/Utils.kt:206-217 has the same body |
| TransformerUtils.LabelNodeToLineNumberKeys | kotlinx-coroutines-debug-transformer/src/main/kotlin/kotlinx/coroutines/debug/transformer/Utils.kt:219-220 | a label is a key of the map if and only if some line-number node starts at it |
| TransformerUtils.LabelNodeToLineNumber | kotlinx-coroutines-debug-transformer/src/main/kotlin/kotlinx/coroutines/debug/transformer/Utils.kt:219-220 | a definition: the (label, line) pairs of the line-number nodes, in order, put into a map; `LabelNodeToLineNumberKeys` and `LabelNodeToLineNumberLast` state its keys and values |
| TransformerUtils.LabelNodeToLineNumberLast | kotlinx-coroutines-debug-transformer/src/main/kotlin/kotlinx/coroutines/debug/transformer/Utils.kt:219-220 | when several line-number nodes start at one label, the map keeps the line of the last one |
| TransformerUtils.MethodCallLineNumber | kotlinx-coroutines-debug-transformer/src/main/kotlin/kotlinx/coroutines/debug/transformer/Utils.kt:225-229 | every method call with a label before it maps to the line of that label, or to null when the label starts no line |
| CommonDataClasses.Build | kotlinx-coroutines-debug-manager/src/main/kotlin/kotlinx/coroutines/debug/manager/CommonDataClasses.kt:12 | name and descriptor are kept; the owner keeps its length, every '/' becomes '.', every other character is kept, and no '/' is left |
| CommonDataClasses.BuildIdempotent | kotlinx-coroutines-debug-manager/src/main/kotlin/kotlinx/coroutines/debug/manager/CommonDataClasses.kt:12 | building again from an owner that was already built changes nothing |
| CommonDataClasses.MethodIdText | kotlinx-coroutines-debug-manager/src/main/kotlin/kotlinx/coroutines/debug/manager/CommonDataClasses.kt:8 | the text is the owner, '.', the name, ' ' and the descriptor, each at its own offset |
| CommonDataClasses.EqualsTo | kotlinx-coroutines-debug-manager/src/main/kotlin/kotlinx/coroutines/debug/manager/CommonDataClasses.kt:9 | a definition: a method id matches a stack-trace element when the names and the owner and class agree; `EqualsToIgnoresDesc` and `StackTraceElementOf` state its use |
| CommonDataClasses.EqualsToIgnoresDesc | kotlinx-coroutines-debug-manager/src/main/kotlin/kotlinx/coroutines/debug/manager/CommonDataClasses.kt:9 | comparing with a stack-trace element never depends on the descriptor |
| CommonDataClasses.PositionText | kotlinx-coroutines-debug-manager/src/main/kotlin/kotlinx/coroutines/debug/manager/CommonDataClasses.kt:18 | the text is "at ", the file and ':', then the decimal rendering of the line number, which parses back to it |
| CommonDataClasses.MethodCallText | kotlinx-coroutines-debug-manager/src/main/kotlin/kotlinx/coroutines/debug/manager/CommonDataClasses.kt:30 | the text is the callee's name, " from ", the caller's text, a space and the position's text |
| CommonDataClasses.StackTraceElementOf | kotlinx-coroutines-debug-manager/src/main/kotlin/kotlinx/coroutines/debug/manager/CommonDataClasses.kt:29 | the element names the caller, so it compares equal to the caller's id, and carries the call's file and line |
| ManagerStack.SameContext | kotlinx-coroutines-debug-manager/src/main/kotlin/kotlinx/coroutines/debug/manager/CoroutineStack.kt:32 | a definition: two wrapped contexts are equal when their names are; `NameKeyIsContextKey` states why a table keyed by names is the source's table keyed by contexts |
| ManagerStack.NameKeyIsContextKey | kotlinx-coroutines-debug-manager/src/main/kotlin/kotlinx/coroutines/debug/manager/StacksManager.kt:43 | equal contexts find the same entry of a name-keyed table, and storing or removing under one context leaves the entry of every context not equal to it unchanged |
| ManagerStack.StatusText | kotlinx-coroutines-debug-manager/src/main/kotlin/kotlinx/coroutines/debug/manager/CoroutineStack.kt:50-55 | a definition: the status names "Created", "Running" and "Suspended"; `CoroutineDump.InfoText` uses it for the status line |
| ManagerStack.StripBrackets | kotlinx-coroutines-debug-manager/src/main/kotlin/kotlinx/coroutines/debug/manager/CoroutineStack.kt:39 | the first and last characters are dropped; a text shorter than two characters becomes empty |
| ManagerStack.IndexOf | kotlinx-coroutines-debug-manager/src/main/kotlin/kotlinx/coroutines/debug/manager/CoroutineStack.kt:40 | the first occurrence of the character, or -1 exactly when it does not occur |
| ManagerStack.ContextParts | kotlinx-coroutines-debug-manager/src/main/kotlin/kotlinx/coroutines/debug/manager/CoroutineStack.kt:39-43 | a definition: the context text without its brackets, split on ", ", each part read as key(value), made into a map; `ContextPartsOfRendered` states the round trip |
| ManagerStack.BaseName | kotlinx-coroutines-debug-manager/src/main/kotlin/kotlinx/coroutines/debug/manager/CoroutineStack.kt:44 | a definition: the `CoroutineName` entry, or "coroutine" when there is none; `Wrap` states that the name starts with it |
| ManagerStack.Wrap | kotlinx-coroutines-debug-manager/src/main/kotlin/kotlinx/coroutines/debug/manager/CoroutineStack.kt:38-48 | the name starts with the context's `CoroutineName`, or "coroutine" when it has none; it goes on with "#" and the `CoroutineId` when one is present, leaving the counter alone; otherwise it goes on with "$" and the decimal rendering of the counter, which parses back to it, and the counter goes up by one |
| ManagerStack.RenderedElements | kotlinx-coroutines-debug-manager/src/main/kotlin/kotlinx/coroutines/debug/manager/CoroutineStack.kt:40-42 | each context element is shown as key "(" value ")" |
| ManagerStack.ReadRenderedPart | kotlinx-coroutines-debug-manager/src/main/kotlin/kotlinx/coroutines/debug/manager/CoroutineStack.kt:40-42 | reading a part that was written as key(value) gives back the key and the value |
| ManagerStack.ContextPartsOfRendered | kotlinx-coroutines-debug-manager/src/main/kotlin/kotlinx/coroutines/debug/manager/CoroutineStack.kt:39-43 | a round trip: reading a context written as "[k1(v1), k2(v2), ...]" gives back the map of its elements |
| ManagerStack.ToMapKeys | kotlinx-coroutines-debug-manager/src/main/kotlin/kotlinx/coroutines/debug/manager/CoroutineStack.kt:43 | a key is in the map if and only if some element has it |
| ManagerStack.ToMapLastWins | kotlinx-coroutines-debug-manager/src/main/kotlin/kotlinx/coroutines/debug/manager/CoroutineStack.kt:43 | for a repeated key, the map keeps the last element's value |
| ManagerStack.Commit | kotlinx-coroutines-debug-manager/src/main/kotlin/kotlinx/coroutines/debug/manager/CoroutineStack.kt:86-100 | the collected frames go on top of the stack, the collection is emptied, the status becomes suspended and the top completion is the first collected frame's |
| ManagerStack.ClosesFrame | kotlinx-coroutines-debug-manager/src/main/kotlin/kotlinx/coroutines/debug/manager/CoroutineStack.kt:78-79 | a definition: the call comes from the top frame's method, or it is a `doResume` returning into an `invoke`; `AfterSuspendReturn` states that a commit happens exactly then, for the top continuation |
| ManagerStack.AfterSuspendReturn | kotlinx-coroutines-debug-manager/src/main/kotlin/kotlinx/coroutines/debug/manager/CoroutineStack.kt:76-84 | the new frame is appended to the collected frames, with stack and collection taken together; the step commits (true) if and only if the return is for the top continuation and closes the top frame; the step fails with NoSuchElement if and only if it is for the top continuation on an empty stack; otherwise nothing but the collection changes |
| ManagerStack.LastCompletionIndex | kotlinx-coroutines-debug-manager/src/main/kotlin/kotlinx/coroutines/debug/manager/CoroutineStack.kt:119 | the last frame with this completion, or -1 when there is none |
| ManagerStack.AfterDoResume | kotlinx-coroutines-debug-manager/src/main/kotlin/kotlinx/coroutines/debug/manager/CoroutineStack.kt:102-124 | the coroutine becomes running on the given thread; the first resume of an empty stack succeeds if and only if it is the initial completion and then leaves one entry frame, and a wrong completion is an illegal argument; on a non-empty stack it drops exactly the frames up to and including the last one of the resumed continuation and keys the stack by the new completion |
| ManagerStack.WellShaped | kotlinx-coroutines-debug-manager/src/main/kotlin/kotlinx/coroutines/debug/manager/CoroutineStack.kt:58-124 | the shape invariant of a stack: collected frames and all frames above the bottom are keyed by completions, and the bottom frame is the entry frame keyed by a continuation; `SuspendReturnKeepsShape` and `DoResumeKeepsShape` prove every step keeps it |
| ManagerStack.SuspendReturnKeepsShape | kotlinx-coroutines-debug-manager/src/main/kotlin/kotlinx/coroutines/debug/manager/CoroutineStack.kt:76-100 | a suspend return preserves the stack's shape invariant, never shortens the stack and keeps its bottom (entry) frame |
| ManagerStack.DoResumeKeepsShape | kotlinx-coroutines-debug-manager/src/main/kotlin/kotlinx/coroutines/debug/manager/CoroutineStack.kt:102-124 | a doResume preserves the shape invariant and never drops the entry frame of a non-empty stack |
| ManagerStack.DoResumeRemovesResumed | kotlinx-coroutines-debug-manager/src/main/kotlin/kotlinx/coroutines/debug/manager/CoroutineStack.kt:116-121 | after a doResume no frame of the resumed continuation is left on the stack |
| ManagerStack.DropInplace | kotlinx-coroutines-debug-manager/src/main/kotlin/kotlinx/coroutines/debug/manager/CoroutineStack.kt:130-136 | removing the first n elements one at a time leaves the list's suffix from n, all of it when n is not positive, and nothing when n reaches the length |
| ManagerStack.CoroutineStack.constructor | kotlinx-coroutines-debug-manager/src/main/kotlin/kotlinx/coroutines/debug/manager/CoroutineStack.kt:58-69 | a new stack is created on its thread with an empty stack and an empty collection, takes its name from the wrapped context, and satisfies the invariant |
| ManagerStack.CoroutineStack.GetSnapshot | kotlinx-coroutines-debug-manager/src/main/kotlin/kotlinx/coroutines/debug/manager/CoroutineStack.kt:71 | the snapshot carries the name, context, status, thread and the stack's calls in order |
| ManagerStack.CoroutineStack.HandleSuspendFunctionReturn | kotlinx-coroutines-debug-manager/src/main/kotlin/kotlinx/coroutines/debug/manager/CoroutineStack.kt:76-84 | the fields change as AfterSuspendReturn says, the answer is its answer, and the invariant is kept |
| ManagerStack.CoroutineStack.ApplyStack | kotlinx-coroutines-debug-manager/src/main/kotlin/kotlinx/coroutines/debug/manager/CoroutineStack.kt:86-100 | the fields change as Commit says |
| ManagerStack.CoroutineStack.HandleDoResume | kotlinx-coroutines-debug-manager/src/main/kotlin/kotlinx/coroutines/debug/manager/CoroutineStack.kt:102-124 | the fields change as AfterDoResume says, the key is its completion or its failure, and the invariant is kept |
| CoroutineDump.ElementLines | kotlinx-coroutines-debug-manager/src/main/kotlin/kotlinx/coroutines/debug/manager/CoroutineInfo.kt:19 | one line "    at <element>" per stack-trace element, in order |
| CoroutineDump.AppendElements | kotlinx-coroutines-debug-manager/src/main/kotlin/kotlinx/coroutines/debug/manager/CoroutineInfo.kt:19 | the fold over the elements gives each element line, each followed by a newline |
| CoroutineDump.InfoText | kotlinx-coroutines-debug-manager/src/main/kotlin/kotlinx/coroutines/debug/manager/CoroutineInfo.kt:14-20 | the dump is the header line, the status line and the element lines, each ended by a newline |
| CoroutineDump.InfoTextLines | kotlinx-coroutines-debug-manager/src/main/kotlin/kotlinx/coroutines/debug/manager/CoroutineInfo.kt:14-20 | when no part holds a newline, splitting the dump on newlines gives 2 + n lines back, plus the empty tail |
| Registry.FirstIndex | kotlinx-coroutines-debug-manager/src/main/kotlin/kotlinx/coroutines/debug/manager/StacksManager.kt:69 | the position of the first occurrence |
| Registry.RemoveFirst | kotlinx-coroutines-debug-manager/src/main/kotlin/kotlinx/coroutines/debug/manager/StacksManager.kt:69 | `remove` takes out the first occurrence only: the multiset loses one copy, and the list is unchanged when the element is absent |
| Registry.DropLast | kotlinx-coroutines-debug-manager/src/main/kotlin/kotlinx/coroutines/debug/manager/StacksManager.kt:150-153 | the last element is removed; an empty list stays empty |
| Registry.DropLastUndoesPush | kotlinx-coroutines-debug-manager/src/main/kotlin/kotlinx/coroutines/debug/manager/StacksManager.kt:150-153 | removing the last element undoes appending one |
| Registry.PushUnlessLast | kotlinx-coroutines-debug-manager/src/main/kotlin/kotlinx/coroutines/debug/manager/StacksManager.kt:130 | the stack ends up last on the thread's list; the list is left unchanged if and only if the stack was already last |
| Registry.RemoveEverywhere | kotlinx-coroutines-debug-manager/src/main/kotlin/kotlinx/coroutines/debug/manager/StacksManager.kt:69 | every thread keeps its entry, and its list loses one copy of the stack and gains nothing |
| Registry.Cleanup | kotlinx-coroutines-debug-manager/src/main/kotlin/kotlinx/coroutines/debug/manager/StacksManager.kt:66-72 | a collected continuation that keys no stack changes nothing; otherwise its stack leaves every table (by continuation, by name, by initial completion, the ignore set, each thread's list) and nothing else does |
| Registry.CleanupAll | kotlinx-coroutines-debug-manager/src/main/kotlin/kotlinx/coroutines/debug/manager/StacksManager.kt:58-64 | a definition: `Cleanup` of each collected continuation, in the order the queue yields them; `CleanupAllDrains` states its effect and `StacksManager.CleanupOutdatedStacks` is proved equal to it |
| Registry.CleanupAllDrains | kotlinx-coroutines-debug-manager/src/main/kotlin/kotlinx/coroutines/debug/manager/StacksManager.kt:58-64 | after the clean-up no collected continuation keys a stack, and every table only shrank |
| Registry.CleanupUnlistsStack | kotlinx-coroutines-debug-manager/src/main/kotlin/kotlinx/coroutines/debug/manager/StacksManager.kt:69 | a stack listed at most once on a thread is no longer listed there after its clean-up |
| Registry.StacksManager.constructor | kotlinx-coroutines-debug-manager/src/main/kotlin/kotlinx/coroutines/debug/manager/StacksManager.kt:43-48 | all tables start empty, no events, and the id counter at 0 |
| Registry.StacksManager.CoroutinesOnThread | kotlinx-coroutines-debug-manager/src/main/kotlin/kotlinx/coroutines/debug/manager/StacksManager.kt:56 | the thread's list, or the empty list for an unknown thread |
| Registry.StacksManager.CleanupKey | kotlinx-coroutines-debug-manager/src/main/kotlin/kotlinx/coroutines/debug/manager/StacksManager.kt:66-72 | the tables change as Cleanup says, and events and counter stay as they were |
| Registry.StacksManager.CleanupOutdatedStacks | kotlinx-coroutines-debug-manager/src/main/kotlin/kotlinx/coroutines/debug/manager/StacksManager.kt:58-64 | the loop over the collected continuations cleans them all, as CleanupAll says |
| Registry.StacksManager.GetSnapshot | kotlinx-coroutines-debug-manager/src/main/kotlin/kotlinx/coroutines/debug/manager/StacksManager.kt:74-78 | after the clean-up, the result holds exactly one snapshot per remaining named stack |
| Registry.StacksManager.Snapshots | kotlinx-coroutines-debug-manager/src/main/kotlin/kotlinx/coroutines/debug/manager/StacksManager.kt:77 | one snapshot per name in the table, each of the stack with that name |
| Registry.StacksManager.IgnoreNextDoResume | kotlinx-coroutines-debug-manager/src/main/kotlin/kotlinx/coroutines/debug/manager/StacksManager.kt:87-88 | the completion joins the ignore set, and the answer says whether it was new |
| Registry.StacksManager.HandleNewCoroutineCreated | kotlinx-coroutines-debug-manager/src/main/kotlin/kotlinx/coroutines/debug/manager/StacksManager.kt:90-97 | after the clean-up, a fresh stack with the wrapped context is registered under its name and its initial completion, and a Created event is logged |
| Registry.StacksManager.HandleCoroutineExit | kotlinx-coroutines-debug-manager/src/main/kotlin/kotlinx/coroutines/debug/manager/StacksManager.kt:99-105 | an unknown completion is a null dereference that changes nothing; otherwise the stack leaves the initial and name tables, leaves its thread's list when it is last there, and a Removed event is logged |
| Registry.StacksManager.HandleAfterSuspendFunctionReturn | kotlinx-coroutines-debug-manager/src/main/kotlin/kotlinx/coroutines/debug/manager/StacksManager.kt:107-117 | an unknown thread is a null dereference and an empty list a NoSuchElement, both changing nothing; otherwise the thread's last stack steps as AfterSuspendReturn says and loses its old key; on a commit it is re-keyed by its new top completion, leaves the thread's list and a Suspended event is logged |
| Registry.StacksManager.HandleDoResumeEnter | kotlinx-coroutines-debug-manager/src/main/kotlin/kotlinx/coroutines/debug/manager/StacksManager.kt:119-144 | an ignored completion is just removed from the ignore set; a known continuation wakes its stack up; a known initial completion runs its first lambda; anything else changes nothing |
| Registry.StacksManager.WakeUp | kotlinx-coroutines-debug-manager/src/main/kotlin/kotlinx/coroutines/debug/manager/StacksManager.kt:125-134 | the stack keyed by the continuation steps as AfterDoResume says; on success it is re-keyed by the completion and is last on the thread's list, and a WakedUp event is logged only if it was not running |
| Registry.StacksManager.FirstLambda | kotlinx-coroutines-debug-manager/src/main/kotlin/kotlinx/coroutines/debug/manager/StacksManager.kt:135-141 | the stack created for the initial completion steps as AfterDoResume says; on success it is keyed by its completion and appended to the thread's list |
| LibraryStack.ClosesResumed | mylibrary/src/main/kotlin/mylibrary/CoroutineStack.kt:33-34 | a definition: a continuation was resumed, the return is for it, and the function is user-defined; `AfterSuspendReturn` states that this commits |
| LibraryStack.ReachesEntry | mylibrary/src/main/kotlin/mylibrary/CoroutineStack.kt:37-38 | a definition: nothing resumed and nothing on the stack, and the return is for the entry point's continuation; `AfterSuspendReturn` and `EntryReturnCommitsEntry` state that this commits the entry frame too |
| LibraryStack.AfterSuspendReturn | mylibrary/src/main/kotlin/mylibrary/CoroutineStack.kt:30-43 | the frame is collected; returning to the resumed frame, or reaching the entry point, commits the collected frames (the entry frame too in the second case) onto the stack and counts one suspension; otherwise only the collection grows |
| LibraryStack.Apply | mylibrary/src/main/kotlin/mylibrary/CoroutineStack.kt:61-64 | a definition: the collected frames go in front of the stack, the collection and the resumed continuation are cleared, and one more suspension is counted; `ResumeThenSuspendRestores` and `EntryReturnCommitsEntry` state what the steps built on it give |
| LibraryStack.IndexOfFirst | mylibrary/src/main/kotlin/mylibrary/CoroutineStack.kt:72 | the first frame of the continuation, or -1 exactly when there is none |
| LibraryStack.AfterDoResume | mylibrary/src/main/kotlin/mylibrary/CoroutineStack.kt:67-77 | the first resume records the entry point; resuming a continuation that is on the stack drops every frame up to and including its first one and makes it the current continuation; otherwise the stack is unchanged |
| LibraryStack.ResumeThenSuspendRestores | mylibrary/src/main/kotlin/mylibrary/CoroutineStack.kt:30-77 | resuming the top frame and suspending it again gives the same stack back and counts one suspension |
| LibraryStack.EntryReturnCommitsEntry | mylibrary/src/main/kotlin/mylibrary/CoroutineStack.kt:30-43 | on a new stack, the first resume followed by a return to the entry continuation leaves the returned frame above the entry frame |
| LibraryStack.ShownFrames | mylibrary/src/main/kotlin/mylibrary/CoroutineStack.kt:82 | each frame shown once, in order |
| LibraryStack.PrettyPrint | mylibrary/src/main/kotlin/mylibrary/CoroutineStack.kt:79-83 | a definition: the context and ':', then "<empty>" or the top frame marked " <- suspended here", the other frames one per line, and a closing rule; `PrettyPrintLines` states its lines |
| LibraryStack.PrettyPrintLines | mylibrary/src/main/kotlin/mylibrary/CoroutineStack.kt:79-83 | when no part holds a newline, the text splits into the context line, the marked top frame, the other frames and the closing rule |
| LibraryStack.CoroutineStackImpl.constructor | mylibrary/src/main/kotlin/mylibrary/CoroutineStack.kt:21-26 | all fields start empty and no suspension is counted |
| LibraryStack.CoroutineStackImpl.GetSuspendedStack | mylibrary/src/main/kotlin/mylibrary/CoroutineStack.kt:28 | the stack's functions, in order |
| LibraryStack.CoroutineStackImpl.ApplyStack | mylibrary/src/main/kotlin/mylibrary/CoroutineStack.kt:47-65 | the fields change as Apply says |
| LibraryStack.CoroutineStackImpl.HandleSuspendFunctionReturn | mylibrary/src/main/kotlin/mylibrary/CoroutineStack.kt:30-43 | the fields change as AfterSuspendReturn says |
| LibraryStack.CoroutineStackImpl.HandleDoResume | mylibrary/src/main/kotlin/mylibrary/CoroutineStack.kt:67-77 | the fields change as AfterDoResume says |
| LibraryStack.CoroutineStackImpl.PrettyPrintText | mylibrary/src/main/kotlin/mylibrary/CoroutineStack.kt:79-83 | the printed text splits into the expected lines |
| SuspendFunctions.SuspendFunction.IsUserDefined | mylibrary/src/main/kotlin/mylibrary/DataClasses.kt:27-51 | a definition: `is UserDefinedSuspendFunction`, true for the anonymous and the named kinds and false for a library function |
| SuspendPairing.TransformerDoResumeIsConcrete | mylibrary/src/main/kotlin/mylibrary/Utils.kt:79-84 | the prototype's `isDoResume` is the transformer's without the abstract-flag test |
| SuspendPairing.IsDoResume | mylibrary/src/main/kotlin/mylibrary/Utils.kt:79-84 | a definition: named `doResume`, exactly the arguments (Object, Throwable), Object returned; `TransformerDoResumeIsConcrete` and `DoResumeIsNotSuspend` state how it relates to the other tests |
| SuspendPairing.LastIndexOf | mylibrary/src/main/kotlin/mylibrary/Utils.kt:102 | the last position of the argument type, or -1 exactly when it is absent |
| SuspendPairing.IsSuspendAsWritten | mylibrary/src/main/kotlin/mylibrary/Utils.kt:97-104 | the test as written: arguments present, the last Continuation's index equal to count minus offset, Object returned; `IsSuspendAsWrittenAcceptsNoContinuation` and `IsSuspendAsWrittenOnlyExtra` state where it goes wrong and how far |
| SuspendPairing.IsSuspendAsWrittenAcceptsNoContinuation | mylibrary/src/main/kotlin/mylibrary/Utils.kt:97-104 | the test as written accepts "f$default" with descriptor (II)Ljava/lang/Object;, which has no Continuation |
| SuspendPairing.IsSuspend | mylibrary/src/main/kotlin/mylibrary/Utils.kt:97-104 | corrected: the test as written plus the requirement that count minus offset is a real argument position; `IsSuspendMeans` states what it means and `IsSuspendAsWrittenOnlyExtra` how it differs from the test as written |
| SuspendPairing.IsSuspendMeans | mylibrary/src/main/kotlin/mylibrary/Utils.kt:97-104 | corrected: suspend if and only if the last Continuation argument sits at count minus offset and the result is Object |
| SuspendPairing.IsSuspendAsWrittenOnlyExtra | mylibrary/src/main/kotlin/mylibrary/Utils.kt:97-104 | the test as written accepts everything the corrected one does; it accepts more only for `$default` names with exactly two arguments and no Continuation |
| SuspendPairing.IsSuspendImpliesTransformer | mylibrary/src/main/kotlin/mylibrary/Utils.kt:97-104 | every corrected suspend descriptor is one for the transformer too |
| SuspendPairing.ContinuationVarIndex | mylibrary/src/main/kotlin/mylibrary/Utils.kt:90-92 | as written: none exactly when the test as written rejects the method, otherwise the argument count minus the offset; that value, when not negative, is the position of the last Continuation argument, and when negative it is -1 for a two-argument `$default` method with no Continuation |
| SuspendPairing.ContinuationVarIndexOfShim | mylibrary/src/main/kotlin/mylibrary/Utils.kt:90-92 | as written, "f$default" with descriptor (II)Ljava/lang/Object; gets the index -1 |
| SuspendPairing.ContinuationVarIndexFixed | mylibrary/src/main/kotlin/mylibrary/Utils.kt:90-92 | corrected: none exactly for a method the corrected test rejects; otherwise a real argument position holding the last Continuation argument |
| SuspendPairing.IsStateMachineForAnonymousSuspendFunction | mylibrary/src/main/kotlin/mylibrary/Utils.kt:46-56 | a `doResume` with fewer than seven instructions fails with an index error; a positive answer needs a `doResume` that starts with the `COROUTINE_SUSPENDED` read |
| SuspendPairing.CorrespondingSuspendFunctionForDoResume | mylibrary/src/main/kotlin/mylibrary/Utils.kt:58-69 | a non-`doResume` is an illegal argument and a too-short one a null dereference; success holds exactly when the third-from-last instruction is an INVOKESTATIC and the next one is ARETURN, and the result names that call; every other end is "Unexpected end instructions" |
| SuspendPairing.PairingAgreesWithTransformer | mylibrary/src/main/kotlin/mylibrary/Utils.kt:58-69 | when the prototype finds a callee and the last instruction is a label, line or frame node (so the transformer's last meaningful instruction is the prototype's ARETURN), the transformer finds the same callee, with its owner in dotted form |
| SuspendPairing.KeyOf | mylibrary/src/main/kotlin/mylibrary/Utils.kt:25 | a definition: the named function's method name, class name and descriptor, the key the table is searched by; `FindMatch` and `NamedThenDoResumePairs` use it |
| SuspendPairing.FindMatch | mylibrary/src/main/kotlin/mylibrary/Utils.kt:34-36 | the first unassigned function with the wanted name, owner and descriptor, or -1 exactly when there is none |
| SuspendPairing.EmptyTablesValid | mylibrary/src/main/kotlin/mylibrary/Utils.kt:15-17 | the empty tables satisfy the pairing invariant |
| SuspendPairing.IsNamedCandidate | mylibrary/src/main/kotlin/mylibrary/Utils.kt:23 | a definition: the test as written accepts the method and its name is neither `invoke` nor `create`; `UpdateNamed` states that exactly these are queued |
| SuspendPairing.UpdateStep | mylibrary/src/main/kotlin/mylibrary/Utils.kt:19-41 | a definition of one call of `updateDoResumeToSuspendFunctionMap`, branch by branch; the lemmas that follow state each branch and the invariant it keeps |
| SuspendPairing.UpdateNeverQueuesDoResumes | mylibrary/src/main/kotlin/mylibrary/Utils.kt:32-39 | no step adds to the table of unassigned `doResume` methods |
| SuspendPairing.UpdateAnonymous | mylibrary/src/main/kotlin/mylibrary/Utils.kt:20-22 | a lambda state machine is paired with itself as an anonymous function at its first line |
| SuspendPairing.DoResumeIsNotSuspend | mylibrary/src/main/kotlin/mylibrary/Utils.kt:79-104 | a `doResume` is never a suspend descriptor, under either test |
| SuspendPairing.UpdateNamed | mylibrary/src/main/kotlin/mylibrary/Utils.kt:23-31 | every method the test as written accepts, other than `invoke` and `create`, joins the unassigned set once and pairs nothing; this includes the two-argument `$default` methods without a Continuation |
| SuspendPairing.ShimIsQueued | mylibrary/src/main/kotlin/mylibrary/Utils.kt:23-31 | as written, the "f$default" method with descriptor (II)Ljava/lang/Object;, which has no Continuation, is queued as a named suspend function |
| SuspendPairing.UpdateDoResume | mylibrary/src/main/kotlin/mylibrary/Utils.kt:32-39 | a `doResume` whose callee cannot be read rethrows; one whose callee is not unassigned changes nothing; otherwise it is paired with the first match, which leaves the unassigned set |
| SuspendPairing.UpdatePreservesValid | mylibrary/src/main/kotlin/mylibrary/Utils.kt:19-41 | every step keeps the invariant: pairs of the right kind, and unassigned named functions without duplicates, each one a method the test as written accepts |
| SuspendPairing.NamedThenDoResumePairs | mylibrary/src/main/kotlin/mylibrary/Utils.kt:19-41 | a named function seen before its `doResume` ends up paired with it, and the unassigned set is back to what it was |
| SuspendPairing.DoResumeFirstIsDropped | mylibrary/src/main/kotlin/mylibrary/Utils.kt:32-39 | a `doResume` seen before its named function is dropped and changes nothing |
| SuspendPairing.PairingTables.constructor | mylibrary/src/main/kotlin/mylibrary/Utils.kt:15-17 | the tables start empty and satisfy the invariant |
| SuspendPairing.PairingTables.UpdateDoResumeToSuspendFunctionMap | mylibrary/src/main/kotlin/mylibrary/Utils.kt:19-41 | the tables change as UpdateStep says, with the source's own tests (the test as written among them), and the invariant is kept |
| RegexMatcher.Matches | kotlinx-coroutines-debug-agent-test/src/test/kotlin/kotlinx/coroutines/debug/test/GenericRegexMatcher.kt:19-39 | a definition of the matcher as written; `MatchesImpliesAccepts`, `MatchesSound` and the counterexample lemmas state how it compares with the regular language |
| RegexMatcher.MatchesEmptyPattern | kotlinx-coroutines-debug-agent-test/src/test/kotlin/kotlinx/coroutines/debug/test/GenericRegexMatcher.kt:20 | the empty pattern matches exactly the empty list |
| RegexMatcher.MatchesEmptyData | kotlinx-coroutines-debug-agent-test/src/test/kotlin/kotlinx/coroutines/debug/test/GenericRegexMatcher.kt:21 | as written, no non-empty pattern matches the empty list |
| RegexMatcher.MatchesSound | kotlinx-coroutines-debug-agent-test/src/test/kotlin/kotlinx/coroutines/debug/test/GenericRegexMatcher.kt:19-39 | whatever the matcher as written accepts, the corrected one accepts too |
| RegexMatcher.MatchesRejectsEmptyStar | kotlinx-coroutines-debug-agent-test/src/test/kotlin/kotlinx/coroutines/debug/test/GenericRegexMatcher.kt:21 | as written, "a*" rejects the empty list, which the regular language contains |
| RegexMatcher.MatchesRejectsStarBeforeSame | kotlinx-coroutines-debug-agent-test/src/test/kotlin/kotlinx/coroutines/debug/test/GenericRegexMatcher.kt:28-32 | as written, "a*a" rejects "a", which the regular language contains |
| RegexMatcher.MatchesFixedIsAccepts | kotlinx-coroutines-debug-agent-test/src/test/kotlin/kotlinx/coroutines/debug/test/GenericRegexMatcher.kt:19-39 | the corrected matcher accepts exactly the lists that split into chunks, one per token, each chunk fitting its token |
| RegexMatcher.MatchesImpliesAccepts | kotlinx-coroutines-debug-agent-test/src/test/kotlin/kotlinx/coroutines/debug/test/GenericRegexMatcher.kt:19-39 | the matcher as written never accepts a list outside the regular language |
| RegexMatcher.Str2Matchable | kotlinx-coroutines-debug-agent-test/src/test/kotlin/kotlinx/coroutines/debug/test/GenericRegexMatcher.kt:54-68 | the loop builds the token list that the pattern parser specifies |
| RegexMatcher.ParsePattern | kotlinx-coroutines-debug-agent-test/src/test/kotlin/kotlinx/coroutines/debug/test/GenericRegexMatcher.kt:54-68 | never more tokens than characters; `RenderParsePattern` and `ParsePatternRender` state that it is the inverse of writing tokens back |
| RegexMatcher.RenderParsePattern | kotlinx-coroutines-debug-agent-test/src/test/kotlin/kotlinx/coroutines/debug/test/GenericRegexMatcher.kt:54-68 | writing the parsed tokens back gives the pattern text, for every text |
| RegexMatcher.ParsePatternRender | kotlinx-coroutines-debug-agent-test/src/test/kotlin/kotlinx/coroutines/debug/test/GenericRegexMatcher.kt:54-68 | parsing the text of tokens with one-character symbols gives the tokens back |
| RegexMatcher.Symbols | kotlinx-coroutines-debug-agent-test/src/test/kotlin/kotlinx/coroutines/debug/test/GenericRegexMatcher.kt:77 | one one-character symbol per character, in order |
| RegexMatcher.ParseGeneratedPattern | kotlinx-coroutines-debug-agent-test/src/test/kotlin/kotlinx/coroutines/debug/test/GenericRegexMatcher.kt:44-45 | a generated pattern parses to one `*` or `+` token per skeleton letter |
| RegexMatcher.StressInputsMatch | kotlinx-coroutines-debug-agent-test/src/test/kotlin/kotlinx/coroutines/debug/test/GenericRegexMatcher.kt:79-83 | every input the stress test can generate (each letter repeated one or more times) is accepted by both the matcher as written and the corrected one, so the test's agreement check holds there |

## Left out

- The bytecode rewriting itself is not modelled. This covers code generation, `suspendCallInstructions`, `insertPrint`/`insertPrintln`, `isFunctionInterfaceInvoke` and `isSuspendSignature`. Instructions are values, not nodes being relinked.
- ASM's node identity is modelled as position (for instructions) and as structural equality (for method and class nodes). Object identity cannot be expressed on values. The `LinkedHashSet` of unassigned functions is a duplicate-free sequence.
- The transformer's `correspondingSuspendFunctionForDoResume` wraps its id in a `NamedSuspendFunction` object. That class is not part of this model, so the model returns the `MethodId`.
- `isSetLabel`, `isCreateCoroutine` and `isBridge` are left out: no modelled operation uses them.
- TransformerUtils.IsGetLabel: the source tests for GETFIELD twice in one condition. The model keeps the single test, which has the same meaning.
- The empty instruction list's `last` is a null dereference, and `InsnList.get` past the end is an index error. Both are modelled as `Failure(NullPointer)` and `Failure(IndexOutOfBounds)`.
- SuspendPairing.IsStateMachineForAnonymousSuspendFunction: for a positive answer, the contract names only the first of the four instructions that the source inspects. The label, the read of `label` and the table switch at positions 1, 5 and 6 are in the body only: an if-and-only-if over all four positions would repeat the body word for word and state nothing beyond it.
- LibraryStack.Apply: the prototype's `onCoroutineSuspend` callback (mylibrary/src/main/kotlin/mylibrary/CoroutineStack.kt:21 and :64) is user code run on the stack object. The model only counts its calls in `suspendCallbacks`, so what the callback does, and any change it makes to the stack through the object it receives, is not modelled.
- Weak references, garbage collection and `ReferenceQueue`: the collected continuations are a parameter of the clean-up. Continuations and completions are integer ids.
- The `AtomicInteger` id counter is an unbounded integer. Its 32-bit wrap-around is not modelled.
- The coroutine context is its `toString` text. `ThreadId` is an integer.
- Stack-trace elements, frames and threads are turned into text by `show` parameters. Kotlin's own `toString` of those platform classes is outside the modelled code.
- In-place list mutation (`removeAt`, `add`, `remove`) is modelled by reassigning `seq` fields. ManagerStack.DropInplace returns the new list instead of changing the caller's list.
- The stack-changed callback list is modelled as an event log of (kind, context). Adding and removing callbacks, and calling them, are not modelled.
- The agent's bootstrap and logging are not modelled, and neither are the event dispatch (`EventsHandler`, `WrappedCompletion`), the socket writer, the IDE plugin and the dump parser. They are I/O and wiring around the modelled handlers.
- `getFullDumpString` and the debug logging inside `applyStack` are left out: they are I/O.
- Threads and the concurrent maps are not modelled: every handler is one atomic step.
- ASM's type-name pretty printing is not modelled, and neither are the textual `toString`/`prettyPrint` of the prototype's data classes, `byteCodeString` and `buildMethodIdWithInfo`. All of these only produce text for humans.
- The three copies of `firstInstructionLineNumber` carry a FIXME that does not say what is wrong. The model computes what the code computes: the smallest line number.
- RegexMatcher: the stress test's random skeletons and timing are not modelled, nor its `measureNanoTime`. The random choices are parameters. Kotlin's `Regex.matchEntire` is modelled by the reference predicate `Accepts` (one chunk per token).

## Findings

| source | as written | input that shows it | evidently intended | confidence | as-written member | corrected member |
|---|---|---|---|---|---|---|
| mylibrary/src/main/kotlin/mylibrary/Utils.kt:97-104 (the same code is at src/main/kotlin/agent/Utils.kt:131-138) | `isSuspend` compares `lastIndexOf(CONTINUATION)` with the argument count minus 1, or minus 3 for a `$default` name; a missing Continuation gives -1 | "f$default" with descriptor (II)Ljava/lang/Object; gives -1 == 2 - 3, so the method counts as suspend and `continuationVarIndex` returns -1 | a method counts as suspend only when a Continuation argument really is at that position | not executed | SuspendPairing.IsSuspendAsWrittenAcceptsNoContinuation | SuspendPairing.IsSuspendMeans |
| kotlinx-coroutines-debug-agent-test/src/test/kotlin/kotlinx/coroutines/debug/test/GenericRegexMatcher.kt:21 | any non-empty pattern rejects empty data, even one made only of `*` tokens | pattern "a*" against the empty list is rejected, but the regex `a*` accepts "" | agreement with `Regex.matchEntire`, which the stress test checks at line 83 | not executed | RegexMatcher.MatchesRejectsEmptyStar | RegexMatcher.MatchesFixedIsAccepts |
| kotlinx-coroutines-debug-agent-test/src/test/kotlin/kotlinx/coroutines/debug/test/GenericRegexMatcher.kt:28-32 | a `*` token whose symbol matches the next element is never skipped without consuming it | pattern "a*a" against "a" is rejected, but the regex `a*a` accepts "a" | agreement with `Regex.matchEntire` | not executed | RegexMatcher.MatchesRejectsStarBeforeSame | RegexMatcher.MatchesFixedIsAccepts |
