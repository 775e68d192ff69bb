/**
 * The prototype agent's per-coroutine stack (`CoroutineStackImpl`).
 * Suspend-function returns are buffered in a temporary stack. The buffer is
 * committed in front of the stack when the return closes the frame resumed
 * last, or, before anything was committed, when it returns to the entry
 * point. A doResume entry drops the stack through the first frame of the
 * resumed continuation.
 *
 * Continuations are ids compared by identity. The `onCoroutineSuspend`
 * callback is user code; the model counts its calls. The coroutine context
 * is given as its text.
 */
module LibraryStack {
  import opened Wrappers
  import opened Text
  import opened SuspendFunctions

  type Cont = int

  datatype CoroutineStackFrame = CoroutineStackFrame(continuation: Cont, fn: SuspendFunction)

  datatype LibState = LibState(
    stack: seq<CoroutineStackFrame>,
    temporaryStack: seq<CoroutineStackFrame>,
    entryPoint: Option<CoroutineStackFrame>,
    topCurrentContinuation: Option<Cont>,
    suspendCallbacks: nat)

  const InitialLibState := LibState([], [], None, None, 0)

  /** `applyStack`: the buffer goes in front of the stack, the resumed continuation is forgotten, the callback runs. */
  function Apply(s: LibState): LibState
  {
    s.(stack := s.temporaryStack + s.stack, temporaryStack := [], topCurrentContinuation := None,
       suspendCallbacks := s.suspendCallbacks + 1)
  }

  /** The return closes the frame resumed last: same continuation and a user-defined function. */
  predicate ClosesResumed(s: LibState, continuation: Cont, fn: SuspendFunction)
  {
    s.topCurrentContinuation.Some? && s.topCurrentContinuation.value == continuation && fn.IsUserDefined()
  }

  /** Nothing committed or resumed yet, and the return is the entry point's continuation. */
  predicate ReachesEntry(s: LibState, continuation: Cont)
  {
    s.topCurrentContinuation.None? && s.stack == [] && s.entryPoint.Some? && s.entryPoint.value.continuation == continuation
  }

  /** `handleSuspendFunctionReturn` as a step on the state. */
  function AfterSuspendReturn(s: LibState, continuation: Cont, fn: SuspendFunction): (r: LibState)
    ensures var frame := CoroutineStackFrame(continuation, fn);
      var extra := if ReachesEntry(s, continuation) then [s.entryPoint.value] else [];
      r.temporaryStack + r.stack == s.temporaryStack + [frame] + extra + s.stack
    ensures r.entryPoint == s.entryPoint
    ensures r.suspendCallbacks == s.suspendCallbacks + 1 <==> ClosesResumed(s, continuation, fn) || ReachesEntry(s, continuation)
    ensures ClosesResumed(s, continuation, fn) ==>
      r.stack == s.temporaryStack + [CoroutineStackFrame(continuation, fn)] + s.stack
      && r.temporaryStack == [] && r.topCurrentContinuation.None?
    ensures ReachesEntry(s, continuation) ==>
      r.stack == s.temporaryStack + [CoroutineStackFrame(continuation, fn), s.entryPoint.value]
      && r.temporaryStack == [] && r.topCurrentContinuation.None?
    ensures !ClosesResumed(s, continuation, fn) && !ReachesEntry(s, continuation) ==>
      r == s.(temporaryStack := s.temporaryStack + [CoroutineStackFrame(continuation, fn)])
  {
    var frame := CoroutineStackFrame(continuation, fn);
    var t := s.(temporaryStack := s.temporaryStack + [frame]);
    if s.topCurrentContinuation.Some? then
      if s.topCurrentContinuation.value == continuation && fn.IsUserDefined() then Apply(t) else t
    else if s.stack == [] then
      if s.entryPoint.Some? && s.entryPoint.value.continuation == continuation then
        Apply(t.(temporaryStack := t.temporaryStack + [s.entryPoint.value]))
      else t
    else t
  }

  /** `indexOfFirst { it.continuation === continuation }`. */
  function IndexOfFirst(stack: seq<CoroutineStackFrame>, continuation: Cont): (r: int)
    ensures -1 <= r < |stack|
    ensures r == -1 <==> forall i :: 0 <= i < |stack| ==> stack[i].continuation != continuation
    ensures r >= 0 ==>
      stack[r].continuation == continuation && forall i :: 0 <= i < r ==> stack[i].continuation != continuation
    decreases |stack|
  {
    if stack == [] then -1
    else if stack[0].continuation == continuation then 0
    else
      var k := IndexOfFirst(stack[1..], continuation);
      assert forall i :: 1 <= i < |stack| ==> stack[i] == stack[1..][i - 1];
      if k == -1 then -1 else k + 1
  }

  /** `handleDoResume` as a step on the state. */
  function AfterDoResume(s: LibState, continuation: Cont, fn: UserDefinedSuspendFunction): (r: LibState)
    ensures r.entryPoint == if s.entryPoint.None? then Some(CoroutineStackFrame(continuation, fn)) else s.entryPoint
    ensures r.temporaryStack == s.temporaryStack && r.suspendCallbacks == s.suspendCallbacks
    ensures (forall i :: 0 <= i < |s.stack| ==> s.stack[i].continuation != continuation) ==>
      r.stack == s.stack && r.topCurrentContinuation == s.topCurrentContinuation
    ensures (exists i :: 0 <= i < |s.stack| && s.stack[i].continuation == continuation) ==>
      var dropped := |s.stack| - |r.stack|;
      && r.topCurrentContinuation == Some(continuation)
      && 0 < dropped <= |s.stack|
      && s.stack == s.stack[..dropped] + r.stack
      && s.stack[dropped - 1].continuation == continuation
      && forall i :: 0 <= i < dropped - 1 ==> s.stack[i].continuation != continuation
  {
    var entry := if s.entryPoint.None? then Some(CoroutineStackFrame(continuation, fn)) else s.entryPoint;
    var currentTopFrame := IndexOfFirst(s.stack, continuation) + 1;
    if currentTopFrame > 0 then
      assert s.stack == s.stack[..currentTopFrame] + s.stack[currentTopFrame..];
      s.(entryPoint := entry, topCurrentContinuation := Some(continuation), stack := s.stack[currentTopFrame..])
    else
      s.(entryPoint := entry)
  }

  /**
   * Resuming the top frame's continuation and then returning from that same
   * user-defined function, with nothing buffered, gives back the stack it
   * started from, and the callback runs once.
   */
  lemma ResumeThenSuspendRestores(s: LibState)
    requires |s.stack| > 0 && s.temporaryStack == [] && s.stack[0].fn.IsUserDefined()
    ensures var top := s.stack[0];
      var r := AfterSuspendReturn(AfterDoResume(s, top.continuation, top.fn), top.continuation, top.fn);
      && r.stack == s.stack && r.temporaryStack == []
      && r.suspendCallbacks == s.suspendCallbacks + 1
  {
    var top := s.stack[0];
    var m := AfterDoResume(s, top.continuation, top.fn);
    assert IndexOfFirst(s.stack, top.continuation) == 0;
    assert m.stack == s.stack[1..];
    assert [top] + s.stack[1..] == s.stack;
  }

  /** A suspend return before any resume, into an empty stack, commits only the entry point's own continuation. */
  lemma EntryReturnCommitsEntry(s: LibState, continuation: Cont, fn: SuspendFunction, entry: UserDefinedSuspendFunction)
    requires s == InitialLibState
    ensures var e := AfterDoResume(s, continuation, entry);
      var r := AfterSuspendReturn(e, continuation, fn);
      && r.stack == [CoroutineStackFrame(continuation, fn), CoroutineStackFrame(continuation, entry)]
      && r.suspendCallbacks == 1
  {
  }

  /** Lines of `prettyPrint`, read back: only the first frame is marked, a lone frame leaves a blank line. */
  function PrettyLines(context: string, stack: seq<CoroutineStackFrame>, show: CoroutineStackFrame -> string): seq<string>
  {
    if stack == [] then [context + ":", "<empty>"]
    else
      [context + ":", show(stack[0]) + " <- suspended here"]
      + (if |stack| == 1 then [""] else ShownFrames(stack[1..], show))
      + ["--------------"]
  }

  function ShownFrames(frames: seq<CoroutineStackFrame>, show: CoroutineStackFrame -> string): (r: seq<string>)
    ensures |r| == |frames|
    ensures forall i :: 0 <= i < |frames| ==> r[i] == show(frames[i])
  {
    seq(|frames|, i requires 0 <= i < |frames| => show(frames[i]))
  }

  /** `prettyPrint` of a context text and a stack, frames shown through `show`. */
  function PrettyPrint(context: string, stack: seq<CoroutineStackFrame>, show: CoroutineStackFrame -> string): string
  {
    context + ":\n" +
      if stack == [] then "<empty>"
      else show(stack[0]) + " <- suspended here\n" + JoinToString(ShownFrames(stack[1..], show), "\n") + "\n--------------"
  }

  /** No part of the dump has a newline of its own. */
  predicate SingleLineParts(context: string, stack: seq<CoroutineStackFrame>, show: CoroutineStackFrame -> string)
  {
    '\n' !in context && forall i :: 0 <= i < |stack| ==> '\n' !in show(stack[i])
  }

  /** The top frame's line: its text and the marker. */
  lemma MarkedLine(x: string)
    requires '\n' !in x
    ensures '\n' !in x + " <- suspended here"
  {
    var m := " <- suspended here";
    assert forall k :: |x| <= k < |x + m| ==> (x + m)[k] == m[k - |x|];
  }

  /** Two lines joined, and the text of the dump with its lines exposed. */
  lemma PrettyPrintShape(context: string, stack: seq<CoroutineStackFrame>, show: CoroutineStackFrame -> string)
    requires stack != []
    ensures var head := context + ":";
      var first := show(stack[0]) + " <- suspended here";
      && Join([head, first], "\n") == head + "\n" + first
      && PrettyPrint(context, stack, show)
        == head + "\n" + first + "\n" + JoinToString(ShownFrames(stack[1..], show), "\n") + "\n" + "--------------"
  {
    var head := context + ":";
    var first := show(stack[0]) + " <- suspended here";
    assert [head, first][1..] == [first];
  }

  lemma PrettyPrintLinesSingle(context: string, stack: seq<CoroutineStackFrame>, show: CoroutineStackFrame -> string)
    requires |stack| == 1 && SingleLineParts(context, stack, show)
    ensures Split(PrettyPrint(context, stack, show), "\n") == PrettyLines(context, stack, show)
  {
    var lines := PrettyLines(context, stack, show);
    var head := context + ":";
    var first := show(stack[0]) + " <- suspended here";
    var tail := "--------------";
    PrettyPrintShape(context, stack, show);
    MarkedLine(show(stack[0]));
    assert lines == [head, first] + ["", tail];
    assert Join(["", tail], "\n") == "" + "\n" + tail by { assert ["", tail][1..] == [tail]; }
    JoinAppend([head, first], ["", tail], "\n");
    var a := head + "\n" + first;
    assert JoinToString(ShownFrames(stack[1..], show), "\n") == "";
    assert Join(lines, "\n") == a + "\n" + ("" + "\n" + tail);
    AppendRegroup(a + "\n", "", "\n", tail);
    assert PrettyPrint(context, stack, show) == Join(lines, "\n");
    assert forall i :: 0 <= i < |lines| ==> '\n' !in lines[i];
    SplitLines(lines);
  }

  lemma PrettyPrintLinesMany(context: string, stack: seq<CoroutineStackFrame>, show: CoroutineStackFrame -> string)
    requires |stack| > 1 && SingleLineParts(context, stack, show)
    ensures Split(PrettyPrint(context, stack, show), "\n") == PrettyLines(context, stack, show)
  {
    var lines := PrettyLines(context, stack, show);
    PrettyPrintJoinsMany(context, stack, show);
    ManyLinesSingleLine(context, stack, show);
    SplitLines(lines);
  }

  /** With several frames, the dump is its lines joined by newlines. */
  lemma PrettyPrintJoinsMany(context: string, stack: seq<CoroutineStackFrame>, show: CoroutineStackFrame -> string)
    requires |stack| > 1
    ensures PrettyPrint(context, stack, show) == Join(PrettyLines(context, stack, show), "\n")
  {
    var lines := PrettyLines(context, stack, show);
    var head := context + ":";
    var first := show(stack[0]) + " <- suspended here";
    var rest := ShownFrames(stack[1..], show);
    var tail := "--------------";
    PrettyPrintShape(context, stack, show);
    var a := head + "\n" + first;
    var j := Join(rest, "\n");
    assert JoinToString(rest, "\n") == j;
    assert lines == [head, first] + (rest + [tail]);
    JoinAppend([head, first], rest + [tail], "\n");
    JoinAppend(rest, [tail], "\n");
    assert Join(lines, "\n") == a + "\n" + (j + "\n" + tail);
    AppendRegroup(a + "\n", j, "\n", tail);
  }

  /** Regrouping a concatenation of four strings. */
  lemma AppendRegroup(a: string, b: string, c: string, d: string)
    ensures a + (b + c + d) == a + b + c + d
  {
  }

  /** With several frames, no line of the dump has a newline of its own. */
  lemma ManyLinesSingleLine(context: string, stack: seq<CoroutineStackFrame>, show: CoroutineStackFrame -> string)
    requires |stack| > 1 && SingleLineParts(context, stack, show)
    ensures var lines := PrettyLines(context, stack, show);
      forall i :: 0 <= i < |lines| ==> '\n' !in lines[i]
  {
    var lines := PrettyLines(context, stack, show);
    var rest := ShownFrames(stack[1..], show);
    MarkedLine(show(stack[0]));
    forall i | 0 <= i < |lines| ensures '\n' !in lines[i] {
      if 2 <= i < |lines| - 1 {
        assert lines[i] == rest[i - 2] == show(stack[1..][i - 2]);
        assert stack[1..][i - 2] == stack[i - 1];
      }
    }
  }

  /** Split at newlines, the text is exactly the lines above when no part has a newline of its own. */
  lemma PrettyPrintLines(context: string, stack: seq<CoroutineStackFrame>, show: CoroutineStackFrame -> string)
    requires SingleLineParts(context, stack, show)
    ensures Split(PrettyPrint(context, stack, show), "\n") == PrettyLines(context, stack, show)
  {
    if stack == [] {
      var lines := PrettyLines(context, stack, show);
      assert PrettyPrint(context, stack, show) == Join(lines, "\n");
      assert forall i :: 0 <= i < |lines| ==> lines[i] == context + ":" || lines[i] == "<empty>";
      SplitLines(lines);
    } else if |stack| == 1 {
      PrettyPrintLinesSingle(context, stack, show);
    } else {
      PrettyPrintLinesMany(context, stack, show);
    }
  }

  class CoroutineStackImpl {
    const context: string
    var stack: seq<CoroutineStackFrame>
    var temporaryStack: seq<CoroutineStackFrame>
    var entryPoint: Option<CoroutineStackFrame>
    var topCurrentContinuation: Option<Cont>
    var suspendCallbacks: nat

    function State(): LibState
      reads this
    {
      LibState(stack, temporaryStack, entryPoint, topCurrentContinuation, suspendCallbacks)
    }

    constructor(context: string)
      ensures this.context == context && State() == InitialLibState
    {
      this.context := context;
      stack := [];
      temporaryStack := [];
      entryPoint := None;
      topCurrentContinuation := None;
      suspendCallbacks := 0;
    }

    /** `getSuspendedStack`: the frames' functions, top first. */
    function GetSuspendedStack(): (r: seq<SuspendFunction>)
      reads this
      ensures |r| == |stack|
      ensures forall i :: 0 <= i < |stack| ==> r[i] == stack[i].fn
    {
      seq(|stack|, i reads this requires 0 <= i < |stack| => stack[i].fn)
    }

    method ApplyStack()
      modifies this
      ensures State() == Apply(old(State()))
    {
      stack := temporaryStack + stack;
      temporaryStack := [];
      topCurrentContinuation := None;
      suspendCallbacks := suspendCallbacks + 1;
    }

    method HandleSuspendFunctionReturn(continuation: Cont, fn: SuspendFunction)
      modifies this
      ensures State() == AfterSuspendReturn(old(State()), continuation, fn)
    {
      var frame := CoroutineStackFrame(continuation, fn);
      temporaryStack := temporaryStack + [frame];
      if topCurrentContinuation.Some? {
        if topCurrentContinuation.value == continuation && fn.IsUserDefined() {
          ApplyStack();
        }
      } else if stack == [] {
        if entryPoint.Some? && entryPoint.value.continuation == frame.continuation {
          temporaryStack := temporaryStack + [entryPoint.value];
          ApplyStack();
        }
      }
    }

    method HandleDoResume(continuation: Cont, fn: UserDefinedSuspendFunction)
      modifies this
      ensures State() == AfterDoResume(old(State()), continuation, fn)
    {
      if entryPoint.None? {
        entryPoint := Some(CoroutineStackFrame(continuation, fn));
      }
      var currentTopFrame := IndexOfFirst(stack, continuation) + 1;
      if currentTopFrame > 0 {
        topCurrentContinuation := Some(continuation);
        stack := stack[currentTopFrame..];
      }
    }

    function PrettyPrintText(show: CoroutineStackFrame -> string): (r: string)
      reads this
      ensures SingleLineParts(context, stack, show) ==> Split(r, "\n") == PrettyLines(context, stack, show)
    {
      if SingleLineParts(context, stack, show) then
        PrettyPrintLines(context, stack, show);
        PrettyPrint(context, stack, show)
      else
        PrettyPrint(context, stack, show)
    }
  }
}
