/**
 * The debug manager's per-coroutine stack (`CoroutineStack`): a committed list
 * of frames, top frame first, and a list of frames reported by suspend-function
 * returns that are not committed yet. A suspend return whose call closes the
 * chain at the current top frame commits the pending frames in front of the
 * stack; a doResume entry cuts the stack back to the frame it resumes.
 *
 * Continuations and completions are compared by identity in the source; here
 * they are integer ids (`Cont`). Threads are ids as well.
 */
module ManagerStack {
  import opened Wrappers
  import opened Text
  import opened CommonDataClasses

  /** Identity of a continuation or completion object. */
  type Cont = int

  /** Identity of a thread. */
  type ThreadId = int

  /** Which object a frame is keyed by: the entry continuation, or the completion of a suspend call. */
  datatype FrameId = ContinuationId(value: Cont) | CompletionId(value: Cont)

  /** `CoroutineStackFrame`. */
  datatype StackFrame = StackFrame(id: FrameId, call: MethodCall)

  /** `WrappedContext`: a display name plus the text of the context (`additionalInfo`). */
  datatype WrappedContext = WrappedContext(name: string, additionalInfo: string)

  /** `WrappedContext.equals`: two wrapped contexts are equal exactly when their names are. */
  predicate SameContext(a: WrappedContext, b: WrappedContext)
  {
    a.name == b.name
  }

  /**
   * A table keyed by context names behaves as one keyed by `WrappedContext`
   * under `equals`: contexts that are equal find the same entry, and storing
   * under one context leaves the entry of every context not equal to it alone.
   */
  lemma NameKeyIsContextKey<V>(table: map<string, V>, a: WrappedContext, b: WrappedContext, v: V)
    ensures SameContext(a, b) ==>
      (a.name in table <==> b.name in table) && (a.name in table ==> table[a.name] == table[b.name])
    ensures SameContext(a, b) ==> b.name in table[a.name := v] && table[a.name := v][b.name] == v
    ensures !SameContext(a, b) ==>
      (b.name in table[a.name := v] <==> b.name in table)
      && (b.name in table ==> table[a.name := v][b.name] == table[b.name])
      && (b.name in table - {a.name} <==> b.name in table)
  {
  }

  datatype CoroutineStatus = Created | Running | Suspended

  /** `CoroutineStatus.toString`. */
  function StatusText(s: CoroutineStatus): string
  {
    match s
    case Created => "Created"
    case Running => "Running"
    case Suspended => "Suspended"
  }

  // ---------------------------------------------------------------------------
  // CoroutineContext.wrap

  /** `drop(1).dropLast(1)`: the text without its first and last character. */
  function StripBrackets(s: string): (r: string)
    ensures |s| >= 2 ==> r == s[1..|s| - 1]
    ensures |s| < 2 ==> r == []
  {
    var t := if |s| > 0 then s[1..] else [];
    if |t| > 0 then t[..|t| - 1] else []
  }

  /** `indexOf(c)`: the first position of `c`, or -1. */
  function IndexOf(s: string, c: char): (k: int)
    ensures -1 <= k < |s|
    ensures k == -1 <==> c !in s
    ensures k >= 0 ==> s[k] == c && c !in s[..k]
  {
    if s == [] then -1
    else if s[0] == c then 0
    else
      var k := IndexOf(s[1..], c);
      if k == -1 then -1
      else
        assert s[..k + 1] == [s[0]] + s[1..][..k];
        k + 1
  }

  /** One `Key(value)` part of a context's text: the key before the first '(' and the value up to the last character; a part without '(' has an empty value. */
  function ReadPart(p: string): (kv: (string, string))
  {
    var k := IndexOf(p, '(');
    if k == -1 then (p, "")
    else
      var rest := p[k + 1..];
      (p[..k], if |rest| > 0 then rest[..|rest| - 1] else [])
  }

  /** `toMap()`: a later pair with the same key overrides an earlier one. */
  function ToMap(pairs: seq<(string, string)>): map<string, string>
  {
    if pairs == [] then map[]
    else ToMap(pairs[..|pairs| - 1])[pairs[|pairs| - 1].0 := pairs[|pairs| - 1].1]
  }

  /** The key/value table that `wrap` reads out of a context's `toString()`. */
  function ContextParts(text: string): map<string, string>
  {
    var pieces := Split(StripBrackets(text), ", ");
    ToMap(seq(|pieces|, i requires 0 <= i < |pieces| => ReadPart(pieces[i])))
  }

  /** The name part of a wrapped context: the `CoroutineName` element, or "coroutine". */
  function BaseName(parts: map<string, string>): string
  {
    if "CoroutineName" in parts then parts["CoroutineName"] else "coroutine"
  }

  /**
   * `CoroutineContext.wrap`, with the shared counter `nextGeneratedId` passed in
   * and its next value returned. The name is the base name followed by
   * "#<CoroutineId>" when the context carries an id, and otherwise by "$"
   * and the counter, which is then advanced.
   */
  function Wrap(text: string, counter: int): (r: (WrappedContext, int))
    ensures var parts := ContextParts(text); var base := BaseName(parts);
      && r.0.additionalInfo == text
      && |r.0.name| > |base| && r.0.name[..|base|] == base
      && ("CoroutineId" in parts ==> r.0.name[|base|..] == "#" + parts["CoroutineId"] && r.1 == counter)
      && ("CoroutineId" !in parts ==>
            && r.0.name[|base|] == '$' && r.0.name[|base| + 1..] == IntToString(counter)
            && ParseInt(r.0.name[|base| + 1..]) == Some(counter) && r.1 == counter + 1)
  {
    var parts := ContextParts(text);
    var base := BaseName(parts);
    if "CoroutineId" in parts then
      var suffix := "#" + parts["CoroutineId"];
      NameParts(base, suffix);
      (WrappedContext(base + suffix, text), counter)
    else
      IntToStringRoundTrip(counter);
      var digits := IntToString(counter);
      var suffix := "$" + digits;
      NameParts(base, suffix);
      assert suffix[0] == '$' && suffix[1..] == digits;
      (WrappedContext(base + suffix, text), counter + 1)
  }

  /** A name made of a base and a suffix splits back into the two. */
  lemma NameParts(base: string, suffix: string)
    ensures var name := base + suffix;
      |name| == |base| + |suffix| && name[..|base|] == base && name[|base|..] == suffix
  {
    var name := base + suffix;
    assert name[..|base|] == base;
  }

  /** A context's `toString()` as `CombinedContext` writes it: "[" + elements joined by ", " + "]", each element "Key(value)". */
  function RenderContext(elements: seq<(string, string)>): string
    requires |elements| > 0
  {
    "[" + Join(RenderedElements(elements), ", ") + "]"
  }

  function RenderedElements(elements: seq<(string, string)>): (r: seq<string>)
    ensures |r| == |elements|
    ensures forall i :: 0 <= i < |elements| ==> r[i] == elements[i].0 + "(" + elements[i].1 + ")"
  {
    seq(|elements|, i requires 0 <= i < |elements| => elements[i].0 + "(" + elements[i].1 + ")")
  }

  /** Keys and values free of ',' and keys free of '(' cannot be misread. */
  predicate PlainElements(elements: seq<(string, string)>)
  {
    forall i :: 0 <= i < |elements| ==> ',' !in elements[i].0 && '(' !in elements[i].0 && ',' !in elements[i].1
  }

  /** A piece without ',' can be followed by ", " without a new delimiter starting inside it. */
  lemma CommaFreeSeparable(p: string)
    requires ',' !in p
    ensures NoSepStartsBefore(p + ", ", |p|, ", ") && Free(p, ", ")
  {
    forall k | 0 <= k < |p|
      ensures !SepAt(p + ", ", k, ", ") && !SepAt(p, k, ", ")
    {
      assert (p + ", ")[k] == p[k];
      if k + 2 <= |p + ", "| { assert (p + ", ")[k..k + 2][0] == p[k]; }
      if k + 2 <= |p| { assert p[k..k + 2][0] == p[k]; }
    }
  }

  /** Reading one rendered element gives back its key and value. */
  lemma ReadRenderedPart(key: string, value: string)
    requires '(' !in key
    ensures ReadPart(key + "(" + value + ")") == (key, value)
  {
    var p := key + "(" + value + ")";
    assert p[..|key|] == key;
    assert p[|key|] == '(';
    assert p[..|key| + 1] == key + "(";
    assert p[|key| + 1..] == value + ")";
  }

  /** `wrap` reads back exactly the elements of a rendered context, a later duplicate key winning. */
  lemma ContextPartsOfRendered(elements: seq<(string, string)>)
    requires |elements| > 0 && PlainElements(elements)
    ensures ContextParts(RenderContext(elements)) == ToMap(elements)
  {
    var pieces := RenderedElements(elements);
    var text := RenderContext(elements);
    assert StripBrackets(text) == Join(pieces, ", ");
    forall i | 0 <= i < |pieces|
      ensures ',' !in pieces[i]
    {
      var e := elements[i];
      assert pieces[i] == e.0 + "(" + e.1 + ")";
    }
    assert Separable(pieces, ", ") by {
      forall i | 0 <= i < |pieces| ensures NoSepStartsBefore(pieces[i] + ", ", |pieces[i]|, ", ") && Free(pieces[i], ", ") {
        CommaFreeSeparable(pieces[i]);
      }
    }
    SplitJoin(pieces, ", ");
    var read := seq(|pieces|, i requires 0 <= i < |pieces| => ReadPart(pieces[i]));
    forall i | 0 <= i < |pieces| ensures read[i] == elements[i] {
      ReadRenderedPart(elements[i].0, elements[i].1);
    }
    assert read == elements;
  }

  /** Every key of the table comes from some pair. */
  lemma {:induction false} ToMapKeys(pairs: seq<(string, string)>, key: string)
    ensures key in ToMap(pairs) <==> exists i :: 0 <= i < |pairs| && pairs[i].0 == key
    decreases |pairs|
  {
    if pairs != [] {
      var front := pairs[..|pairs| - 1];
      ToMapKeys(front, key);
      if key in ToMap(front) {
        var i :| 0 <= i < |front| && front[i].0 == key;
        assert pairs[i].0 == key;
      }
      if exists i :: 0 <= i < |pairs| && pairs[i].0 == key {
        var i :| 0 <= i < |pairs| && pairs[i].0 == key;
        if i < |pairs| - 1 { assert front[i].0 == key; }
      }
    }
  }

  /** The value of a key is that of the last pair carrying it. */
  lemma {:induction false} ToMapLastWins(pairs: seq<(string, string)>, i: nat)
    requires i < |pairs|
    requires forall j :: i < j < |pairs| ==> pairs[j].0 != pairs[i].0
    ensures pairs[i].0 in ToMap(pairs) && ToMap(pairs)[pairs[i].0] == pairs[i].1
    decreases |pairs|
  {
    if i < |pairs| - 1 {
      var front := pairs[..|pairs| - 1];
      assert front[i] == pairs[i];
      ToMapLastWins(front, i);
    }
  }

  // ---------------------------------------------------------------------------
  // The stack state and its two transitions

  /** The fields of a `CoroutineStack` that its handlers change; `pending` is `unAppliedStack`. */
  datatype StackState = StackState(
    thread: ThreadId,
    status: CoroutineStatus,
    topFrameCompletion: Cont,
    topContinuation: Cont,
    stack: seq<StackFrame>,
    pending: seq<StackFrame>)

  /** A fresh stack: created on `thread`, both keys are the initial completion, no frames. */
  function InitialState(initialCompletion: Cont, thread: ThreadId): StackState
  {
    StackState(thread, Created, initialCompletion, initialCompletion, [], [])
  }

  /** The closure test: the call was made from the method of the top frame, or it is a doResume returning into an `invoke`. */
  predicate ClosesFrame(call: MethodCall, top: StackFrame)
  {
    call.fromMethod == top.call.calledMethod
    || (call.fromMethod.name == "doResume" && top.call.calledMethod.name == "invoke")
  }

  /** The frame a first doResume pushes: keyed by the continuation, for a call of unknown origin. */
  function EntryFrame(continuation: Cont, fn: MethodId): StackFrame
  {
    StackFrame(ContinuationId(continuation), DoResumeCall(fn, UnknownMethod, UnknownPosition))
  }

  /** `applyStack`: the pending frames go in front of the stack, in arrival order, and the stack counts as suspended. */
  function Commit(s: StackState): (r: StackState)
    requires |s.pending| > 0
    ensures r.stack == s.pending + s.stack && r.pending == []
    ensures r.status == Suspended && r.topFrameCompletion == s.pending[0].id.value
    ensures r.thread == s.thread && r.topContinuation == s.topContinuation
  {
    var st := s.pending + s.stack;
    s.(status := Suspended, stack := st, topFrameCompletion := st[0].id.value, pending := [])
  }

  /**
   * `handleSuspendFunctionReturn`: the new frame is always buffered; the
   * buffer is committed exactly when the completion is the top continuation
   * and the call closes the top frame. An empty stack at that point makes
   * `stack.first()` throw, after the frame was buffered.
   */
  function AfterSuspendReturn(s: StackState, completion: Cont, call: SuspendCall): (r: (StackState, Result<bool>))
    ensures var f := StackFrame(CompletionId(completion), call);
      && r.0.pending + r.0.stack == s.pending + [f] + s.stack
      && r.0.thread == s.thread && r.0.topContinuation == s.topContinuation
      && (r.1 == Success(true) <==> completion == s.topContinuation && |s.stack| > 0 && ClosesFrame(call, s.stack[0]))
      && (r.1 == Failure(NoSuchElement) <==> completion == s.topContinuation && s.stack == [])
      && (r.1.Success? || r.1 == Failure(NoSuchElement))
      && (r.1 == Success(true) ==>
            r.0.pending == [] && r.0.status == Suspended && r.0.topFrameCompletion == r.0.stack[0].id.value)
      && (r.1 != Success(true) ==>
            r.0.pending == s.pending + [f] && r.0.stack == s.stack
            && r.0.status == s.status && r.0.topFrameCompletion == s.topFrameCompletion)
  {
    var s1 := s.(pending := s.pending + [StackFrame(CompletionId(completion), call)]);
    if completion != s.topContinuation then (s1, Success(false))
    else if s.stack == [] then (s1, Failure(NoSuchElement))
    else if ClosesFrame(call, s.stack[0]) then (Commit(s1), Success(true))
    else (s1, Success(false))
  }

  /** `indexOfLast`: the last frame keyed by the completion `c`, or -1. */
  function LastCompletionIndex(st: seq<StackFrame>, c: Cont): (k: int)
    ensures -1 <= k < |st|
    ensures k >= 0 ==> st[k].id == CompletionId(c)
    ensures forall j :: k < j < |st| ==> st[j].id != CompletionId(c)
    decreases |st|
  {
    if st == [] then -1
    else if st[|st| - 1].id == CompletionId(c) then |st| - 1
    else LastCompletionIndex(st[..|st| - 1], c)
  }

  /** What `dropInplace(n)` leaves of a list. */
  function Dropped<T>(s: seq<T>, n: int): seq<T>
  {
    if n <= 0 then s else if n >= |s| then [] else s[n..]
  }

  /**
   * `handleDoResume`. The thread and status are set first. On an empty stack
   * the completion must be the initial one (otherwise `require` throws,
   * leaving thread and status changed); the entry frame is pushed and the
   * continuation is the new key. On a non-empty stack every frame up to and
   * including the last one keyed by `continuation` is dropped, and the
   * completion is the new key.
   */
  function AfterDoResume(s: StackState, initialCompletion: Cont, thread: ThreadId, completion: Cont, continuation: Cont, fn: MethodId): (r: (StackState, Result<Cont>))
    ensures r.0.thread == thread && r.0.status == Running && r.0.pending == s.pending
    ensures s.stack == [] ==>
      && (r.1.Success? <==> initialCompletion == completion)
      && (r.1.Failure? ==> r.1.error.IllegalArgument? && r.0.stack == [] && r.0.topContinuation == s.topContinuation)
      && (r.1.Success? ==> r.1.value == continuation && r.0.topContinuation == continuation && r.0.stack == [EntryFrame(continuation, fn)])
      && r.0.topFrameCompletion == s.topFrameCompletion
    ensures s.stack != [] ==>
      var d := |s.stack| - |r.0.stack|;
      && r.1 == Success(completion) && r.0.topFrameCompletion == completion && r.0.topContinuation == continuation
      && 0 <= d <= |s.stack| && r.0.stack == s.stack[d..]
      && (forall j :: d <= j < |s.stack| ==> s.stack[j].id != CompletionId(continuation))
      && (d > 0 ==> s.stack[d - 1].id == CompletionId(continuation))
  {
    var s1 := s.(thread := thread, status := Running);
    if s.stack == [] then
      if initialCompletion != completion then (s1, Failure(IllegalArgument("Failed requirement.")))
      else (s1.(topContinuation := continuation, stack := [EntryFrame(continuation, fn)]), Success(continuation))
    else
      var k := LastCompletionIndex(s.stack, continuation) + 1;
      (s1.(topContinuation := continuation, topFrameCompletion := completion, stack := Dropped(s.stack, k)), Success(completion))
  }

  /**
   * The shape every stack keeps: pending frames are keyed by completions; a
   * non-empty stack ends with the one entry frame keyed by a continuation and
   * all frames above it are keyed by completions.
   */
  predicate WellShaped(s: StackState)
  {
    && (forall i :: 0 <= i < |s.pending| ==> s.pending[i].id.CompletionId?)
    && (|s.stack| > 0 ==> s.stack[|s.stack| - 1].id.ContinuationId?)
    && (forall i :: 0 <= i < |s.stack| - 1 ==> s.stack[i].id.CompletionId?)
  }

  /** A suspend return keeps the shape, never empties the stack and never changes its bottom (entry) frame. */
  lemma SuspendReturnKeepsShape(s: StackState, completion: Cont, call: SuspendCall)
    requires WellShaped(s)
    ensures var t := AfterSuspendReturn(s, completion, call).0;
      && WellShaped(t)
      && |t.stack| >= |s.stack|
      && (|s.stack| > 0 ==> t.stack[|t.stack| - 1] == s.stack[|s.stack| - 1])
  {
    var r := AfterSuspendReturn(s, completion, call);
    var f := StackFrame(CompletionId(completion), call);
    var p := s.pending + [f];
    var t := r.0;
    CompletionFrameAppended(s.pending, f);
    if r.1 == Success(true) {
      assert t.pending == [] && t.stack == p + s.stack;
      FramesInFrontKeepShape(p, s.stack);
      assert WellShaped(t);
    } else {
      assert t.pending == p && t.stack == s.stack;
      assert WellShaped(t);
    }
  }

  /** A completion-keyed frame appended to completion-keyed frames. */
  lemma CompletionFrameAppended(pending: seq<StackFrame>, f: StackFrame)
    requires forall i :: 0 <= i < |pending| ==> pending[i].id.CompletionId?
    requires f.id.CompletionId?
    ensures var p := pending + [f];
      forall i :: 0 <= i < |p| ==> p[i].id.CompletionId?
  {
    var p := pending + [f];
    forall i | 0 <= i < |p| ensures p[i].id.CompletionId? {
      if i < |pending| { assert p[i] == pending[i]; }
    }
  }

  /** Completion-keyed frames put in front of a well-shaped stack keep it well shaped, with the same bottom frame. */
  lemma FramesInFrontKeepShape(p: seq<StackFrame>, st: seq<StackFrame>)
    requires forall i :: 0 <= i < |p| ==> p[i].id.CompletionId?
    requires |st| > 0 && st[|st| - 1].id.ContinuationId?
    requires forall i :: 0 <= i < |st| - 1 ==> st[i].id.CompletionId?
    ensures var u := p + st;
      && u[|u| - 1] == st[|st| - 1]
      && forall i :: 0 <= i < |u| - 1 ==> u[i].id.CompletionId?
  {
    var u := p + st;
    forall i | 0 <= i < |u| - 1 ensures u[i].id.CompletionId? {
      if i < |p| { assert u[i] == p[i]; } else { assert u[i] == st[i - |p|]; }
    }
  }

  /** A doResume keeps the shape; once the stack has frames it never becomes empty again, and its entry frame stays at the bottom. */
  lemma DoResumeKeepsShape(s: StackState, initialCompletion: Cont, thread: ThreadId, completion: Cont, continuation: Cont, fn: MethodId)
    requires WellShaped(s)
    ensures var t := AfterDoResume(s, initialCompletion, thread, completion, continuation, fn).0;
      && WellShaped(t)
      && (|s.stack| > 0 ==> |t.stack| > 0 && t.stack[|t.stack| - 1] == s.stack[|s.stack| - 1])
  {
    var t := AfterDoResume(s, initialCompletion, thread, completion, continuation, fn).0;
    if s.stack != [] {
      var d := |s.stack| - |t.stack|;
      forall i | 0 <= i < |t.stack| - 1 ensures t.stack[i].id.CompletionId? {
        assert t.stack[i] == s.stack[d + i];
      }
    }
  }

  /** After a doResume on a non-empty stack no remaining frame is keyed by the resumed continuation. */
  lemma DoResumeRemovesResumed(s: StackState, initialCompletion: Cont, thread: ThreadId, completion: Cont, continuation: Cont, fn: MethodId)
    requires s.stack != []
    ensures var t := AfterDoResume(s, initialCompletion, thread, completion, continuation, fn).0;
      forall i :: 0 <= i < |t.stack| ==> t.stack[i].id != CompletionId(continuation)
  {
    var t := AfterDoResume(s, initialCompletion, thread, completion, continuation, fn).0;
    var d := |s.stack| - |t.stack|;
    forall i | 0 <= i < |t.stack| ensures t.stack[i].id != CompletionId(continuation) {
      assert t.stack[i] == s.stack[d + i];
    }
  }

  /** `dropInplace(n)`: removes the first `n` elements, one at a time from the front. */
  method DropInplace<T>(list: seq<T>, n: int) returns (r: seq<T>)
    ensures n >= |list| ==> r == []
    ensures 0 <= n < |list| ==> r == list[n..] && list == list[..n] + r
    ensures n <= 0 ==> r == list
  {
    r := list;
    var resultSize := |r| - n;
    if resultSize <= 0 {
      r := [];
    } else {
      while |r| > resultSize
        invariant |r| <= |list| && (n >= 0 ==> resultSize <= |r|)
        invariant n < 0 ==> r == list
        invariant r == list[|list| - |r|..]
      {
        r := r[1..];
      }
    }
  }

  /** `CoroutineSnapshot`: what a stack shows of itself. */
  datatype CoroutineSnapshot = CoroutineSnapshot(
    name: string, context: WrappedContext, status: CoroutineStatus, thread: ThreadId, calls: seq<MethodCall>)

  // ---------------------------------------------------------------------------
  // The stack object

  class CoroutineStack {
    const initialCompletion: Cont
    const context: WrappedContext
    const name: string
    var thread: ThreadId
    var status: CoroutineStatus
    var topFrameCompletion: Cont
    var topContinuation: Cont
    var stack: seq<StackFrame>
    var unAppliedStack: seq<StackFrame>

    function State(): StackState
      reads this
    {
      StackState(thread, status, topFrameCompletion, topContinuation, stack, unAppliedStack)
    }

    ghost predicate Valid()
      reads this
    {
      WellShaped(State())
    }

    /** A new stack for the coroutine whose (wrapped) initial completion is `initialCompletion`, created on `thread`. */
    constructor (initialCompletion: Cont, context: WrappedContext, thread: ThreadId)
      ensures this.initialCompletion == initialCompletion && this.context == context && name == context.name
      ensures State() == InitialState(initialCompletion, thread) && Valid()
    {
      this.initialCompletion := initialCompletion;
      this.context := context;
      this.name := context.name;
      this.thread := thread;
      status := Created;
      topFrameCompletion := initialCompletion;
      topContinuation := initialCompletion;
      stack := [];
      unAppliedStack := [];
    }

    /** `getSnapshot`: name, context, status, thread, and the calls of the committed frames, top first. */
    function GetSnapshot(): (r: CoroutineSnapshot)
      reads this
      ensures r.name == name && r.context == context && r.status == status && r.thread == thread
      ensures |r.calls| == |stack| && forall i :: 0 <= i < |stack| ==> r.calls[i] == stack[i].call
    {
      CoroutineSnapshot(name, context, status, thread, seq(|stack|, i requires 0 <= i < |stack| reads this => stack[i].call))
    }

    method HandleSuspendFunctionReturn(completion: Cont, call: SuspendCall) returns (r: Result<bool>)
      modifies this
      ensures (State(), r) == AfterSuspendReturn(old(State()), completion, call)
      ensures old(Valid()) ==> Valid()
    {
      ghost var s0 := State();
      unAppliedStack := unAppliedStack + [StackFrame(CompletionId(completion), call)];
      if completion == topContinuation {
        if stack == [] {
          r := Failure(NoSuchElement);
        } else if ClosesFrame(call, stack[0]) {
          ApplyStack();
          r := Success(true);
        } else {
          r := Success(false);
        }
      } else {
        r := Success(false);
      }
      if WellShaped(s0) { SuspendReturnKeepsShape(s0, completion, call); }
    }

    method ApplyStack()
      requires |unAppliedStack| > 0
      modifies this
      ensures State() == Commit(old(State()))
    {
      status := Suspended;
      stack := unAppliedStack + stack;
      topFrameCompletion := stack[0].id.value;
      unAppliedStack := [];
    }

    method HandleDoResume(thread: ThreadId, completion: Cont, continuation: Cont, fn: MethodId) returns (key: Result<Cont>)
      modifies this
      ensures (State(), key) == AfterDoResume(old(State()), initialCompletion, thread, completion, continuation, fn)
      ensures old(Valid()) ==> Valid()
    {
      ghost var s0 := State();
      this.thread := thread;
      status := Running;
      if stack == [] {
        if initialCompletion != completion {
          key := Failure(IllegalArgument("Failed requirement."));
        } else {
          topContinuation := continuation;
          stack := [EntryFrame(continuation, fn)];
          key := Success(continuation);
        }
      } else {
        topContinuation := continuation;
        topFrameCompletion := completion;
        var framesToRemove := LastCompletionIndex(stack, continuation) + 1;
        stack := DropInplace(stack, framesToRemove);
        key := Success(completion);
      }
      ghost var step := AfterDoResume(s0, initialCompletion, thread, completion, continuation, fn);
      assert State() == step.0;
      if WellShaped(s0) { DoResumeKeepsShape(s0, initialCompletion, thread, completion, continuation, fn); }
    }
  }
}
