/**
 * The debug manager's registry of coroutine stacks (`StacksManager`). It
 * routes the three instrumentation events (coroutine created or exited,
 * suspend function returned, doResume entered) to the right stack, keeps the
 * per-thread list of running coroutines, and forgets stacks whose keys the
 * garbage collector reported.
 *
 * The current thread is a parameter; the keys the reference queue yields
 * are the `collected` parameter; the callbacks are an appended event log.
 */
module Registry {
  import opened Wrappers
  import opened CommonDataClasses
  import opened ManagerStack

  /** The four lifecycle notifications. */
  datatype StackChangedEvent = Created | Removed | Suspended | WakedUp

  /** One callback invocation: what happened to which coroutine. */
  datatype Event = Event(kind: StackChangedEvent, context: WrappedContext)

  // ---------------------------------------------------------------------------
  // List helpers

  /** The first position of `x` in `s`. */
  function FirstIndex<T(==)>(s: seq<T>, x: T): (i: nat)
    requires x in s
    ensures i < |s| && s[i] == x && x !in s[..i]
  {
    if s[0] == x then 0
    else
      var i := FirstIndex(s[1..], x) + 1;
      assert s[..i] == [s[0]] + s[1..][..i - 1];
      i
  }

  /** `MutableList.remove(x)`: the first occurrence of `x`, if any, is taken out. */
  function RemoveFirst<T(==)>(s: seq<T>, x: T): (r: seq<T>)
    ensures x !in s ==> r == s
    ensures x in s ==> r == s[..FirstIndex(s, x)] + s[FirstIndex(s, x) + 1..]
    ensures multiset(r) == multiset(s) - multiset{x}
    ensures forall y :: y in r ==> y in s
  {
    if x !in s then s
    else
      var i := FirstIndex(s, x);
      assert s == s[..i] + [x] + s[i + 1..];
      s[..i] + s[i + 1..]
  }

  /** `dropLastInplace`: removes the last element of a non-empty list; an empty list stays empty. */
  function DropLast<T>(s: seq<T>): (r: seq<T>)
    ensures |s| > 0 ==> r + [s[|s| - 1]] == s
    ensures s == [] ==> r == []
  {
    if |s| > 0 then s[..|s| - 1] else s
  }

  /** Dropping the last element undoes a push. */
  lemma DropLastUndoesPush<T>(s: seq<T>, x: T)
    ensures DropLast(s + [x]) == s
  {
    assert (s + [x])[..|s|] == s;
  }

  /** The wake-up case's push: add `x` unless it is already the last element. */
  function PushUnlessLast<T(==)>(s: seq<T>, x: T): (r: seq<T>)
    ensures |r| > 0 && r[|r| - 1] == x
    ensures r == s || r == s + [x]
    ensures r == s <==> |s| > 0 && s[|s| - 1] == x
  {
    if |s| > 0 && s[|s| - 1] == x then s else s + [x]
  }

  // ---------------------------------------------------------------------------
  // The tables and their cleanup

  /** The five tables of the registry. */
  datatype Tables = Tables(
    stacks: map<string, CoroutineStack>,
    topDoResume: map<Cont, CoroutineStack>,
    running: map<ThreadId, seq<CoroutineStack>>,
    initial: map<Cont, CoroutineStack>,
    ignore: set<Cont>)

  /** `runningOnThread.values.forEach { it.remove(stack) }`. */
  function RemoveEverywhere(running: map<ThreadId, seq<CoroutineStack>>, st: CoroutineStack): (r: map<ThreadId, seq<CoroutineStack>>)
    ensures r.Keys == running.Keys
    ensures forall th :: th in r ==> multiset(r[th]) == multiset(running[th]) - multiset{st}
    ensures forall th :: th in r ==> forall y :: y in r[th] ==> y in running[th]
  {
    map th | th in running :: RemoveFirst(running[th], st)
  }

  /**
   * `cleanup` of one collected key: nothing happens unless the key is a
   * top-doResume key; then its stack is forgotten under that key, its context,
   * its initial completion, on every thread (once), and the key leaves the
   * ignore set.
   */
  function Cleanup(t: Tables, k: Cont): (r: Tables)
    ensures k !in t.topDoResume ==> r == t
    ensures k in t.topDoResume ==>
      var st := t.topDoResume[k];
      && r.topDoResume == t.topDoResume - {k}
      && r.stacks == t.stacks - {st.context.name}
      && r.initial == t.initial - {st.initialCompletion}
      && r.ignore == t.ignore - {k}
      && r.running.Keys == t.running.Keys
      && (forall th :: th in r.running ==> multiset(r.running[th]) == multiset(t.running[th]) - multiset{st})
  {
    if k !in t.topDoResume then t
    else
      var st := t.topDoResume[k];
      Tables(t.stacks - {st.context.name}, t.topDoResume - {k}, RemoveEverywhere(t.running, st),
             t.initial - {st.initialCompletion}, t.ignore - {k})
  }

  /** Cleanup of every key the queue yields, in order. */
  function CleanupAll(t: Tables, collected: seq<Cont>): Tables
    decreases |collected|
  {
    if collected == [] then t
    else Cleanup(CleanupAll(t, collected[..|collected| - 1]), collected[|collected| - 1])
  }

  /** Draining the queue leaves none of the collected keys as a top-doResume key, and adds no key to any table. */
  lemma {:induction false} CleanupAllDrains(t: Tables, collected: seq<Cont>)
    ensures var r := CleanupAll(t, collected);
      && (forall i :: 0 <= i < |collected| ==> collected[i] !in r.topDoResume)
      && r.topDoResume.Keys <= t.topDoResume.Keys
      && r.stacks.Keys <= t.stacks.Keys
      && r.initial.Keys <= t.initial.Keys
      && r.ignore <= t.ignore
      && r.running.Keys == t.running.Keys
    decreases |collected|
  {
    if collected != [] {
      var front := collected[..|collected| - 1];
      CleanupAllDrains(t, front);
      forall i | 0 <= i < |collected| - 1 ensures collected[i] !in CleanupAll(t, collected).topDoResume {
        assert collected[i] == front[i];
      }
    }
  }

  /** A stack listed at most once on a thread is no longer listed there after its key is cleaned up. */
  lemma CleanupUnlistsStack(t: Tables, k: Cont, th: ThreadId)
    requires k in t.topDoResume && th in t.running
    requires multiset(t.running[th])[t.topDoResume[k]] <= 1
    ensures t.topDoResume[k] !in Cleanup(t, k).running[th]
  {
    var st := t.topDoResume[k];
    var r := Cleanup(t, k);
    assert multiset(r.running[th])[st] == 0;
  }

  // ---------------------------------------------------------------------------
  // The registry object

  class StacksManager {
    var stacks: map<string, CoroutineStack>
    var topDoResumeContinuation: map<Cont, CoroutineStack>
    var runningOnThread: map<ThreadId, seq<CoroutineStack>>
    var initialCompletion: map<Cont, CoroutineStack>
    var ignoreDoResumeWithCompletion: set<Cont>
    /** The callbacks fired so far, oldest first. */
    var events: seq<Event>
    /** The counter `wrap` numbers unnamed coroutines with. */
    var nextGeneratedId: int
    ghost var Repr: set<CoroutineStack>

    function State(): Tables
      reads this
    {
      Tables(stacks, topDoResumeContinuation, runningOnThread, initialCompletion, ignoreDoResumeWithCompletion)
    }

    /** Every stack the tables mention is one of the registry's, and every one of them is well shaped. */
    ghost predicate Valid()
      reads this, Repr
    {
      && stacks.Values <= Repr
      && topDoResumeContinuation.Values <= Repr
      && initialCompletion.Values <= Repr
      && (forall th, st :: th in runningOnThread && st in runningOnThread[th] ==> st in Repr)
      && (forall st :: st in Repr ==> st.Valid())
    }

    constructor ()
      ensures Valid() && Repr == {}
      ensures State() == Tables(map[], map[], map[], map[], {}) && events == [] && nextGeneratedId == 0
    {
      stacks := map[];
      topDoResumeContinuation := map[];
      runningOnThread := map[];
      initialCompletion := map[];
      ignoreDoResumeWithCompletion := {};
      events := [];
      nextGeneratedId := 0;
      Repr := {};
    }

    /** `coroutinesOnThread`: the stacks running on `thread`, innermost last; none for an unknown thread. */
    function CoroutinesOnThread(thread: ThreadId): (r: seq<CoroutineStack>)
      reads this
      ensures thread !in runningOnThread ==> r == []
      ensures thread in runningOnThread ==> r == runningOnThread[thread]
    {
      if thread in runningOnThread then runningOnThread[thread] else []
    }

    method CleanupKey(k: Cont)
      requires Valid()
      modifies this
      ensures Valid() && Repr == old(Repr)
      ensures State() == Cleanup(old(State()), k)
      ensures events == old(events) && nextGeneratedId == old(nextGeneratedId)
    {
      if k in topDoResumeContinuation {
        var st := topDoResumeContinuation[k];
        topDoResumeContinuation := topDoResumeContinuation - {k};
        stacks := stacks - {st.context.name};
        runningOnThread := RemoveEverywhere(runningOnThread, st);
        initialCompletion := initialCompletion - {st.initialCompletion};
        ignoreDoResumeWithCompletion := ignoreDoResumeWithCompletion - {k};
      }
    }

    /** `cleanupOutdatedStacks`: cleans up every key the reference queue yields, in order. */
    method CleanupOutdatedStacks(collected: seq<Cont>)
      requires Valid()
      modifies this
      ensures Valid() && Repr == old(Repr)
      ensures State() == CleanupAll(old(State()), collected)
      ensures events == old(events) && nextGeneratedId == old(nextGeneratedId)
    {
      var i := 0;
      while i < |collected|
        invariant 0 <= i <= |collected|
        invariant Valid() && Repr == old(Repr)
        invariant State() == CleanupAll(old(State()), collected[..i])
        invariant events == old(events) && nextGeneratedId == old(nextGeneratedId)
      {
        assert collected[..i + 1][..i] == collected[..i];
        CleanupKey(collected[i]);
        i := i + 1;
      }
      assert collected[..|collected|] == collected;
    }

    /**
     * `getSnapshot`: drains the queue, then lists the snapshot of every
     * remaining stack, one per context, in no particular order.
     */
    method GetSnapshot(collected: seq<Cont>) returns (r: seq<CoroutineSnapshot>)
      requires Valid()
      modifies this
      ensures Valid() && Repr == old(Repr)
      ensures State() == CleanupAll(old(State()), collected)
      ensures events == old(events) && nextGeneratedId == old(nextGeneratedId)
      ensures |r| == |stacks.Keys|
      ensures forall name :: name in stacks ==> stacks[name].GetSnapshot() in r
      ensures forall x :: x in r ==> exists name :: name in stacks && stacks[name].GetSnapshot() == x
    {
      CleanupOutdatedStacks(collected);
      ghost var order;
      r, order := Snapshots(stacks);
      forall x | x in r ensures exists name :: name in stacks && stacks[name].GetSnapshot() == x {
        var i :| 0 <= i < |r| && r[i] == x;
        assert order[i] in stacks && stacks[order[i]].GetSnapshot() == x;
      }
    }

    /** `stacks.values.map { it.getSnapshot() }`, with the order of the names it visited. */
    static method Snapshots(m: map<string, CoroutineStack>) returns (r: seq<CoroutineSnapshot>, ghost order: seq<string>)
      ensures |r| == |order| == |m.Keys|
      ensures forall i :: 0 <= i < |order| ==> order[i] in m && r[i] == m[order[i]].GetSnapshot()
      ensures forall name :: name in m ==> name in order && m[name].GetSnapshot() in r
    {
      var todo := m.Keys;
      r, order := [], [];
      while todo != {}
        invariant todo <= m.Keys
        invariant |r| == |order| && |todo| + |order| == |m.Keys|
        invariant forall i :: 0 <= i < |order| ==> order[i] in m && order[i] !in todo && r[i] == m[order[i]].GetSnapshot()
        invariant forall name :: name in m && name !in todo ==> name in order
        decreases |todo|
      {
        var name :| name in todo;
        r, order := r + [m[name].GetSnapshot()], order + [name];
        todo := todo - {name};
      }
      forall name | name in m ensures m[name].GetSnapshot() in r {
        var i :| 0 <= i < |order| && order[i] == name;
        assert r[i] == m[name].GetSnapshot();
      }
    }

    /** `ignoreNextDoResume`: the next doResume with this completion is skipped; the answer says whether it was not already marked. */
    method IgnoreNextDoResume(completion: Cont) returns (added: bool)
      requires Valid()
      modifies this
      ensures Valid() && Repr == old(Repr)
      ensures added == (completion !in old(ignoreDoResumeWithCompletion))
      ensures State() == old(State()).(ignore := old(ignoreDoResumeWithCompletion) + {completion})
      ensures events == old(events) && nextGeneratedId == old(nextGeneratedId)
    {
      added := completion !in ignoreDoResumeWithCompletion;
      ignoreDoResumeWithCompletion := ignoreDoResumeWithCompletion + {completion};
    }

    /** The registration part of `handleNewCoroutineCreated`: the stack is filed under its name and its initial completion, and the counter takes its advanced value. */
    method Register(st: CoroutineStack, nextId: int)
      requires Valid() && st.Valid()
      modifies this
      ensures Valid() && Repr == old(Repr) + {st}
      ensures State() == old(State()).(stacks := old(stacks)[st.context.name := st],
                                      initial := old(initialCompletion)[st.initialCompletion := st])
      ensures events == old(events) + [Event(StackChangedEvent.Created, st.context)]
      ensures nextGeneratedId == nextId
    {
      nextGeneratedId := nextId;
      stacks := stacks[st.context.name := st];
      initialCompletion := initialCompletion[st.initialCompletion := st];
      events := events + [Event(StackChangedEvent.Created, st.context)];
      Repr := Repr + {st};
    }

    /**
     * `handleNewCoroutineCreated`: after draining the queue, a new stack is
     * registered under its wrapped context's name and under its initial
     * completion, and exactly one Created event fires. The new stack is
     * returned as a ghost so that the contract can name it.
     */
    method HandleNewCoroutineCreated(wrappedCompletion: Cont, contextText: string, thread: ThreadId, collected: seq<Cont>)
      returns (ghost stack: CoroutineStack)
      requires Valid()
      modifies this
      ensures Valid() && Repr == old(Repr) + {stack} && fresh(stack)
      ensures var w := Wrap(contextText, old(nextGeneratedId));
        && stack.context == w.0 && nextGeneratedId == w.1
        && stack.initialCompletion == wrappedCompletion
        && stack.State() == InitialState(wrappedCompletion, thread)
      ensures var t := CleanupAll(old(State()), collected);
        State() == t.(stacks := t.stacks[stack.context.name := stack], initial := t.initial[wrappedCompletion := stack])
      ensures events == old(events) + [Event(StackChangedEvent.Created, stack.context)]
    {
      CleanupOutdatedStacks(collected);
      var w := Wrap(contextText, nextGeneratedId);
      var st := new CoroutineStack(wrappedCompletion, w.0, thread);
      Register(st, w.1);
      stack := st;
    }

    /**
     * `handleCoroutineExit`: the completion must be registered (`!!`);
     * its stack is forgotten under the completion and its context, is popped
     * from its thread's list only when it is the last element there, and a
     * Removed event fires.
     */
    method HandleCoroutineExit(wrappedCompletion: Cont) returns (r: Outcome)
      requires Valid()
      modifies this
      ensures Valid() && Repr == old(Repr)
      ensures wrappedCompletion !in old(initialCompletion) ==>
        r == Threw(NullPointer) && State() == old(State()) && events == old(events)
      ensures wrappedCompletion in old(initialCompletion) ==>
        var st := old(initialCompletion)[wrappedCompletion];
        var running := old(runningOnThread);
        && r == Normal
        && initialCompletion == old(initialCompletion) - {wrappedCompletion}
        && stacks == old(stacks) - {st.context.name}
        && topDoResumeContinuation == old(topDoResumeContinuation)
        && ignoreDoResumeWithCompletion == old(ignoreDoResumeWithCompletion)
        && runningOnThread ==
             (if st.thread in running && |running[st.thread]| > 0 && running[st.thread][|running[st.thread]| - 1] == st
              then running[st.thread := DropLast(running[st.thread])] else running)
        && events == old(events) + [Event(StackChangedEvent.Removed, st.context)]
      ensures nextGeneratedId == old(nextGeneratedId)
    {
      if wrappedCompletion !in initialCompletion {
        return Threw(NullPointer);
      }
      var st := initialCompletion[wrappedCompletion];
      initialCompletion := initialCompletion - {wrappedCompletion};
      stacks := stacks - {st.context.name};
      if st.thread in runningOnThread {
        var list := runningOnThread[st.thread];
        if |list| > 0 && list[|list| - 1] == st {
          runningOnThread := runningOnThread[st.thread := DropLast(list)];
        }
      }
      events := events + [Event(StackChangedEvent.Removed, st.context)];
      r := Normal;
    }

    /**
     * `handleAfterSuspendFunctionReturn` on `thread`: the thread must have a
     * list (`!!`) and it must be non-empty (`last()`); its last stack loses
     * its old top-frame key, and only when the suspend return commits is the
     * stack popped from the thread, keyed under its new top-frame completion,
     * and a Suspended event fired.
     */
    method HandleAfterSuspendFunctionReturn(thread: ThreadId, continuation: Cont, call: SuspendCall) returns (r: Outcome)
      requires Valid()
      modifies this, Repr
      ensures Valid() && Repr == old(Repr)
      ensures nextGeneratedId == old(nextGeneratedId)
      ensures initialCompletion == old(initialCompletion) && stacks == old(stacks)
      ensures ignoreDoResumeWithCompletion == old(ignoreDoResumeWithCompletion)
      ensures thread !in old(runningOnThread) ==>
        && r == Threw(NullPointer) && State() == old(State()) && events == old(events)
        && (forall o :: o in old(Repr) ==> o.State() == old(o.State()))
      ensures thread in old(runningOnThread) && old(runningOnThread)[thread] == [] ==>
        && r == Threw(NoSuchElement) && State() == old(State()) && events == old(events)
        && (forall o :: o in old(Repr) ==> o.State() == old(o.State()))
      ensures thread in old(runningOnThread) && old(runningOnThread)[thread] != [] ==>
        var list := old(runningOnThread)[thread];
        var st := list[|list| - 1];
        var step := AfterSuspendReturn(old(st.State()), continuation, call);
        var unkeyed := old(topDoResumeContinuation) - {old(st.topFrameCompletion)};
        && st.State() == step.0
        && (forall o :: o in old(Repr) && o != st ==> o.State() == old(o.State()))
        && (step.1.Failure? ==> r == Threw(step.1.error))
        && (step.1 != Success(true) ==>
              topDoResumeContinuation == unkeyed && runningOnThread == old(runningOnThread) && events == old(events))
        && (step.1 == Success(true) ==>
              && r == Normal
              && topDoResumeContinuation == unkeyed[st.topFrameCompletion := st]
              && runningOnThread == old(runningOnThread)[thread := DropLast(list)]
              && events == old(events) + [Event(StackChangedEvent.Suspended, st.context)])
        && (step.1 == Success(false) ==> r == Normal)
    {
      if thread !in runningOnThread {
        return Threw(NullPointer);
      }
      var list := runningOnThread[thread];
      if list == [] {
        return Threw(NoSuchElement);
      }
      var st := list[|list| - 1];
      var unkeyed := topDoResumeContinuation - {st.topFrameCompletion};
      assert st in Repr;
      var applied := st.HandleSuspendFunctionReturn(continuation, call);
      assert Valid();
      if applied.Failure? {
        SetTables(unkeyed, runningOnThread, events);
        return Threw(applied.error);
      }
      if applied.value {
        SetTables(unkeyed[st.topFrameCompletion := st], runningOnThread[thread := DropLast(list)],
                  events + [Event(StackChangedEvent.Suspended, st.context)]);
      } else {
        SetTables(unkeyed, runningOnThread, events);
      }
      r := Normal;
    }

    /**
     * `handleDoResumeEnter`. A completion marked to be ignored is unmarked
     * and nothing else happens. Otherwise a continuation that is a top-doResume
     * key wakes its coroutine up: the stack is re-keyed under what its
     * doResume returns, pushed on its thread unless already last, and WakedUp
     * fires unless it was already running. Otherwise a completion that is an
     * initial completion starts its coroutine's first lambda: the stack is
     * keyed and always pushed, with no event. Anything else is ignored.
     */
    method HandleDoResumeEnter(thread: ThreadId, completion: Cont, continuation: Cont, fn: MethodId) returns (r: Outcome)
      requires Valid()
      modifies this, Repr
      ensures Valid() && Repr == old(Repr)
      ensures nextGeneratedId == old(nextGeneratedId)
      ensures initialCompletion == old(initialCompletion) && stacks == old(stacks)
      ensures completion in old(ignoreDoResumeWithCompletion) ==>
        && r == Normal && events == old(events)
        && State() == old(State()).(ignore := old(ignoreDoResumeWithCompletion) - {completion})
        && (forall o :: o in old(Repr) ==> o.State() == old(o.State()))
      ensures completion !in old(ignoreDoResumeWithCompletion) ==> ignoreDoResumeWithCompletion == old(ignoreDoResumeWithCompletion)
      ensures completion !in old(ignoreDoResumeWithCompletion) && continuation in old(topDoResumeContinuation) ==>
        var it := old(topDoResumeContinuation)[continuation];
        var step := AfterDoResume(old(it.State()), it.initialCompletion, thread, completion, continuation, fn);
        var unkeyed := old(topDoResumeContinuation) - {continuation};
        var list := if thread in old(runningOnThread) then old(runningOnThread)[thread] else [];
        && it.State() == step.0
        && (forall o :: o in old(Repr) && o != it ==> o.State() == old(o.State()))
        && (step.1.Failure? ==>
              r == Threw(step.1.error) && topDoResumeContinuation == unkeyed
              && runningOnThread == old(runningOnThread) && events == old(events))
        && (step.1.Success? ==>
              && r == Normal
              && topDoResumeContinuation == unkeyed[step.1.value := it]
              && runningOnThread == old(runningOnThread)[thread := PushUnlessLast(list, it)]
              && events == old(events) + (if old(it.status) != Running then [Event(StackChangedEvent.WakedUp, it.context)] else []))
      ensures completion !in old(ignoreDoResumeWithCompletion) && continuation !in old(topDoResumeContinuation)
              && completion in old(initialCompletion) ==>
        var it := old(initialCompletion)[completion];
        var step := AfterDoResume(old(it.State()), it.initialCompletion, thread, completion, continuation, fn);
        var list := if thread in old(runningOnThread) then old(runningOnThread)[thread] else [];
        && it.State() == step.0 && events == old(events)
        && (forall o :: o in old(Repr) && o != it ==> o.State() == old(o.State()))
        && (step.1.Failure? ==>
              r == Threw(step.1.error) && topDoResumeContinuation == old(topDoResumeContinuation)
              && runningOnThread == old(runningOnThread))
        && (step.1.Success? ==>
              && r == Normal
              && topDoResumeContinuation == old(topDoResumeContinuation)[step.1.value := it]
              && runningOnThread == old(runningOnThread)[thread := list + [it]])
      ensures completion !in old(ignoreDoResumeWithCompletion) && continuation !in old(topDoResumeContinuation)
              && completion !in old(initialCompletion) ==>
        r == Normal && State() == old(State()) && events == old(events)
        && (forall o :: o in old(Repr) ==> o.State() == old(o.State()))
    {
      if completion in ignoreDoResumeWithCompletion {
        ignoreDoResumeWithCompletion := ignoreDoResumeWithCompletion - {completion};
        return Normal;
      }
      if continuation in topDoResumeContinuation {
        r := WakeUp(thread, completion, continuation, fn);
      } else if completion in initialCompletion {
        r := FirstLambda(thread, completion, continuation, fn);
      } else {
        r := Normal;
      }
    }

    /** Replaces the key and thread tables and the event log in one step. */
    method SetTables(top: map<Cont, CoroutineStack>, running: map<ThreadId, seq<CoroutineStack>>, log: seq<Event>)
      requires Valid() && top.Values <= Repr
      requires forall th, st :: th in running && st in running[th] ==> st in Repr
      modifies this
      ensures Valid() && Repr == old(Repr)
      ensures topDoResumeContinuation == top && runningOnThread == running && events == log
      ensures stacks == old(stacks) && initialCompletion == old(initialCompletion)
      ensures ignoreDoResumeWithCompletion == old(ignoreDoResumeWithCompletion) && nextGeneratedId == old(nextGeneratedId)
    {
      topDoResumeContinuation, runningOnThread, events := top, running, log;
    }

    /** The wake-up case of `handleDoResumeEnter`. */
    method WakeUp(thread: ThreadId, completion: Cont, continuation: Cont, fn: MethodId) returns (r: Outcome)
      requires Valid() && continuation in topDoResumeContinuation
      modifies this, Repr
      ensures Valid() && Repr == old(Repr)
      ensures nextGeneratedId == old(nextGeneratedId)
      ensures initialCompletion == old(initialCompletion) && stacks == old(stacks)
      ensures ignoreDoResumeWithCompletion == old(ignoreDoResumeWithCompletion)
      ensures
        var it := old(topDoResumeContinuation)[continuation];
        var step := AfterDoResume(old(it.State()), it.initialCompletion, thread, completion, continuation, fn);
        var unkeyed := old(topDoResumeContinuation) - {continuation};
        var list := if thread in old(runningOnThread) then old(runningOnThread)[thread] else [];
        && it.State() == step.0
        && (forall o :: o in old(Repr) && o != it ==> o.State() == old(o.State()))
        && (step.1.Failure? ==>
              r == Threw(step.1.error) && topDoResumeContinuation == unkeyed
              && runningOnThread == old(runningOnThread) && events == old(events))
        && (step.1.Success? ==>
              && r == Normal
              && topDoResumeContinuation == unkeyed[step.1.value := it]
              && runningOnThread == old(runningOnThread)[thread := PushUnlessLast(list, it)]
              && events == old(events) + (if old(it.status) != Running then [Event(StackChangedEvent.WakedUp, it.context)] else []))
    {
      var it := topDoResumeContinuation[continuation];
      assert it in Repr;
      var unkeyed := topDoResumeContinuation - {continuation};
      var previousStatus := it.status;
      var key := it.HandleDoResume(thread, completion, continuation, fn);
      assert Valid();
      if key.Failure? {
        SetTables(unkeyed, runningOnThread, events);
        return Threw(key.error);
      }
      var list := if thread in runningOnThread then runningOnThread[thread] else [];
      var log := if previousStatus != Running then events + [Event(StackChangedEvent.WakedUp, it.context)] else events;
      SetTables(unkeyed[key.value := it], runningOnThread[thread := PushUnlessLast(list, it)], log);
      r := Normal;
    }

    /** The first-lambda case of `handleDoResumeEnter`. */
    method FirstLambda(thread: ThreadId, completion: Cont, continuation: Cont, fn: MethodId) returns (r: Outcome)
      requires Valid() && completion in initialCompletion
      modifies this, Repr
      ensures Valid() && Repr == old(Repr)
      ensures nextGeneratedId == old(nextGeneratedId) && events == old(events)
      ensures initialCompletion == old(initialCompletion) && stacks == old(stacks)
      ensures ignoreDoResumeWithCompletion == old(ignoreDoResumeWithCompletion)
      ensures
        var it := old(initialCompletion)[completion];
        var step := AfterDoResume(old(it.State()), it.initialCompletion, thread, completion, continuation, fn);
        var list := if thread in old(runningOnThread) then old(runningOnThread)[thread] else [];
        && it.State() == step.0
        && (forall o :: o in old(Repr) && o != it ==> o.State() == old(o.State()))
        && (step.1.Failure? ==>
              r == Threw(step.1.error) && topDoResumeContinuation == old(topDoResumeContinuation)
              && runningOnThread == old(runningOnThread))
        && (step.1.Success? ==>
              && r == Normal
              && topDoResumeContinuation == old(topDoResumeContinuation)[step.1.value := it]
              && runningOnThread == old(runningOnThread)[thread := list + [it]])
    {
      var it := initialCompletion[completion];
      assert it in Repr;
      var key := it.HandleDoResume(thread, completion, continuation, fn);
      assert Valid();
      if key.Failure? {
        return Threw(key.error);
      }
      var list := if thread in runningOnThread then runningOnThread[thread] else [];
      SetTables(topDoResumeContinuation[key.value := it], runningOnThread[thread := list + [it]], events);
      r := Normal;
    }
  }
}
