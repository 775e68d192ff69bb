/**
 * The prototype agents' pairing of state-machine `doResume` methods with the
 * suspend functions they run, built class by class as methods are loaded.
 * The prototype library and the prototype agent carry the same code for
 * this; it is modelled once.
 *
 * A lambda's state machine is paired with itself. A named suspend function
 * waits in the unassigned set until the doResume that ends by calling it
 * is seen. The table of waiting doResumes is only ever removed from.
 */
module SuspendPairing {
  import opened Wrappers
  import opened Text
  import opened Bytecode
  import opened SuspendFunctions
  import TransformerUtils
  import CommonDataClasses

  datatype MethodNodeClassNode = MethodNodeClassNode(methodNode: MethodNode, classNode: ClassNode)

  datatype MethodNameOwnerDesc = MethodNameOwnerDesc(name: string, owner: string, desc: string)

  // ---------------------------------------------------------------------------
  // Method tests

  /** `isDoResume`: named doResume, exactly (Object, Throwable) arguments, Object result. */
  predicate IsDoResume(m: MethodNode)
  {
    m.name == "doResume" && m.desc.ret == OBJECT
    && |m.desc.args| == 2 && m.desc.args[0] == OBJECT && m.desc.args[1] == THROWABLE
  }

  /** The transformer's test is this one restricted to concrete methods. */
  lemma TransformerDoResumeIsConcrete(m: MethodNode)
    ensures TransformerUtils.IsDoResume(m) <==> IsDoResume(m) && !TransformerUtils.IsAbstract(m)
  {
    if IsDoResume(m) {
      assert m.desc.args == [OBJECT, THROWABLE];
    }
  }

  /** `lastIndexOf`: the last position holding `x`, or -1. */
  function LastIndexOf(args: seq<string>, x: string): (r: int)
    ensures -1 <= r < |args|
    ensures r >= 0 ==> args[r] == x && forall k :: r < k < |args| ==> args[k] != x
    ensures r == -1 <==> x !in args
    decreases |args|
  {
    if args == [] then -1
    else if args[|args| - 1] == x then |args| - 1
    else
      var r := LastIndexOf(args[..|args| - 1], x);
      assert forall k :: 0 <= k < |args| - 1 ==> args[k] == args[..|args| - 1][k];
      assert x in args ==> x in args[..|args| - 1] by {
        if x in args {
          var k :| 0 <= k < |args| && args[k] == x;
          assert args[..|args| - 1][k] == x;
        }
      }
      r
  }

  /**
   * `isSuspend` as the prototypes write it: arguments present, the last
   * Continuation at position `count - offset`, Object returned. When the
   * name ends in `$default` and there are exactly two arguments,
   * `count - offset` is -1 and equals the -1 of a missing Continuation.
   */
  predicate IsSuspendAsWritten(name: string, desc: MethodDesc)
  {
    |desc.args| > 0
    && LastIndexOf(desc.args, CONTINUATION) == |desc.args| - TransformerUtils.ContinuationOffsetFromEnd(name)
    && desc.ret == OBJECT
  }

  /** A `$default` shim with two int arguments and no Continuation passes the test as written. */
  lemma IsSuspendAsWrittenAcceptsNoContinuation()
    ensures var desc := MethodDesc(["I", "I"], OBJECT);
      IsSuspendAsWritten("f$default", desc) && CONTINUATION !in desc.args
  {
    var desc := MethodDesc(["I", "I"], OBJECT);
    assert EndsWith("f$default", "$default");
    assert LastIndexOf(desc.args, CONTINUATION) == -1;
  }

  /** `isSuspend` as intended: the Continuation position must be a real argument position. */
  predicate IsSuspend(name: string, desc: MethodDesc)
  {
    IsSuspendAsWritten(name, desc) && |desc.args| - TransformerUtils.ContinuationOffsetFromEnd(name) >= 0
  }

  /** The corrected test, spelled out: the Continuation at `count - offset` is the last one. */
  lemma IsSuspendMeans(name: string, desc: MethodDesc)
    ensures var idx := |desc.args| - TransformerUtils.ContinuationOffsetFromEnd(name);
      IsSuspend(name, desc) <==>
        && 0 <= idx < |desc.args| && desc.args[idx] == CONTINUATION
        && (forall k :: idx < k < |desc.args| ==> desc.args[k] != CONTINUATION)
        && desc.ret == OBJECT
  {
    var idx := |desc.args| - TransformerUtils.ContinuationOffsetFromEnd(name);
    if 0 <= idx < |desc.args| && desc.args[idx] == CONTINUATION
      && (forall k :: idx < k < |desc.args| ==> desc.args[k] != CONTINUATION) {
      var l := LastIndexOf(desc.args, CONTINUATION);
      assert l >= idx;
      assert l == idx;
    }
  }

  /** The test as written and the corrected one differ only on `$default` shims without a Continuation. */
  lemma IsSuspendAsWrittenOnlyExtra(name: string, desc: MethodDesc)
    ensures IsSuspend(name, desc) ==> IsSuspendAsWritten(name, desc)
    ensures IsSuspendAsWritten(name, desc) && !IsSuspend(name, desc) ==>
      EndsWith(name, "$default") && CONTINUATION !in desc.args && |desc.args| == 2
  {
    if IsSuspendAsWritten(name, desc) && !IsSuspend(name, desc) {
      var idx := |desc.args| - TransformerUtils.ContinuationOffsetFromEnd(name);
      assert LastIndexOf(desc.args, CONTINUATION) == idx;
      assert idx == -1;
    }
  }

  /** Every method the corrected test accepts, the transformer's test accepts too. */
  lemma IsSuspendImpliesTransformer(name: string, desc: MethodDesc)
    requires IsSuspend(name, desc)
    ensures TransformerUtils.IsSuspend(name, desc)
  {
    IsSuspendMeans(name, desc);
  }

  /**
   * `continuationVarIndex` as written: none for a method the test as written
   * rejects, otherwise `count - offset`. That is the last Continuation's
   * position, except for a two-argument `$default` shim without one, where
   * it is -1.
   */
  function ContinuationVarIndex(m: MethodNode): (r: Option<int>)
    ensures r.None? <==> !IsSuspendAsWritten(m.name, m.desc)
    ensures r.Some? ==> r.value == |m.desc.args| - TransformerUtils.ContinuationOffsetFromEnd(m.name)
    ensures r.Some? && r.value >= 0 ==>
      r.value < |m.desc.args| && m.desc.args[r.value] == CONTINUATION
      && forall k :: r.value < k < |m.desc.args| ==> m.desc.args[k] != CONTINUATION
    ensures r.Some? && r.value < 0 ==>
      r.value == -1 && CONTINUATION !in m.desc.args && EndsWith(m.name, "$default") && |m.desc.args| == 2
  {
    IsSuspendMeans(m.name, m.desc);
    IsSuspendAsWrittenOnlyExtra(m.name, m.desc);
    if !IsSuspendAsWritten(m.name, m.desc) then None
    else Some(|m.desc.args| - TransformerUtils.ContinuationOffsetFromEnd(m.name))
  }

  /** The `$default` shim of the finding above gets index -1 from `continuationVarIndex` as written. */
  lemma ContinuationVarIndexOfShim(m: MethodNode)
    requires m.name == "f$default" && m.desc == MethodDesc(["I", "I"], OBJECT)
    ensures ContinuationVarIndex(m) == Some(-1)
  {
    IsSuspendAsWrittenAcceptsNoContinuation();
  }

  /** `continuationVarIndex` with the corrected test: a real argument position holding the last Continuation, or none. */
  function ContinuationVarIndexFixed(m: MethodNode): (r: Option<int>)
    ensures r.None? <==> !IsSuspend(m.name, m.desc)
    ensures r.Some? ==>
      0 <= r.value < |m.desc.args| && m.desc.args[r.value] == CONTINUATION
      && forall k :: r.value < k < |m.desc.args| ==> m.desc.args[k] != CONTINUATION
  {
    IsSuspendMeans(m.name, m.desc);
    if !IsSuspend(m.name, m.desc) then None
    else Some(|m.desc.args| - TransformerUtils.ContinuationOffsetFromEnd(m.name))
  }

  /**
   * `isStateMachineForAnonymousSuspendFunction`: a doResume whose instructions
   * 0, 1, 5 and 6 are getCOROUTINE_SUSPENDED, a label, a read of `label`
   * and a table switch; `get(6)` fails on a shorter list.
   */
  function IsStateMachineForAnonymousSuspendFunction(m: MethodNode): (r: Result<bool>)
    ensures r.Failure? <==> IsDoResume(m) && |m.instructions| < 7
    ensures r.Failure? ==> r.error == IndexOutOfBounds
    ensures r == Success(true) ==> IsDoResume(m) && TransformerUtils.IsGetCoroutineSuspended(m.instructions[0])
  {
    if !IsDoResume(m) then Success(false)
    else if |m.instructions| < 7 then Failure(IndexOutOfBounds)
    else
      var insns := m.instructions;
      Success(TransformerUtils.IsGetCoroutineSuspended(insns[0]) && insns[1].Label?
        && insns[5].FieldInsn? && insns[5].name == "label" && insns[6].TableSwitch?)
  }

  /**
   * `correspondingSuspendFunctionForDoResume`: the doResume's next-to-last
   * instruction must be ARETURN and the one before it an INVOKESTATIC,
   * whose name, owner and descriptor are the result. A missing `last` or
   * `previous` node is a null dereference.
   */
  function CorrespondingSuspendFunctionForDoResume(m: MethodNode): (r: Result<MethodNameOwnerDesc>)
    ensures !IsDoResume(m) ==> r == Failure(IllegalArgument(m.name + " should be doResume function"))
    ensures IsDoResume(m) && |m.instructions| < 2 ==> r == Failure(NullPointer)
    ensures r.Success? <==>
      && IsDoResume(m) && |m.instructions| >= 3
      && var n := |m.instructions|;
      && m.instructions[n - 3].MethodInsn? && m.instructions[n - 3].opcode == INVOKESTATIC
      && m.instructions[n - 2] == InsnOp(ARETURN)
    ensures r.Success? ==>
      var call := m.instructions[|m.instructions| - 3];
      r.value == MethodNameOwnerDesc(call.name, call.owner, DescriptorString(call.desc))
    ensures IsDoResume(m) && |m.instructions| >= 2 && r.Failure? ==>
      r.error == IllegalArgument("Unexpected end instructions in " + m.name)
  {
    var insns := m.instructions;
    var n := |insns|;
    if !IsDoResume(m) then Failure(IllegalArgument(m.name + " should be doResume function"))
    else if n < 2 then Failure(NullPointer)
    else if n >= 3 && insns[n - 3].MethodInsn? && insns[n - 3].opcode == INVOKESTATIC
      && insns[n - 2].InsnOp? && insns[n - 2].opcode == ARETURN then
      var call := insns[n - 3];
      Success(MethodNameOwnerDesc(call.name, call.owner, DescriptorString(call.desc)))
    else Failure(IllegalArgument("Unexpected end instructions in " + m.name))
  }

  /**
   * When the doResume ends with a non-instruction node (a label, a line
   * number or a frame) after the ARETURN, the transformer's scan finds the
   * same call, with the owner in dotted form.
   */
  lemma PairingAgreesWithTransformer(m: MethodNode)
    requires CorrespondingSuspendFunctionForDoResume(m).Success?
    requires !TransformerUtils.IsAbstract(m)
    requires !TransformerUtils.IsMeaningful(m.instructions[|m.instructions| - 1])
    ensures var p := CorrespondingSuspendFunctionForDoResume(m).value;
      TransformerUtils.CorrespondingSuspendFunctionForDoResume(m) == Success(CommonDataClasses.Build(p.name, p.owner, p.desc))
  {
    var n := |m.instructions|;
    assert m.desc.args == [OBJECT, THROWABLE];
    assert m.instructions[n - 3].MethodInsn? && m.instructions[n - 2] == InsnOp(ARETURN);
    TransformerFindsCallBeforeReturn(m);
  }

  /** The transformer's scan on a doResume ending in a call, an ARETURN and one non-instruction node. */
  lemma TransformerFindsCallBeforeReturn(m: MethodNode)
    requires TransformerUtils.IsDoResume(m) && |m.instructions| >= 3
    requires var n := |m.instructions|;
      && m.instructions[n - 3].MethodInsn? && m.instructions[n - 2] == InsnOp(ARETURN)
      && !TransformerUtils.IsMeaningful(m.instructions[n - 1])
    ensures var c := m.instructions[|m.instructions| - 3];
      TransformerUtils.CorrespondingSuspendFunctionForDoResume(m) == Success(CommonDataClasses.Build(c.name, c.owner, DescriptorString(c.desc)))
  {
    var n := |m.instructions|;
    assert TransformerUtils.LastMeaningful(m.instructions) == Success(Some(n - 2));
    assert TransformerUtils.MeaningfulAtOrBefore(m.instructions, n - 3) == Some(n - 3);
  }

  // ---------------------------------------------------------------------------
  // The pairing tables

  datatype Tables = Tables(
    doResumeToSuspendFunction: map<MethodNodeClassNode, UserDefinedSuspendFunction>,
    unAssignedDoResumes: map<MethodNameOwnerDesc, MethodNodeClassNode>,
    unAssignedSuspendFunctions: seq<NamedFunction>)

  const EmptyTables := Tables(map[], map[], [])

  /** The key a named suspend function is looked up by. */
  function KeyOf(f: NamedFunction): MethodNameOwnerDesc
  {
    MethodNameOwnerDesc(f.methodNode.name, f.classNode.name, DescriptorString(f.methodNode.desc))
  }

  predicate NoDuplicates<T(==)>(s: seq<T>)
  {
    forall i, j :: 0 <= i < j < |s| ==> s[i] != s[j]
  }

  /** `find` over the insertion-ordered set: the first function with the key, or -1. */
  function FindMatch(s: seq<NamedFunction>, key: MethodNameOwnerDesc): (r: int)
    ensures -1 <= r < |s|
    ensures r == -1 <==> forall i :: 0 <= i < |s| ==> KeyOf(s[i]) != key
    ensures r >= 0 ==> KeyOf(s[r]) == key && forall i :: 0 <= i < r ==> KeyOf(s[i]) != key
    decreases |s|
  {
    if s == [] then -1
    else if KeyOf(s[0]) == key then 0
    else
      var k := FindMatch(s[1..], key);
      assert forall i :: 1 <= i < |s| ==> s[i] == s[1..][i - 1];
      if k == -1 then -1 else k + 1
  }

  function RemoveAt<T>(s: seq<T>, i: nat): seq<T>
    requires i < |s|
  {
    s[..i] + s[i + 1..]
  }

  /** The named-function branch applies: a method the test as written calls suspend, other than a lambda's `invoke` or `create`. */
  predicate IsNamedCandidate(m: MethodNode)
  {
    IsSuspendAsWritten(m.name, m.desc) && m.name != "invoke" && m.name != "create"
  }

  /** `updateDoResumeToSuspendFunctionMap` as a step on the tables. */
  function UpdateStep(t: Tables, m: MethodNode, c: ClassNode): (Tables, Outcome)
  {
    var sm := IsStateMachineForAnonymousSuspendFunction(m);
    var line := FirstLineNumber(m.instructions);
    if sm.Failure? then (t, Threw(sm.error))
    else if sm.value then
      (t.(doResumeToSuspendFunction := t.doResumeToSuspendFunction[MethodNodeClassNode(m, c) := AnonymousSuspendFunction(m, c, line)]),
       Normal)
    else if IsNamedCandidate(m) then
      var named: NamedFunction := NamedSuspendFunction(m, c, line);
      var key := KeyOf(named);
      if key in t.unAssignedDoResumes then
        (t.(unAssignedDoResumes := t.unAssignedDoResumes - {key},
            doResumeToSuspendFunction := t.doResumeToSuspendFunction[t.unAssignedDoResumes[key] := named]),
         Normal)
      else
        (t.(unAssignedSuspendFunctions :=
              if named in t.unAssignedSuspendFunctions then t.unAssignedSuspendFunctions
              else t.unAssignedSuspendFunctions + [named]),
         Normal)
    else if IsDoResume(m) then
      var mnod := CorrespondingSuspendFunctionForDoResume(m);
      if mnod.Failure? then (t, Threw(mnod.error))
      else
        var i := FindMatch(t.unAssignedSuspendFunctions, mnod.value);
        if i < 0 then (t, Normal)
        else
          (t.(doResumeToSuspendFunction := t.doResumeToSuspendFunction[MethodNodeClassNode(m, c) := t.unAssignedSuspendFunctions[i]],
              unAssignedSuspendFunctions := RemoveAt(t.unAssignedSuspendFunctions, i)),
           Normal)
    else (t, Normal)
  }

  /** What a recorded pairing means: a lambda's own state machine, or a doResume whose trailing call has the function's key. */
  predicate Paired(k: MethodNodeClassNode, f: UserDefinedSuspendFunction)
  {
    if f.AnonymousSuspendFunction? then
      f.methodNode == k.methodNode && f.classNode == k.classNode
      && IsStateMachineForAnonymousSuspendFunction(k.methodNode) == Success(true)
    else
      CorrespondingSuspendFunctionForDoResume(k.methodNode) == Success(KeyOf(f))
  }

  /**
   * The invariant of the tables: nothing waits in the doResume table, the
   * unassigned set holds each named suspend function once, and every
   * recorded pairing means what it says.
   */
  predicate ValidTables(t: Tables)
  {
    && t.unAssignedDoResumes == map[]
    && NoDuplicates(t.unAssignedSuspendFunctions)
    && (forall i :: 0 <= i < |t.unAssignedSuspendFunctions| ==> IsNamedCandidate(t.unAssignedSuspendFunctions[i].methodNode))
    && AllPaired(t.doResumeToSuspendFunction)
  }

  predicate AllPaired(d: map<MethodNodeClassNode, UserDefinedSuspendFunction>)
  {
    forall k :: k in d ==> Paired(k, d[k])
  }

  lemma EmptyTablesValid()
    ensures ValidTables(EmptyTables)
  {
  }

  /** The waiting-doResume table never gains a key. */
  lemma UpdateNeverQueuesDoResumes(t: Tables, m: MethodNode, c: ClassNode)
    ensures UpdateStep(t, m, c).0.unAssignedDoResumes.Keys <= t.unAssignedDoResumes.Keys
  {
  }

  lemma NoDuplicatesRemoveAt<T>(s: seq<T>, i: nat)
    requires i < |s| && NoDuplicates(s)
    ensures NoDuplicates(RemoveAt(s, i))
    ensures forall k :: 0 <= k < |RemoveAt(s, i)| ==> RemoveAt(s, i)[k] in s
  {
    var r := RemoveAt(s, i);
    assert forall k :: 0 <= k < |r| ==> r[k] == (if k < i then s[k] else s[k + 1]);
  }

  /** A state machine for a lambda is paired with itself. */
  lemma UpdateAnonymous(t: Tables, m: MethodNode, c: ClassNode)
    requires IsStateMachineForAnonymousSuspendFunction(m) == Success(true)
    ensures var r := UpdateStep(t, m, c);
      && r.1 == Normal
      && r.0.unAssignedSuspendFunctions == t.unAssignedSuspendFunctions
      && r.0.doResumeToSuspendFunction
        == t.doResumeToSuspendFunction[MethodNodeClassNode(m, c) := AnonymousSuspendFunction(m, c, FirstLineNumber(m.instructions))]
  {
  }

  /** A doResume is never itself taken for a suspend function: it has no Continuation argument. */
  lemma DoResumeIsNotSuspend(m: MethodNode)
    requires IsDoResume(m)
    ensures !IsSuspend(m.name, m.desc) && !IsSuspendAsWritten(m.name, m.desc)
  {
    assert m.desc.args == [OBJECT, THROWABLE];
    assert LastIndexOf(m.desc.args, CONTINUATION) == -1;
  }

  /** With no doResume waiting, a named suspend function joins the unassigned set, once. */
  lemma UpdateNamed(t: Tables, m: MethodNode, c: ClassNode)
    requires t.unAssignedDoResumes == map[]
    requires IsNamedCandidate(m)
    ensures var r := UpdateStep(t, m, c);
      var named := NamedSuspendFunction(m, c, FirstLineNumber(m.instructions));
      && r.1 == Normal
      && r.0.doResumeToSuspendFunction == t.doResumeToSuspendFunction
      && r.0.unAssignedDoResumes == map[]
      && r.0.unAssignedSuspendFunctions
        == (if named in t.unAssignedSuspendFunctions then t.unAssignedSuspendFunctions else t.unAssignedSuspendFunctions + [named])
  {
    if IsDoResume(m) {
      DoResumeIsNotSuspend(m);
    }
  }

  /** The `$default` shim without a Continuation is queued as a named suspend function, as the test as written lets it through. */
  lemma ShimIsQueued(t: Tables, m: MethodNode, c: ClassNode)
    requires t.unAssignedDoResumes == map[]
    requires m.name == "f$default" && m.desc == MethodDesc(["I", "I"], OBJECT)
    ensures NamedSuspendFunction(m, c, FirstLineNumber(m.instructions)) in UpdateStep(t, m, c).0.unAssignedSuspendFunctions
  {
    IsSuspendAsWrittenAcceptsNoContinuation();
    UpdateNamed(t, m, c);
    var named: NamedFunction := NamedSuspendFunction(m, c, FirstLineNumber(m.instructions));
    if named !in t.unAssignedSuspendFunctions {
      assert (t.unAssignedSuspendFunctions + [named])[|t.unAssignedSuspendFunctions|] == named;
    }
  }

  /**
   * A doResume that is neither a lambda's state machine nor a suspend
   * function takes the first unassigned function with its trailing call's
   * key out of the set and is paired with it; without one nothing changes.
   */
  lemma UpdateDoResume(t: Tables, m: MethodNode, c: ClassNode)
    requires IsStateMachineForAnonymousSuspendFunction(m) == Success(false)
    requires IsDoResume(m)
    ensures var r := UpdateStep(t, m, c);
      var mnod := CorrespondingSuspendFunctionForDoResume(m);
      && (mnod.Failure? ==> r == (t, Threw(mnod.error)))
      && (mnod.Success? && FindMatch(t.unAssignedSuspendFunctions, mnod.value) == -1 ==> r == (t, Normal))
      && (mnod.Success? && FindMatch(t.unAssignedSuspendFunctions, mnod.value) >= 0 ==>
            var i := FindMatch(t.unAssignedSuspendFunctions, mnod.value);
            && r.1 == Normal
            && r.0.unAssignedDoResumes == t.unAssignedDoResumes
            && r.0.doResumeToSuspendFunction
              == t.doResumeToSuspendFunction[MethodNodeClassNode(m, c) := t.unAssignedSuspendFunctions[i]]
            && r.0.unAssignedSuspendFunctions == RemoveAt(t.unAssignedSuspendFunctions, i))
  {
    DoResumeIsNotSuspend(m);
  }

  /** A new pairing that means what it says keeps every pairing meaningful. */
  lemma PairingsAfterInsert(d: map<MethodNodeClassNode, UserDefinedSuspendFunction>, k: MethodNodeClassNode, f: UserDefinedSuspendFunction)
    requires AllPaired(d)
    requires Paired(k, f)
    ensures AllPaired(d[k := f])
  {
  }

  /** Appending a named suspend function not yet in the set keeps the set valid. */
  lemma UnassignedAfterAppend(s: seq<NamedFunction>, f: NamedFunction)
    requires NoDuplicates(s) && f !in s
    requires forall i :: 0 <= i < |s| ==> IsNamedCandidate(s[i].methodNode)
    requires IsNamedCandidate(f.methodNode)
    ensures NoDuplicates(s + [f])
    ensures forall i :: 0 <= i < |s + [f]| ==> IsNamedCandidate((s + [f])[i].methodNode)
  {
    assert forall i :: 0 <= i < |s| ==> (s + [f])[i] == s[i];
  }

  /** Taking a function out of the set keeps the set valid. */
  lemma UnassignedAfterRemove(s: seq<NamedFunction>, i: nat)
    requires i < |s| && NoDuplicates(s)
    requires forall j :: 0 <= j < |s| ==> IsNamedCandidate(s[j].methodNode)
    ensures NoDuplicates(RemoveAt(s, i))
    ensures forall j :: 0 <= j < |RemoveAt(s, i)| ==> IsNamedCandidate(RemoveAt(s, i)[j].methodNode)
  {
    NoDuplicatesRemoveAt(s, i);
    var r := RemoveAt(s, i);
    forall k | 0 <= k < |r| ensures IsNamedCandidate(r[k].methodNode) {
      var j :| 0 <= j < |s| && s[j] == r[k];
    }
  }

  /** Every update keeps the invariant of the tables. */
  lemma UpdatePreservesValid(t: Tables, m: MethodNode, c: ClassNode)
    requires ValidTables(t)
    ensures ValidTables(UpdateStep(t, m, c).0)
  {
    var sm := IsStateMachineForAnonymousSuspendFunction(m);
    if sm.Success? && sm.value {
      UpdateAnonymous(t, m, c);
      PairingsAfterInsert(t.doResumeToSuspendFunction, MethodNodeClassNode(m, c), AnonymousSuspendFunction(m, c, FirstLineNumber(m.instructions)));
    } else if sm.Success? && IsNamedCandidate(m) {
      UpdateNamed(t, m, c);
      var named := NamedSuspendFunction(m, c, FirstLineNumber(m.instructions));
      if named !in t.unAssignedSuspendFunctions {
        UnassignedAfterAppend(t.unAssignedSuspendFunctions, named);
      }
    } else if sm.Success? && IsDoResume(m) {
      UpdateDoResume(t, m, c);
      var mnod := CorrespondingSuspendFunctionForDoResume(m);
      if mnod.Success? {
        var i := FindMatch(t.unAssignedSuspendFunctions, mnod.value);
        if i >= 0 {
          UnassignedAfterRemove(t.unAssignedSuspendFunctions, i);
          PairingsAfterInsert(t.doResumeToSuspendFunction, MethodNodeClassNode(m, c), t.unAssignedSuspendFunctions[i]);
        }
      }
    }
  }

  /** A function appended under a key no earlier entry has is the first match for it. */
  lemma {:induction false} FindMatchAppended(s: seq<NamedFunction>, f: NamedFunction)
    requires forall i :: 0 <= i < |s| ==> KeyOf(s[i]) != KeyOf(f)
    ensures FindMatch(s + [f], KeyOf(f)) == |s|
    decreases |s|
  {
    if s != [] {
      assert (s + [f])[1..] == s[1..] + [f];
      assert forall i :: 0 <= i < |s[1..]| ==> s[1..][i] == s[i + 1];
      FindMatchAppended(s[1..], f);
    }
  }

  lemma RemoveAppended<T>(s: seq<T>, x: T)
    ensures RemoveAt(s + [x], |s|) == s
  {
    assert (s + [x])[..|s|] == s;
  }

  /**
   * A named suspend function seen before its doResume is paired with it:
   * the doResume's entry is the function, and the unassigned set is back to
   * what it was.
   */
  lemma NamedThenDoResumePairs(t: Tables, s: MethodNode, sc: ClassNode, d: MethodNode, dc: ClassNode)
    requires t.unAssignedDoResumes == map[]
    requires IsNamedCandidate(s)
    requires var key := MethodNameOwnerDesc(s.name, sc.name, DescriptorString(s.desc));
      forall i :: 0 <= i < |t.unAssignedSuspendFunctions| ==> KeyOf(t.unAssignedSuspendFunctions[i]) != key
    requires IsStateMachineForAnonymousSuspendFunction(d) == Success(false)
    requires CorrespondingSuspendFunctionForDoResume(d) == Success(MethodNameOwnerDesc(s.name, sc.name, DescriptorString(s.desc)))
    ensures var t2 := UpdateStep(UpdateStep(t, s, sc).0, d, dc).0;
      && MethodNodeClassNode(d, dc) in t2.doResumeToSuspendFunction
      && t2.doResumeToSuspendFunction[MethodNodeClassNode(d, dc)] == NamedSuspendFunction(s, sc, FirstLineNumber(s.instructions))
      && t2.unAssignedSuspendFunctions == t.unAssignedSuspendFunctions
  {
    var named: NamedFunction := NamedSuspendFunction(s, sc, FirstLineNumber(s.instructions));
    var u := t.unAssignedSuspendFunctions;
    assert named !in u;
    UpdateNamed(t, s, sc);
    var t1 := UpdateStep(t, s, sc).0;
    assert t1 == t.(unAssignedSuspendFunctions := u + [named]);
    FindMatchAppended(u, named);
    RemoveAppended(u, named);
    UpdateDoResume(t1, d, dc);
  }

  /**
   * A doResume seen before its named suspend function is not queued: the
   * tables do not change, so the two are never paired.
   */
  lemma DoResumeFirstIsDropped(t: Tables, d: MethodNode, dc: ClassNode)
    requires IsStateMachineForAnonymousSuspendFunction(d) == Success(false)
    requires CorrespondingSuspendFunctionForDoResume(d).Success?
    requires forall i :: 0 <= i < |t.unAssignedSuspendFunctions| ==>
      KeyOf(t.unAssignedSuspendFunctions[i]) != CorrespondingSuspendFunctionForDoResume(d).value
    ensures UpdateStep(t, d, dc) == (t, Normal)
  {
    UpdateDoResume(t, d, dc);
  }

  /** The global tables of one agent. */
  class PairingTables {
    var doResumeToSuspendFunction: map<MethodNodeClassNode, UserDefinedSuspendFunction>
    var unAssignedDoResumes: map<MethodNameOwnerDesc, MethodNodeClassNode>
    var unAssignedSuspendFunctions: seq<NamedFunction>

    function State(): Tables
      reads this
    {
      Tables(doResumeToSuspendFunction, unAssignedDoResumes, unAssignedSuspendFunctions)
    }

    ghost predicate Valid()
      reads this
    {
      ValidTables(State())
    }

    constructor()
      ensures State() == EmptyTables && Valid()
    {
      doResumeToSuspendFunction := map[];
      unAssignedDoResumes := map[];
      unAssignedSuspendFunctions := [];
    }

    /** `updateDoResumeToSuspendFunctionMap(method, classNode)`. */
    method UpdateDoResumeToSuspendFunctionMap(m: MethodNode, c: ClassNode) returns (r: Outcome)
      modifies this
      ensures (State(), r) == UpdateStep(old(State()), m, c)
      ensures old(Valid()) ==> Valid()
    {
      if Valid() {
        UpdatePreservesValid(State(), m, c);
      }
      var sm := IsStateMachineForAnonymousSuspendFunction(m);
      if sm.Failure? {
        return Threw(sm.error);
      }
      if sm.value {
        var anonymous := AnonymousSuspendFunction(m, c, FirstLineNumber(m.instructions));
        doResumeToSuspendFunction := doResumeToSuspendFunction[MethodNodeClassNode(m, c) := anonymous];
      } else if IsNamedCandidate(m) {
        var named: NamedFunction := NamedSuspendFunction(m, c, FirstLineNumber(m.instructions));
        var key := KeyOf(named);
        if key in unAssignedDoResumes {
          var doResume := unAssignedDoResumes[key];
          unAssignedDoResumes := unAssignedDoResumes - {key};
          doResumeToSuspendFunction := doResumeToSuspendFunction[doResume := named];
        } else if named !in unAssignedSuspendFunctions {
          unAssignedSuspendFunctions := unAssignedSuspendFunctions + [named];
        }
      } else if IsDoResume(m) {
        var mnod := CorrespondingSuspendFunctionForDoResume(m);
        if mnod.Failure? {
          return Threw(mnod.error);
        }
        var i := FindMatch(unAssignedSuspendFunctions, mnod.value);
        if i >= 0 {
          doResumeToSuspendFunction := doResumeToSuspendFunction[MethodNodeClassNode(m, c) := unAssignedSuspendFunctions[i]];
          unAssignedSuspendFunctions := RemoveAt(unAssignedSuspendFunctions, i);
        }
      }
      return Normal;
    }
  }
}
