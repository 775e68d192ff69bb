/**
 * The instruction-list scans of the bytecode transformer: meaningful
 * instructions, the coroutine state-machine prologue, the doResume method's
 * trailing call, suspend-method descriptors, and the mapping from each call
 * to the line number it belongs to.
 *
 * A node reference is an index into the method's instruction list; a
 * nullable reference is an `Option<nat>`.
 */
module TransformerUtils {
  import opened Wrappers
  import opened Text
  import opened CommonDataClasses
  import opened Bytecode

  const INTRINSICS_OWNER := "kotlin/coroutines/experimental/intrinsics/IntrinsicsKt"

  // ---------------------------------------------------------------------------
  // Single-instruction tests

  /** A call of `IntrinsicsKt.getCOROUTINE_SUSPENDED()`. */
  predicate IsGetCoroutineSuspended(i: Insn)
  {
    i.MethodInsn? && i.name == "getCOROUTINE_SUSPENDED" && i.owner == INTRINSICS_OWNER
    && DescriptorString(i.desc) == "()" + OBJECT
  }

  /** A read of the state machine's `label` field (the source tests GETFIELD twice). */
  predicate IsGetLabel(i: Insn)
  {
    i.FieldInsn? && i.opcode == GETFIELD && i.name == "label"
  }

  predicate IsAReturn(i: Insn) { Opcode(i) == ARETURN }

  predicate IsAStore(i: Insn) { Opcode(i) == ASTORE }

  /** `isALOAD(operand)`: with an operand, the loaded variable must be that one. */
  predicate IsALoad(i: Insn, operand: Option<int>)
  {
    Opcode(i) == ALOAD && (operand.None? || (i.VarInsn? && i.varIndex == operand.value))
  }

  /** The tests the state-machine prologue chains, one per `nextMatches` lambda. */
  datatype Expect = ExpectAStore | ExpectALoad | ExpectGetLabel | ExpectTableSwitch

  predicate Holds(e: Expect, i: Insn)
  {
    match e
    case ExpectAStore => IsAStore(i)
    case ExpectALoad => IsALoad(i, None)
    case ExpectGetLabel => IsGetLabel(i)
    case ExpectTableSwitch => i.TableSwitch?
  }

  /** Labels, line numbers and frames are bookkeeping, everything else is an instruction. */
  predicate IsMeaningful(i: Insn)
  {
    !(i.Label? || i.LineNumber? || i.Frame?)
  }

  // ---------------------------------------------------------------------------
  // Meaningful neighbours

  /** The first meaningful index at or after `j`. */
  function MeaningfulAtOrAfter(insns: seq<Insn>, j: nat): (r: Option<nat>)
    requires j <= |insns|
    ensures r.Some? ==> j <= r.value < |insns| && IsMeaningful(insns[r.value])
    ensures forall k :: j <= k < |insns| && (r.None? || k < r.value) ==> !IsMeaningful(insns[k])
    decreases |insns| - j
  {
    if j == |insns| then None
    else if IsMeaningful(insns[j]) then Some(j)
    else MeaningfulAtOrAfter(insns, j + 1)
  }

  /** The last meaningful index at or before `j` (`j` may be -1). */
  function MeaningfulAtOrBefore(insns: seq<Insn>, j: int): (r: Option<nat>)
    requires -1 <= j < |insns|
    ensures r.Some? ==> r.value <= j && IsMeaningful(insns[r.value])
    ensures forall k :: 0 <= k <= j && (r.None? || r.value < k) ==> !IsMeaningful(insns[k])
    decreases j + 1
  {
    if j < 0 then None
    else if IsMeaningful(insns[j]) then Some(j)
    else MeaningfulAtOrBefore(insns, j - 1)
  }

  /** `nextMeaningful`: walks forward from the following node while it is not meaningful. */
  method NextMeaningful(insns: seq<Insn>, at: nat) returns (r: Option<nat>)
    requires at < |insns|
    ensures r == MeaningfulAtOrAfter(insns, at + 1)
  {
    var cur := at + 1;
    while cur < |insns| && !IsMeaningful(insns[cur])
      invariant at + 1 <= cur <= |insns|
      invariant MeaningfulAtOrAfter(insns, cur) == MeaningfulAtOrAfter(insns, at + 1)
    {
      cur := cur + 1;
    }
    r := if cur < |insns| then Some(cur) else None;
  }

  /** `previousMeaningful`: walks backward from the preceding node while it is not meaningful. */
  method PreviousMeaningful(insns: seq<Insn>, at: nat) returns (r: Option<nat>)
    requires at < |insns|
    ensures r == MeaningfulAtOrBefore(insns, at - 1)
  {
    var cur: int := at - 1;
    while cur >= 0 && !IsMeaningful(insns[cur])
      invariant -1 <= cur < at
      invariant MeaningfulAtOrBefore(insns, cur) == MeaningfulAtOrBefore(insns, at - 1)
    {
      cur := cur - 1;
    }
    r := if cur >= 0 then Some(cur as nat) else None;
  }

  /** Reference definition: the indices of all meaningful instructions from `j` on, in order. */
  function MeaningfulFrom(insns: seq<Insn>, j: nat): (r: seq<nat>)
    requires j <= |insns|
    ensures forall a :: 0 <= a < |r| ==> j <= r[a] < |insns| && IsMeaningful(insns[r[a]])
    decreases |insns| - j
  {
    if j == |insns| then []
    else
      var rest := MeaningfulFrom(insns, j + 1);
      if IsMeaningful(insns[j]) then
        assert forall a :: 1 <= a < |rest| + 1 ==> ([j] + rest)[a] == rest[a - 1];
        [j] + rest
      else rest
  }

  /** The filtered list is increasing and misses no meaningful instruction. */
  lemma {:induction false} MeaningfulFromComplete(insns: seq<Insn>, j: nat)
    requires j <= |insns|
    ensures var r := MeaningfulFrom(insns, j);
      && (forall a, b :: 0 <= a < b < |r| ==> r[a] < r[b])
      && (forall k :: j <= k < |insns| && IsMeaningful(insns[k]) ==> k in r)
  {
    MeaningfulFromSorted(insns, j);
    MeaningfulFromCovers(insns, j);
    assert Increasing(MeaningfulFrom(insns, j));
  }

  predicate Increasing(s: seq<nat>)
  {
    forall a, b :: 0 <= a < b < |s| ==> s[a] < s[b]
  }

  lemma {:induction false} MeaningfulFromSorted(insns: seq<Insn>, j: nat)
    requires j <= |insns|
    ensures Increasing(MeaningfulFrom(insns, j))
    decreases |insns| - j
  {
    if j < |insns| {
      MeaningfulFromSorted(insns, j + 1);
      var rest := MeaningfulFrom(insns, j + 1);
      if IsMeaningful(insns[j]) {
        var r := [j] + rest;
        assert MeaningfulFrom(insns, j) == r;
        forall a, b | 0 <= a < b < |r| ensures r[a] < r[b] {
          assert r[b] == rest[b - 1] && j + 1 <= rest[b - 1];
          if a > 0 { assert r[a] == rest[a - 1]; }
        }
      }
    }
  }

  lemma {:induction false} MeaningfulFromCovers(insns: seq<Insn>, j: nat)
    requires j <= |insns|
    ensures forall k :: j <= k < |insns| && IsMeaningful(insns[k]) ==> k in MeaningfulFrom(insns, j)
    decreases |insns| - j
  {
    if j < |insns| {
      MeaningfulFromCovers(insns, j + 1);
    }
  }

  /** The next meaningful instruction is the head of the filtered list, and stepping past it leaves its tail. */
  lemma {:induction false} NextIsFilterHead(insns: seq<Insn>, j: nat)
    requires j <= |insns|
    ensures var f := MeaningfulFrom(insns, j);
      && MeaningfulAtOrAfter(insns, j) == (if f == [] then None else Some(f[0]))
      && (f != [] ==> f[0] < |insns| && MeaningfulFrom(insns, f[0] + 1) == f[1..])
    decreases |insns| - j
  {
    if j < |insns| && !IsMeaningful(insns[j]) {
      NextIsFilterHead(insns, j + 1);
    }
  }

  // ---------------------------------------------------------------------------
  // The state-machine prologue

  /** `nextMatches`: the next meaningful instruction after a (nullable) node, if it satisfies `p`. */
  function NextMatches(insns: seq<Insn>, at: Option<nat>, e: Expect): (r: Option<nat>)
    requires at.Some? ==> at.value < |insns|
    ensures r.Some? ==> r.value < |insns| && Holds(e, insns[r.value])
  {
    if at.None? then None
    else
      var n := MeaningfulAtOrAfter(insns, at.value + 1);
      if n.Some? && Holds(e, insns[n.value]) then n else None
  }

  /**
   * `isStateMachineStartsHere`: the node is getCOROUTINE_SUSPENDED, then
   * ASTORE, ALOAD, GETFIELD label and TABLESWITCH follow meaningfully.
   */
  predicate IsStateMachineStartsHere(insns: seq<Insn>, at: Option<nat>)
    requires at.Some? ==> at.value < |insns|
  {
    && at.Some? && IsGetCoroutineSuspended(insns[at.value])
    && NextMatches(insns,
         NextMatches(insns,
           NextMatches(insns,
             NextMatches(insns, at, ExpectAStore),
             ExpectALoad),
           ExpectGetLabel),
         ExpectTableSwitch).Some?
  }

  /** One `nextMatches` step, read on the filtered list. */
  lemma NextMatchesOnFilter(insns: seq<Insn>, at: nat, e: Expect)
    requires at < |insns|
    ensures var f := MeaningfulFrom(insns, at + 1);
      NextMatches(insns, Some(at), e) == (if f != [] && Holds(e, insns[f[0]]) then Some(f[0]) else None)
  {
    NextIsFilterHead(insns, at + 1);
  }

  /** `nextMatches` applied once per test, in order. */
  function Chain(insns: seq<Insn>, at: Option<nat>, es: seq<Expect>): (r: Option<nat>)
    requires at.Some? ==> at.value < |insns|
    ensures r.Some? ==> r.value < |insns|
    decreases |es|
  {
    if es == [] then at else Chain(insns, NextMatches(insns, at, es[0]), es[1..])
  }

  /** The prologue's tests, in order. */
  const PROLOGUE := [ExpectAStore, ExpectALoad, ExpectGetLabel, ExpectTableSwitch]

  /** The first `|es|` filtered indices pass the tests one by one. */
  predicate FilterPasses(insns: seq<Insn>, f: seq<nat>, es: seq<Expect>)
  {
    |f| >= |es| && forall k :: 0 <= k < |es| ==> f[k] < |insns| && Holds(es[k], insns[f[k]])
  }

  /** Passing a non-empty list of tests is passing the first one and then the rest. */
  lemma FilterPassesCons(insns: seq<Insn>, f: seq<nat>, es: seq<Expect>)
    requires f != [] && es != []
    ensures FilterPasses(insns, f, es) <==>
      f[0] < |insns| && Holds(es[0], insns[f[0]]) && FilterPasses(insns, f[1..], es[1..])
  {
    if f[0] < |insns| && Holds(es[0], insns[f[0]]) && FilterPasses(insns, f[1..], es[1..]) {
      forall k | 0 <= k < |es| ensures f[k] < |insns| && Holds(es[k], insns[f[k]]) {
        if k > 0 { assert f[k] == f[1..][k - 1] && es[k] == es[1..][k - 1]; }
      }
    }
    if FilterPasses(insns, f, es) {
      forall k | 0 <= k < |es[1..]| ensures f[1..][k] < |insns| && Holds(es[1..][k], insns[f[1..][k]]) {
        assert f[1..][k] == f[k + 1] && es[1..][k] == es[k + 1];
      }
    }
  }

  lemma {:induction false} ChainOfNone(insns: seq<Insn>, es: seq<Expect>)
    ensures Chain(insns, None, es) == None
    decreases |es|
  {
    if es != [] {
      ChainOfNone(insns, es[1..]);
    }
  }

  /** The chained steps succeed exactly when the filtered list passes the tests. */
  lemma {:induction false} ChainOnFilter(insns: seq<Insn>, i: nat, es: seq<Expect>)
    requires i < |insns|
    ensures Chain(insns, Some(i), es).Some? <==> FilterPasses(insns, MeaningfulFrom(insns, i + 1), es)
    decreases |es|
  {
    if es != [] {
      var f := MeaningfulFrom(insns, i + 1);
      NextMatchesOnFilter(insns, i, es[0]);
      if f != [] && Holds(es[0], insns[f[0]]) {
        ChainStep(insns, i, es);
      } else {
        ChainStop(insns, i, es);
      }
    }
  }

  lemma ChainStep(insns: seq<Insn>, i: nat, es: seq<Expect>)
    requires i < |insns| && es != []
    requires var f := MeaningfulFrom(insns, i + 1); f != [] && Holds(es[0], insns[f[0]])
    ensures Chain(insns, Some(i), es).Some? <==> FilterPasses(insns, MeaningfulFrom(insns, i + 1), es)
    decreases |es|, 0
  {
    var f := MeaningfulFrom(insns, i + 1);
    NextMatchesOnFilter(insns, i, es[0]);
    NextIsFilterHead(insns, i + 1);
    assert Chain(insns, Some(i), es) == Chain(insns, Some(f[0]), es[1..]);
    ChainOnFilter(insns, f[0], es[1..]);
    FilterPassesCons(insns, f, es);
  }

  lemma ChainStop(insns: seq<Insn>, i: nat, es: seq<Expect>)
    requires i < |insns| && es != []
    requires var f := MeaningfulFrom(insns, i + 1); !(f != [] && Holds(es[0], insns[f[0]]))
    ensures Chain(insns, Some(i), es) == None && !FilterPasses(insns, MeaningfulFrom(insns, i + 1), es)
  {
    var f := MeaningfulFrom(insns, i + 1);
    NextMatchesOnFilter(insns, i, es[0]);
    assert Chain(insns, Some(i), es) == Chain(insns, None, es[1..]);
    ChainOfNone(insns, es[1..]);
    if f != [] { FilterPassesCons(insns, f, es); }
  }

  /** The nested `nextMatches` calls of the prologue test are the chain of its four tests. */
  lemma NestedIsChain(insns: seq<Insn>, i: nat)
    requires i < |insns|
    ensures var a := NextMatches(insns, Some(i), ExpectAStore);
      var b := NextMatches(insns, a, ExpectALoad);
      var c := NextMatches(insns, b, ExpectGetLabel);
      NextMatches(insns, c, ExpectTableSwitch) == Chain(insns, Some(i), PROLOGUE)
  {
    var a := NextMatches(insns, Some(i), ExpectAStore);
    var b := NextMatches(insns, a, ExpectALoad);
    var c := NextMatches(insns, b, ExpectGetLabel);
    var d := NextMatches(insns, c, ExpectTableSwitch);
    assert PROLOGUE[1..] == [ExpectALoad, ExpectGetLabel, ExpectTableSwitch];
    assert PROLOGUE[1..][1..] == [ExpectGetLabel, ExpectTableSwitch];
    assert PROLOGUE[1..][1..][1..] == [ExpectTableSwitch];
    assert Chain(insns, Some(i), PROLOGUE) == Chain(insns, a, PROLOGUE[1..]);
    assert Chain(insns, a, PROLOGUE[1..]) == Chain(insns, b, PROLOGUE[1..][1..]);
    assert Chain(insns, b, PROLOGUE[1..][1..]) == Chain(insns, c, PROLOGUE[1..][1..][1..]);
    assert Chain(insns, c, [ExpectTableSwitch]) == Chain(insns, d, []);
  }

  /**
   * The prologue test, read on the filtered list: the node is
   * getCOROUTINE_SUSPENDED and the four meaningful instructions after it are
   * ASTORE, ALOAD, GETFIELD label and TABLESWITCH.
   */
  lemma StateMachinePrologue(insns: seq<Insn>, i: nat)
    requires i < |insns|
    ensures IsStateMachineStartsHere(insns, Some(i)) <==>
      && IsGetCoroutineSuspended(insns[i])
      && var f := MeaningfulFrom(insns, i + 1);
      && |f| >= 4
      && IsAStore(insns[f[0]]) && IsALoad(insns[f[1]], None) && IsGetLabel(insns[f[2]]) && insns[f[3]].TableSwitch?
  {
    NestedIsChain(insns, i);
    ChainOnFilter(insns, i, PROLOGUE);
  }

  // ---------------------------------------------------------------------------
  // Method-level tests

  predicate IsAbstract(m: MethodNode) { m.access & ACC_ABSTRACT != 0 }

  /** `isDoResume`: a concrete `doResume(Object, Throwable): Object`. */
  predicate IsDoResume(m: MethodNode)
  {
    m.name == "doResume" && m.desc.ret == OBJECT && m.desc.args == [OBJECT, THROWABLE] && !IsAbstract(m)
  }

  /** `isStateMachineForAnonymousSuspendFunction`: `instructions[0]` fails on an empty list. */
  function IsStateMachineForAnonymousSuspendFunction(m: MethodNode): (r: Result<bool>)
    ensures r.Failure? <==> IsDoResume(m) && m.instructions == []
    ensures r.Failure? ==> r.error == IndexOutOfBounds
    ensures r == Success(true) <==> IsDoResume(m) && |m.instructions| > 0 && IsStateMachineStartsHere(m.instructions, Some(0))
  {
    if !IsDoResume(m) then Success(false)
    else if m.instructions == [] then Failure(IndexOutOfBounds)
    else Success(IsStateMachineStartsHere(m.instructions, Some(0)))
  }

  /** `lastMeaningful`: the list's last node if meaningful, else its previous meaningful one; null `last` on an empty list. */
  function LastMeaningful(insns: seq<Insn>): (r: Result<Option<nat>>)
    ensures r.Failure? <==> insns == []
    ensures r.Failure? ==> r.error == NullPointer
    ensures r.Success? && r.value.Some? ==>
      r.value.value < |insns| && IsMeaningful(insns[r.value.value])
      && forall k :: r.value.value < k < |insns| ==> !IsMeaningful(insns[k])
    ensures r.Success? && r.value.None? ==> forall k :: 0 <= k < |insns| ==> !IsMeaningful(insns[k])
  {
    if insns == [] then Failure(NullPointer)
    else if IsMeaningful(insns[|insns| - 1]) then Success(Some(|insns| - 1))
    else Success(MeaningfulAtOrBefore(insns, |insns| - 2))
  }

  /** `lastARETURN`: walking back from the last meaningful node finds the last ARETURN of the list. */
  method LastAReturn(insns: seq<Insn>) returns (r: Result<Option<nat>>)
    ensures r.Failure? <==> insns == []
    ensures r.Success? && r.value.Some? ==>
      r.value.value < |insns| && IsAReturn(insns[r.value.value])
      && forall k :: r.value.value < k < |insns| ==> !IsAReturn(insns[k])
    ensures r.Success? && r.value.None? ==> forall k :: 0 <= k < |insns| ==> !IsAReturn(insns[k])
  {
    var last := LastMeaningful(insns);
    if last.Failure? {
      return Failure(last.error);
    }
    var cur: Option<nat> := last.value;
    while cur.Some? && !IsAReturn(insns[cur.value])
      invariant cur.Some? ==> cur.value < |insns|
      invariant cur.Some? ==> forall k :: cur.value < k < |insns| ==> !IsAReturn(insns[k])
      invariant cur.None? ==> forall k :: 0 <= k < |insns| ==> !IsAReturn(insns[k])
      decreases if cur.Some? then cur.value + 1 else 0
    {
      cur := if cur.value == 0 then None else Some(cur.value - 1);
    }
    return Success(cur);
  }

  /**
   * `correspondingSuspendFunctionForDoResume`: a doResume ends with a call
   * of its suspend function followed by ARETURN; the call's method id is
   * the function.
   */
  function CorrespondingSuspendFunctionForDoResume(m: MethodNode): (r: Result<MethodId>)
    ensures !IsDoResume(m) ==> r == Failure(IllegalArgument(m.name + " should be doResume functionCall"))
    ensures IsDoResume(m) && m.instructions == [] ==> r == Failure(NullPointer)
    ensures r.Success? <==>
      && IsDoResume(m)
      && LastMeaningful(m.instructions).Success?
      && var last := LastMeaningful(m.instructions).value;
      && last.Some? && IsAReturn(m.instructions[last.value])
      && var call := MeaningfulAtOrBefore(m.instructions, last.value - 1);
      && call.Some? && m.instructions[call.value].MethodInsn?
    ensures r.Success? ==>
      var call := m.instructions[MeaningfulAtOrBefore(m.instructions, LastMeaningful(m.instructions).value.value - 1).value];
      r.value == Build(call.name, call.owner, DescriptorString(call.desc))
  {
    if !IsDoResume(m) then Failure(IllegalArgument(m.name + " should be doResume functionCall"))
    else
      var last := LastMeaningful(m.instructions);
      if last.Failure? then Failure(last.error)
      else if !(last.value.Some? && IsAReturn(m.instructions[last.value.value])) then
        Failure(IllegalArgument("last meaningful instruction must be areturn"))
      else
        var call := MeaningfulAtOrBefore(m.instructions, last.value.value - 1);
        if !(call.Some? && m.instructions[call.value].MethodInsn?) then
          Failure(IllegalArgument("can't find corresponding suspend method call"))
        else
          var c := m.instructions[call.value];
          Success(Build(c.name, c.owner, DescriptorString(c.desc)))
  }

  // ---------------------------------------------------------------------------
  // Suspend descriptors

  /** Where the continuation sits, counted from the end of the arguments: a `$default` shim has two more. */
  function ContinuationOffsetFromEnd(name: string): int
  {
    if EndsWith(name, "$default") then 3 else 1
  }

  /** `isSuspend`: the argument `count - offset` exists and is a Continuation, and Object is returned. */
  predicate IsSuspend(name: string, desc: MethodDesc)
  {
    var idx := |desc.args| - ContinuationOffsetFromEnd(name);
    0 <= idx < |desc.args| && desc.args[idx] == CONTINUATION && desc.ret == OBJECT
  }

  /** Spelled out per kind of name: the last argument, or the third from the end for a `$default` shim. */
  lemma IsSuspendPosition(name: string, desc: MethodDesc)
    ensures !EndsWith(name, "$default") ==>
      (IsSuspend(name, desc) <==> |desc.args| >= 1 && desc.args[|desc.args| - 1] == CONTINUATION && desc.ret == OBJECT)
    ensures EndsWith(name, "$default") ==>
      (IsSuspend(name, desc) <==> |desc.args| >= 3 && desc.args[|desc.args| - 3] == CONTINUATION && desc.ret == OBJECT)
  {
  }

  // ---------------------------------------------------------------------------
  // Call -> label -> line number

  /** The nearest label strictly before index `j`. */
  function LastLabelBefore(insns: seq<Insn>, j: nat): (r: Option<nat>)
    requires j <= |insns|
    ensures r.Some? ==> r.value < j && insns[r.value].Label?
    ensures forall k :: 0 <= k < j && (r.None? || r.value < k) ==> !insns[k].Label?
  {
    if j == 0 then None
    else if insns[j - 1].Label? then Some(j - 1)
    else LastLabelBefore(insns, j - 1)
  }

  /** `methodCallNodeToLabelNode`: every call that follows some label, mapped to the nearest label before it. */
  method MethodCallNodeToLabelNode(insns: seq<Insn>) returns (r: map<nat, nat>)
    ensures forall j :: j in r <==> 0 <= j < |insns| && insns[j].MethodInsn? && LastLabelBefore(insns, j).Some?
    ensures forall j :: j in r ==> LastLabelBefore(insns, j) == Some(r[j])
  {
    r := map[];
    var lastLabel: Option<nat> := None;
    for i := 0 to |insns|
      invariant lastLabel == LastLabelBefore(insns, i)
      invariant forall j :: j in r <==> 0 <= j < i && insns[j].MethodInsn? && LastLabelBefore(insns, j).Some?
      invariant forall j :: j in r ==> LastLabelBefore(insns, j) == Some(r[j])
    {
      if insns[i].MethodInsn? && lastLabel.Some? {
        r := r[i := lastLabel.value];
      } else if insns[i].Label? {
        lastLabel := Some(i);
      }
    }
  }

  /** No later line-number node starts at the same label as the one at `j`. */
  predicate LastLineForLabel(insns: seq<Insn>, j: nat)
    requires j < |insns| && insns[j].LineNumber?
  {
    forall k :: j < k < |insns| && insns[k].LineNumber? ==> insns[k].start != insns[j].start
  }

  /** Some line-number node of the list starts at label `l`. */
  predicate StartsLine(insns: seq<Insn>, l: nat)
  {
    exists j :: 0 <= j < |insns| && insns[j].LineNumber? && insns[j].start == l
  }

  /** `labelNodeToLineNumber`: the (start, line) pairs of the line-number nodes, in list order, as a map. */
  function LabelNodeToLineNumber(insns: seq<Insn>): map<nat, int>
    decreases |insns|
  {
    if insns == [] then map[]
    else
      var n := |insns| - 1;
      var m := LabelNodeToLineNumber(insns[..n]);
      if insns[n].LineNumber? then m[insns[n].start := insns[n].line] else m
  }

  /** Its keys are exactly the labels that start a line. */
  lemma {:induction false} LabelNodeToLineNumberKeys(insns: seq<Insn>)
    ensures forall l :: l in LabelNodeToLineNumber(insns) <==> StartsLine(insns, l)
    decreases |insns|
  {
    if insns != [] {
      var n := |insns| - 1;
      var front := insns[..n];
      LabelNodeToLineNumberKeys(front);
      forall l: nat
        ensures StartsLine(insns, l) <==> StartsLine(front, l) || (insns[n].LineNumber? && insns[n].start == l)
      {
        if StartsLine(insns, l) {
          var j :| 0 <= j < |insns| && insns[j].LineNumber? && insns[j].start == l;
          if j < n { assert front[j] == insns[j]; }
        }
        if StartsLine(front, l) {
          var j :| 0 <= j < |front| && front[j].LineNumber? && front[j].start == l;
          assert insns[j] == front[j];
        }
      }
    }
  }

  /** A label's value is the line of the last node starting at it (`toMap` keeps the last pair). */
  lemma {:induction false} LabelNodeToLineNumberLast(insns: seq<Insn>, j: nat)
    requires j < |insns| && insns[j].LineNumber? && LastLineForLabel(insns, j)
    ensures insns[j].start in LabelNodeToLineNumber(insns)
    ensures LabelNodeToLineNumber(insns)[insns[j].start] == insns[j].line
    decreases |insns|
  {
    var n := |insns| - 1;
    if j < n {
      var front := insns[..n];
      assert front[j] == insns[j];
      assert LastLineForLabel(front, j) by {
        forall k | j < k < |front| && front[k].LineNumber?
          ensures front[k].start != front[j].start
        {
          assert front[k] == insns[k];
        }
      }
      LabelNodeToLineNumberLast(front, j);
    }
  }

  /** `methodCallLineNumber`: the calls of the label map, each with its label's line, or none when the label starts no line. */
  method MethodCallLineNumber(insns: seq<Insn>) returns (r: map<nat, Option<int>>)
    ensures forall j :: j in r <==> 0 <= j < |insns| && insns[j].MethodInsn? && LastLabelBefore(insns, j).Some?
    ensures forall j :: j in r ==>
      var lbl := LastLabelBefore(insns, j).value;
      var lines := LabelNodeToLineNumber(insns);
      r[j] == (if lbl in lines then Some(lines[lbl]) else None)
  {
    var methodToLabel := MethodCallNodeToLabelNode(insns);
    var labelToLine := LabelNodeToLineNumber(insns);
    r := map j | j in methodToLabel :: if methodToLabel[j] in labelToLine then Some(labelToLine[methodToLabel[j]]) else None;
  }
}
