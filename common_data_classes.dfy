/**
 * The value types of the debug manager: a method identity, a source position,
 * the three kinds of recorded method call (the callee is `calledMethod`, since `method` is a Dafny keyword), and the stack trace element a call
 * is shown as.
 */
module CommonDataClasses {
  import opened Wrappers
  import opened Text

  /** A method: its name, its owner class with '.' separators, and its JVM descriptor string. */
  datatype MethodId = MethodId(name: string, owner: string, desc: string)

  /** `MethodId.build`: the owner's internal name ('/'-separated) becomes a class name ('.'-separated). */
  function Build(name: string, owner: string, desc: string): (m: MethodId)
    ensures m.name == name && m.desc == desc
    ensures |m.owner| == |owner| && '/' !in m.owner
    ensures forall i :: 0 <= i < |owner| && owner[i] != '/' ==> m.owner[i] == owner[i]
    ensures forall i :: 0 <= i < |owner| && owner[i] == '/' ==> m.owner[i] == '.'
  {
    ReplaceRemovesAll(owner, '/', '.');
    MethodId(name, Replace(owner, '/', '.'), desc)
  }

  /** Building again from an already built owner changes nothing. */
  lemma BuildIdempotent(name: string, owner: string, desc: string)
    ensures Build(name, Build(name, owner, desc).owner, desc) == Build(name, owner, desc)
  {
    ReplaceRemovesAll(owner, '/', '.');
  }

  const UnknownMethod := MethodId("unknown", "unknown", "unknown")

  /** `MethodId.toString`: "<owner>.<name> <desc>". */
  function MethodIdText(m: MethodId): (r: string)
    ensures |r| == |m.owner| + |m.name| + |m.desc| + 2
    ensures r[..|m.owner|] == m.owner && r[|m.owner|] == '.'
    ensures r[|m.owner| + 1..|m.owner| + 1 + |m.name|] == m.name
    ensures r[|m.owner| + 1 + |m.name|] == ' ' && r[|m.owner| + |m.name| + 2..] == m.desc
  {
    m.owner + "." + m.name + " " + m.desc
  }

  /** A `java.lang.StackTraceElement` (declaring class, method, file, line). */
  datatype StackTraceElement = StackTraceElement(className: string, methodName: string, fileName: string, lineNumber: int)

  /** `MethodId.equalsTo`: a method is a stack trace element's method when name and owner agree; the descriptor is ignored. */
  predicate EqualsTo(m: MethodId, ste: StackTraceElement)
  {
    m.name == ste.methodName && m.owner == ste.className
  }

  lemma EqualsToIgnoresDesc(m: MethodId, d: string, ste: StackTraceElement)
    ensures EqualsTo(m, ste) <==> EqualsTo(m.(desc := d), ste)
  {
  }

  datatype CallPosition = CallPosition(file: string, line: int)

  const UnknownPosition := CallPosition("unknown", -1)

  /** `CallPosition.toString`: "at <file>:<line>". */
  function PositionText(p: CallPosition): (r: string)
    ensures |r| > 4 + |p.file|
    ensures r[..3] == "at " && r[3..3 + |p.file|] == p.file && r[3 + |p.file|] == ':'
    ensures r[4 + |p.file|..] == IntToString(p.line) && ParseInt(r[4 + |p.file|..]) == Some(p.line)
  {
    IntToStringRoundTrip(p.line);
    var r := "at " + p.file + ":" + IntToString(p.line);
    assert r[4 + |p.file|..] == IntToString(p.line);
    r
  }

  /**
   * The three `MethodCall` subclasses. `calledMethod` (`method` in the source) is the callee, `fromMethod`
   * the caller, `position` the call site in the caller. `realOwner` of an
   * invoke call is kept as a plain field.
   */
  datatype MethodCall =
    | DoResumeCall(calledMethod: MethodId, fromMethod: MethodId, position: CallPosition)
    | NamedFunctionSuspendCall(calledMethod: MethodId, fromMethod: MethodId, position: CallPosition)
    | InvokeSuspendCall(calledMethod: MethodId, fromMethod: MethodId, position: CallPosition, realOwner: Option<string>)
  {
    predicate IsSuspendCall() { !DoResumeCall? }
  }

  /** The sealed `SuspendCall` subclasses: every call but a doResume. */
  type SuspendCall = c: MethodCall | c.IsSuspendCall()
    witness NamedFunctionSuspendCall(UnknownMethod, UnknownMethod, UnknownPosition)

  /** `MethodCall.toString`: "<callee name> from <caller> <position>". */
  function MethodCallText(c: MethodCall): (r: string)
    ensures |r| > |c.calledMethod.name| + 6
    ensures r[..|c.calledMethod.name|] == c.calledMethod.name
    ensures r[|c.calledMethod.name|..|c.calledMethod.name| + 6] == " from "
    ensures r[|c.calledMethod.name| + 6..] == MethodIdText(c.fromMethod) + " " + PositionText(c.position)
  {
    var n := c.calledMethod.name;
    var tail := MethodIdText(c.fromMethod) + " " + PositionText(c.position);
    FromParts(n, tail);
    n + " from " + tail
  }

  /** How "<name> from <tail>" splits back into its parts. */
  lemma FromParts(n: string, tail: string)
    ensures var r := n + " from " + tail;
      && |r| == |n| + 6 + |tail|
      && r[..|n|] == n && r[|n|..|n| + 6] == " from " && r[|n| + 6..] == tail
  {
    var r := n + " from " + tail;
    assert r[..|n|] == n;
    assert r[|n|..|n| + 6] == " from ";
  }

  /** `MethodCall.stackTraceElement`: the frame is shown at the caller, at the call's position. */
  function StackTraceElementOf(c: MethodCall): (e: StackTraceElement)
    ensures EqualsTo(c.fromMethod, e)
    ensures e.fileName == c.position.file && e.lineNumber == c.position.line
  {
    StackTraceElement(c.fromMethod.owner, c.fromMethod.name, c.position.file, c.position.line)
  }
}
