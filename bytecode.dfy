/**
 * The part of ASM's tree API that the instruction scans read: instruction
 * kinds with their operands, method descriptors as argument and return type
 * lists (section 4.3.3 of the Java Virtual Machine Specification), method and
 * class nodes.
 *
 * An instruction is identified by its position in its method's list;
 * `LineNumber.start` is the position of the label the line begins at.
 */
module Bytecode {

  // Opcodes (chapter 6 of the Java Virtual Machine Specification).
  const ALOAD := 25
  const ASTORE := 58
  const TABLESWITCH := 170
  const ARETURN := 176
  const GETSTATIC := 178
  const PUTSTATIC := 179
  const GETFIELD := 180
  const PUTFIELD := 181
  const INVOKEVIRTUAL := 182
  const INVOKESTATIC := 184
  const INVOKEINTERFACE := 185

  /** `Opcodes.ACC_ABSTRACT`. */
  const ACC_ABSTRACT: bv32 := 0x400

  const OBJECT := "Ljava/lang/Object;"
  const THROWABLE := "Ljava/lang/Throwable;"
  const CONTINUATION := "Lkotlin/coroutines/experimental/Continuation;"

  /** A method descriptor: the field descriptors of the arguments and of the return type. */
  datatype MethodDesc = MethodDesc(args: seq<string>, ret: string)

  function Concat(parts: seq<string>): string
  {
    if parts == [] then "" else parts[0] + Concat(parts[1..])
  }

  /** The descriptor's text, "(" + arguments + ")" + return type. */
  function DescriptorString(d: MethodDesc): (r: string)
    ensures |r| >= 2 && r[0] == '('
  {
    "(" + Concat(d.args) + ")" + d.ret
  }

  /** The instruction node kinds the scans tell apart. */
  datatype Insn =
    | Label                                                         // LabelNode
    | LineNumber(line: int, start: nat)                             // LineNumberNode
    | Frame                                                         // FrameNode
    | MethodInsn(opcode: int, owner: string, name: string, desc: MethodDesc)   // MethodInsnNode
    | FieldInsn(opcode: int, owner: string, name: string, fieldDesc: string)   // FieldInsnNode
    | VarInsn(opcode: int, varIndex: int)                           // VarInsnNode
    | TableSwitch                                                   // TableSwitchInsnNode
    | InsnOp(opcode: int)                                           // InsnNode (no operand)
    | OtherInsn(opcode: int)                                        // any other node

  /** `AbstractInsnNode.opcode`: -1 for the pseudo-instructions. */
  function Opcode(i: Insn): int
  {
    match i
    case Label => -1
    case LineNumber(_, _) => -1
    case Frame => -1
    case TableSwitch => TABLESWITCH
    case MethodInsn(op, _, _, _) => op
    case FieldInsn(op, _, _, _) => op
    case VarInsn(op, _) => op
    case InsnOp(op) => op
    case OtherInsn(op) => op
  }

  datatype MethodNode = MethodNode(name: string, desc: MethodDesc, access: bv32, instructions: seq<Insn>)

  datatype ClassNode = ClassNode(name: string, sourceFile: string)

  /** `firstInstructionLineNumber`: the smallest line number of the method, or -1 when it has none. */
  function FirstLineNumber(insns: seq<Insn>): (r: int)
    ensures (forall j :: 0 <= j < |insns| ==> !insns[j].LineNumber?) ==> r == -1
    ensures (exists j :: 0 <= j < |insns| && insns[j].LineNumber?) ==>
      (exists j :: 0 <= j < |insns| && insns[j].LineNumber? && insns[j].line == r)
      && (forall j :: 0 <= j < |insns| && insns[j].LineNumber? ==> r <= insns[j].line)
    decreases |insns|
  {
    if insns == [] then -1
    else
      var rest := FirstLineNumber(insns[1..]);
      var restHas := exists j :: 0 <= j < |insns[1..]| && insns[1..][j].LineNumber?;
      if !insns[0].LineNumber? then
        assert forall j :: 1 <= j < |insns| ==> insns[j] == insns[1..][j - 1];
        rest
      else if !restHas || insns[0].line <= rest then
        assert forall j :: 1 <= j < |insns| ==> insns[j] == insns[1..][j - 1];
        insns[0].line
      else
        assert forall j :: 1 <= j < |insns| ==> insns[j] == insns[1..][j - 1];
        var j :| 0 <= j < |insns[1..]| && insns[1..][j].LineNumber? && insns[1..][j].line == rest;
        assert insns[j + 1] == insns[1..][j];
        rest
  }
}
