/**
 * The suspend functions the prototype agent records on its stacks: a library
 * function known only by name, owner and descriptor, or a user-defined one,
 * anonymous (a lambda's state machine) or named, known by its method node,
 * its class and its first line.
 */
module SuspendFunctions {
  import opened Bytecode

  datatype SuspendFunction =
    | LibrarySuspendFunction(name: string, owner: string, desc: string)
    | AnonymousSuspendFunction(methodNode: MethodNode, classNode: ClassNode, lineNumber: int)
    | NamedSuspendFunction(methodNode: MethodNode, classNode: ClassNode, lineNumber: int)
  {
    /** `is UserDefinedSuspendFunction`. */
    predicate IsUserDefined()
    {
      AnonymousSuspendFunction? || NamedSuspendFunction?
    }
  }

  type UserDefinedSuspendFunction = f: SuspendFunction | f.IsUserDefined()
    witness AnonymousSuspendFunction(MethodNode("", MethodDesc([], ""), 0, []), ClassNode("", ""), -1)

  type NamedFunction = f: SuspendFunction | f.NamedSuspendFunction?
    witness NamedSuspendFunction(MethodNode("", MethodDesc([], ""), 0, []), ClassNode("", ""), -1)
}
