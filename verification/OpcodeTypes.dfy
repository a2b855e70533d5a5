/** What each instruction takes, gives and moves, by type, as chapter 6 of the JVMS
    lists it instruction by instruction. */
module OpcodeTypes {
  import opened Bytes
  import opened Status
  import opened Instructions
  import opened Descriptors

  /** The types values have on the operand stack and in the locals; boolean, byte,
      char and short are ints there (section 2.11.1). */
  datatype JType = INT | LONG | FLOAT | DOUBLE | REFERENCE

  /** A long or a double takes two slots (section 2.6). */
  function Words(t: JType): nat {
    match t
    case LONG => 2
    case DOUBLE => 2
    case _ => 1
  }

  function WordsOfAll(types: seq<JType>): nat {
    if types == [] then 0 else WordsOfAll(types[..|types| - 1]) + Words(types[|types| - 1])
  }

  /** Computes takes operands, the last from the top of the stack, and leaves
      results. Rearranges takes slots and leaves copies of them: order names them,
      lowest first, by how far each stood above the lowest slot taken. */
  datatype Action =
    | Computes(operands: seq<JType>, results: seq<JType>)
    | LoadsLocal(t: JType, index: nat)
    | StoresLocal(t: JType, index: nat)
    | Increments(index: nat)
    | Rearranges(takes: nat, order: seq<nat>)
    | NoMeaning

  const NOTHING := Computes([], [])

  function Pushes(t: JType): Action { Computes([], [t]) }
  function Pops(t: JType): Action { Computes([t], []) }
  function Compares(t: JType): Action { Computes([t, t], []) }
  function Unary(from: JType, to: JType): Action { Computes([from], [to]) }
  function Binary(t: JType): Action { Computes([t, t], [t]) }
  function Shifts(t: JType): Action { Computes([t, INT], [t]) }
  function LoadsElement(t: JType): Action { Computes([REFERENCE, INT], [t]) }
  function StoresElement(t: JType): Action { Computes([REFERENCE, INT, t], []) }

  // ----- the instructions that name no member -----

  /** The local an instruction names in its operand; the wide form names a larger one. */
  function NamedLocal(node: Instruction): nat {
    match node.operand
    case Local(index) => index
    case Iinc(index, _) => index
    case _ => 0
  }

  function OpcodeAction(node: Instruction): Action {
    var op := node.opcode as int;
    if op < 21 then ConstantAction(op)
    else if op < 87 then LocalAction(op, NamedLocal(node))
    else if op < 96 then StackAction(op)
    else if op < 132 then MathAction(op)
    else if op < 153 then ConversionAction(op, NamedLocal(node))
    else if op < 178 then BranchAction(op)
    else ReferenceAction(node)
  }

  /** An instruction does what its opcode says; what the constants of the pool are
      is up to the pool. */
  predicate Does(node: Instruction, action: Action) {
    if node.opcode == 18 || node.opcode == 19 then                // ldc, ldc_w
      action == Pushes(INT) || action == Pushes(FLOAT) || action == Pushes(REFERENCE)
    else if node.opcode == 20 then                                // ldc2_w
      action == Pushes(LONG) || action == Pushes(DOUBLE)
    else action == OpcodeAction(node)
  }

  function ConstantAction(op: int): Action {
    if op == 0 then NOTHING                                       // nop
    else if op == 1 then Pushes(REFERENCE)                        // aconst_null
    else if op in {2, 3, 4, 5, 6, 7, 8} then Pushes(INT)          // iconst_m1 .. iconst_5
    else if op in {9, 10} then Pushes(LONG)                       // lconst_0, lconst_1
    else if op in {11, 12, 13} then Pushes(FLOAT)                 // fconst_0 .. fconst_2
    else if op in {14, 15} then Pushes(DOUBLE)                    // dconst_0, dconst_1
    else if op in {16, 17} then Pushes(INT)                       // bipush, sipush
    else NoMeaning                                                // ldc, ldc_w, ldc2_w: see Does
  }

  function LocalAction(op: int, named: nat): Action {
    if op == 21 then LoadsLocal(INT, named)                       // iload
    else if op == 22 then LoadsLocal(LONG, named)                 // lload
    else if op == 23 then LoadsLocal(FLOAT, named)                // fload
    else if op == 24 then LoadsLocal(DOUBLE, named)               // dload
    else if op == 25 then LoadsLocal(REFERENCE, named)            // aload
    else if 26 <= op <= 29 then LoadsLocal(INT, op - 26)          // iload_0 .. iload_3
    else if 30 <= op <= 33 then LoadsLocal(LONG, op - 30)         // lload_0 .. lload_3
    else if 34 <= op <= 37 then LoadsLocal(FLOAT, op - 34)        // fload_0 .. fload_3
    else if 38 <= op <= 41 then LoadsLocal(DOUBLE, op - 38)       // dload_0 .. dload_3
    else if 42 <= op <= 45 then LoadsLocal(REFERENCE, op - 42)    // aload_0 .. aload_3
    else if op in {46, 51, 52, 53} then LoadsElement(INT)         // iaload, baload, caload, saload
    else if op == 47 then LoadsElement(LONG)                      // laload
    else if op == 48 then LoadsElement(FLOAT)                     // faload
    else if op == 49 then LoadsElement(DOUBLE)                    // daload
    else if op == 50 then LoadsElement(REFERENCE)                 // aaload
    else if op == 54 then StoresLocal(INT, named)                 // istore
    else if op == 55 then StoresLocal(LONG, named)                // lstore
    else if op == 56 then StoresLocal(FLOAT, named)               // fstore
    else if op == 57 then StoresLocal(DOUBLE, named)              // dstore
    else if op == 58 then StoresLocal(REFERENCE, named)           // astore
    else if 59 <= op <= 62 then StoresLocal(INT, op - 59)         // istore_0 .. istore_3
    else if 63 <= op <= 66 then StoresLocal(LONG, op - 63)        // lstore_0 .. lstore_3
    else if 67 <= op <= 70 then StoresLocal(FLOAT, op - 67)       // fstore_0 .. fstore_3
    else if 71 <= op <= 74 then StoresLocal(DOUBLE, op - 71)      // dstore_0 .. dstore_3
    else if 75 <= op <= 78 then StoresLocal(REFERENCE, op - 75)   // astore_0 .. astore_3
    else if op in {79, 84, 85, 86} then StoresElement(INT)        // iastore, bastore, castore, sastore
    else if op == 80 then StoresElement(LONG)                     // lastore
    else if op == 81 then StoresElement(FLOAT)                    // fastore
    else if op == 82 then StoresElement(DOUBLE)                   // dastore
    else if op == 83 then StoresElement(REFERENCE)                // aastore
    else NoMeaning
  }

  function StackAction(op: int): Action {
    if op == 87 then Rearranges(1, [])                            // pop
    else if op == 88 then Rearranges(2, [])                       // pop2
    else if op == 89 then Rearranges(1, [0, 0])                   // dup
    else if op == 90 then Rearranges(2, [1, 0, 1])                // dup_x1
    else if op == 91 then Rearranges(3, [2, 0, 1, 2])             // dup_x2
    else if op == 92 then Rearranges(2, [0, 1, 0, 1])             // dup2
    else if op == 93 then Rearranges(3, [1, 2, 0, 1, 2])          // dup2_x1
    else if op == 94 then Rearranges(4, [2, 3, 0, 1, 2, 3])       // dup2_x2
    else Rearranges(2, [1, 0])                                    // swap
  }

  function MathAction(op: int): Action {
    if op in {96, 100, 104, 108, 112} then Binary(INT)            // iadd, isub, imul, idiv, irem
    else if op in {97, 101, 105, 109, 113} then Binary(LONG)      // ladd, lsub, lmul, ldiv, lrem
    else if op in {98, 102, 106, 110, 114} then Binary(FLOAT)     // fadd, fsub, fmul, fdiv, frem
    else if op in {99, 103, 107, 111, 115} then Binary(DOUBLE)    // dadd, dsub, dmul, ddiv, drem
    else if op == 116 then Unary(INT, INT)                        // ineg
    else if op == 117 then Unary(LONG, LONG)                      // lneg
    else if op == 118 then Unary(FLOAT, FLOAT)                    // fneg
    else if op == 119 then Unary(DOUBLE, DOUBLE)                  // dneg
    else if op in {120, 122, 124} then Shifts(INT)                // ishl, ishr, iushr
    else if op in {121, 123, 125} then Shifts(LONG)               // lshl, lshr, lushr
    else if op in {126, 128, 130} then Binary(INT)                // iand, ior, ixor
    else if op in {127, 129, 131} then Binary(LONG)               // land, lor, lxor
    else NoMeaning
  }

  function ConversionAction(op: int, named: nat): Action {
    if op == 132 then Increments(named)                           // iinc
    else if op == 133 then Unary(INT, LONG)                       // i2l
    else if op == 134 then Unary(INT, FLOAT)                      // i2f
    else if op == 135 then Unary(INT, DOUBLE)                     // i2d
    else if op == 136 then Unary(LONG, INT)                       // l2i
    else if op == 137 then Unary(LONG, FLOAT)                     // l2f
    else if op == 138 then Unary(LONG, DOUBLE)                    // l2d
    else if op == 139 then Unary(FLOAT, INT)                      // f2i
    else if op == 140 then Unary(FLOAT, LONG)                     // f2l
    else if op == 141 then Unary(FLOAT, DOUBLE)                   // f2d
    else if op == 142 then Unary(DOUBLE, INT)                     // d2i
    else if op == 143 then Unary(DOUBLE, LONG)                    // d2l
    else if op == 144 then Unary(DOUBLE, FLOAT)                   // d2f
    else if op in {145, 146, 147} then Unary(INT, INT)            // i2b, i2c, i2s
    else if op == 148 then Computes([LONG, LONG], [INT])          // lcmp
    else if op in {149, 150} then Computes([FLOAT, FLOAT], [INT]) // fcmpl, fcmpg
    else Computes([DOUBLE, DOUBLE], [INT])                        // dcmpl, dcmpg
  }

  function BranchAction(op: int): Action {
    if op in {153, 154, 155, 156, 157, 158} then Pops(INT)        // ifeq, ifne, iflt, ifge, ifgt, ifle
    else if op in {159, 160, 161, 162, 163, 164} then Compares(INT) // if_icmpeq .. if_icmple
    else if op in {165, 166} then Compares(REFERENCE)             // if_acmpeq, if_acmpne
    else if op == 167 then NOTHING                                // goto
    else if op in {168, 169} then NoMeaning                       // jsr, ret
    else if op in {170, 171} then Pops(INT)                       // tableswitch, lookupswitch
    else ReturnAction(op)
  }

  function ReturnAction(op: int): Action {
    if op == 172 then Pops(INT)                                   // ireturn
    else if op == 173 then Pops(LONG)                             // lreturn
    else if op == 174 then Pops(FLOAT)                            // freturn
    else if op == 175 then Pops(DOUBLE)                           // dreturn
    else if op == 176 then Pops(REFERENCE)                        // areturn
    else NOTHING                                                  // return
  }

  function ReferenceAction(node: Instruction): Action {
    var op := node.opcode as int;
    if op == 187 then Pushes(REFERENCE)                           // new
    else if op in {188, 189} then Unary(INT, REFERENCE)           // newarray, anewarray
    else if op == 190 then Unary(REFERENCE, INT)                  // arraylength
    else if op == 191 then Pops(REFERENCE)                        // athrow
    else if op == 192 then Rearranges(1, [0])                     // checkcast leaves the very reference it was given
    else if op == 193 then Unary(REFERENCE, INT)                  // instanceof
    else if op in {194, 195} then Pops(REFERENCE)                 // monitorenter, monitorexit
    else if op == 197 && node.operand.MultiANewArray? then
      Computes(Repeated(INT, node.operand.dimensions), [REFERENCE]) // multianewarray
    else if op in {198, 199} then Pops(REFERENCE)                 // ifnull, ifnonnull
    else if op == 200 then NOTHING                                // goto_w
    else NoMeaning                                                // jsr_w, and what is no instruction
  }

  function Repeated(t: JType, n: nat): (r: seq<JType>)
    ensures |r| == n
  {
    seq(n, i => t)
  }

  // ----- the instructions that name one -----

  function TypeOf(t: FieldType): JType {
    match t
    case Primitive(letter) =>
      if letter == 'J' then LONG else if letter == 'F' then FLOAT else if letter == 'D' then DOUBLE else INT
    case Reference(_) => REFERENCE
    case ArrayOf(_) => REFERENCE
  }

  function TypesOf(types: seq<FieldType>): (r: seq<JType>)
    ensures |r| == |types| && forall i :: 0 <= i < |r| ==> r[i] == TypeOf(types[i])
  {
    seq(|types|, i requires 0 <= i < |types| => TypeOf(types[i]))
  }

  /** getstatic, putstatic, getfield, putfield of a field of type t. */
  function FieldAction(op: int, t: FieldType): Action {
    if op == 178 then Pushes(TypeOf(t))
    else if op == 179 then Pops(TypeOf(t))
    else if op == 180 then Unary(REFERENCE, TypeOf(t))
    else Computes([REFERENCE, TypeOf(t)], [])
  }

  /** invokestatic and invokedynamic have no receiver; invokevirtual, invokespecial
      and invokeinterface have one below the arguments. */
  function CallAction(op: int, t: MethodType): Action {
    Computes((if op == 184 || op == 186 then [] else [REFERENCE]) + TypesOf(t.parameters), TypesOf(t.result))
  }

  // ----- constants and returns -----

  datatype Known = NullValue | IntValue(i: int) | LongValue(l: int) | FloatValue(f: int) | DoubleValue(d: int)

  /** What the constant instructions push. */
  function ConstantPushed(op: int): Option<Known> {
    if op == 1 then Some(NullValue)                                    // aconst_null
    else if op == 2 then Some(IntValue(-1))                    // iconst_m1
    else if op == 3 then Some(IntValue(0))                     // iconst_0
    else if op == 4 then Some(IntValue(1))                     // iconst_1
    else if op == 5 then Some(IntValue(2))                     // iconst_2
    else if op == 6 then Some(IntValue(3))                     // iconst_3
    else if op == 7 then Some(IntValue(4))                     // iconst_4
    else if op == 8 then Some(IntValue(5))                     // iconst_5
    else if op == 9 then Some(LongValue(0))                    // lconst_0
    else if op == 10 then Some(LongValue(1))                   // lconst_1
    else if op == 11 then Some(FloatValue(0))                  // fconst_0
    else if op == 12 then Some(FloatValue(1))                  // fconst_1
    else if op == 13 then Some(FloatValue(2))                  // fconst_2
    else if op == 14 then Some(DoubleValue(0))                 // dconst_0
    else if op == 15 then Some(DoubleValue(1))                 // dconst_1
    else None
  }

  /** The value a field of the type has before it is set (section 2.3 of the JVMS). */
  function DefaultOf(t: JType): Known {
    match t
    case INT => IntValue(0)
    case LONG => LongValue(0)
    case FLOAT => FloatValue(0)
    case DOUBLE => DoubleValue(0)
    case REFERENCE => NullValue
  }

  // ----- conditions -----

  /** Whether the branches on an int are taken. */
  predicate TakenOn(op: int, value: int) {
    if op == 153 then value == 0                                  // ifeq
    else if op == 154 then value != 0                             // ifne
    else if op == 155 then value < 0                              // iflt
    else if op == 156 then value >= 0                             // ifge
    else if op == 157 then value > 0                              // ifgt
    else op == 158 && value <= 0                                  // ifle
  }
}
