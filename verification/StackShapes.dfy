/** The effect of every opcode on the operand stack and the locals, counted in
    slots (chapter 6 of the JVMS), and what it does to values that are traced
    for being the uninitialised this. */
module StackShapes {
  import opened Bytes
  import opened Status
  import opened Instructions
  import opened Descriptors

  datatype Shape =
    | KEEP
    | REPLACE(pops: nat, pushes: nat)
    | LOAD(index: nat, width: nat, reference: bool)
    | STORE(index: nat, width: nat, reference: bool)
    | DUPLICATE(copied: nat, below: nat)
    | EXCHANGE
    | PEEK
    | UNKNOWN

  /** Slots of the types int, long, float, double, reference, byte, char, short,
      in the order the typed opcode families list them. */
  function WidthOf(family: nat): nat {
    if family == 1 || family == 3 then 2 else 1
  }

  function LocalIndex(node: Instruction): nat {
    if node.operand.Local? then node.operand.index else 0
  }

  /** The opcodes grouped as the JVMS groups them. slots is what the descriptor
      of the member an instruction names reserves, if it names one. */
  function ShapeOf(node: Instruction, slots: Option<SlotCount>): Shape {
    var op := node.opcode as int;
    if op < 54 then LoadShape(node)
    else if op < 96 then StoreShape(node)
    else if op < 153 then ArithmeticShape(op)
    else if op < 178 then ControlShape(op)
    else ObjectShape(node, slots)
  }

  function LoadShape(node: Instruction): Shape {
    var op := node.opcode as int;
    if op == 0 then KEEP                                                      // nop
    else if op == 9 || op == 10 || op == 14 || op == 15 || op == 20 then REPLACE(0, 2) // long and double constants
    else if op < 21 then REPLACE(0, 1)                                        // every other constant
    else if op < 26 then LOAD(LocalIndex(node), WidthOf(op - 21), op == 25)   // iload .. aload
    else if op < 46 then LOAD((op - 26) % 4, WidthOf((op - 26) / 4), op >= 42) // iload_0 .. aload_3
    else REPLACE(2, WidthOf(op - 46))                                         // iaload .. saload
  }

  function StoreShape(node: Instruction): Shape
    requires node.opcode >= 54
  {
    var op := node.opcode as int;
    if op < 59 then STORE(LocalIndex(node), WidthOf(op - 54), op == 58)       // istore .. astore
    else if op < 79 then STORE((op - 59) % 4, WidthOf((op - 59) / 4), op >= 75) // istore_0 .. astore_3
    else if op < 87 then REPLACE(2 + WidthOf(op - 79), 0)                     // iastore .. sastore
    else if op == 87 then REPLACE(1, 0)
    else if op == 88 then REPLACE(2, 0)
    else if op == 89 then DUPLICATE(1, 0)
    else if op == 90 then DUPLICATE(1, 1)
    else if op == 91 then DUPLICATE(1, 2)
    else if op == 92 then DUPLICATE(2, 0)
    else if op == 93 then DUPLICATE(2, 1)
    else if op == 94 then DUPLICATE(2, 2)
    else EXCHANGE                                                             // swap
  }

  function ArithmeticShape(op: int): Shape {
    if op < 116 then var w := WidthOf((op - 96) % 4); REPLACE(2 * w, w)       // iadd .. drem
    else if op < 120 then KEEP                                                // negations stay in place
    else if op == 120 || op == 122 || op == 124 then REPLACE(2, 1)            // int shifts
    else if op == 121 || op == 123 || op == 125 then REPLACE(3, 2)            // long shifts
    else if op == 126 || op == 128 || op == 130 then REPLACE(2, 1)            // int logic
    else if op == 127 || op == 129 || op == 131 then REPLACE(4, 2)            // long logic
    else if op == 132 then KEEP                                               // iinc
    else if op == 133 || op == 135 || op == 140 || op == 141 then REPLACE(1, 2) // narrow to wide
    else if op == 136 || op == 137 || op == 142 || op == 144 then REPLACE(2, 1) // wide to narrow
    else if op == 138 || op == 143 then REPLACE(2, 2)                         // l2d, d2l
    else if op < 148 then KEEP                                                // narrow to narrow, in place
    else if op == 149 || op == 150 then REPLACE(2, 1)                         // fcmpl, fcmpg
    else REPLACE(4, 1)                                                        // lcmp, dcmpl, dcmpg
  }

  function ControlShape(op: int): Shape {
    if op < 159 then REPLACE(1, 0)                                            // ifeq .. ifle
    else if op < 167 then REPLACE(2, 0)                                       // if_icmpeq .. if_acmpne
    else if op == 167 then KEEP                                               // goto
    else if op < 170 then UNKNOWN                                             // jsr, ret
    else if op < 172 then REPLACE(1, 0)                                       // the switches
    else if op == 173 || op == 175 then REPLACE(2, 0)                         // lreturn, dreturn
    else if op == 177 then REPLACE(0, 0)                                      // return
    else REPLACE(1, 0)                                                        // ireturn, freturn, areturn
  }

  function ObjectShape(node: Instruction, slots: Option<SlotCount>): Shape {
    var op := node.opcode as int;
    if op < 187 then
      if slots.None? then UNKNOWN
      else
        var s := slots.value;
        if op == 178 then REPLACE(0, s.result)                                // getstatic
        else if op == 179 then REPLACE(s.result, 0)                           // putstatic
        else if op == 180 then REPLACE(1, s.result)                           // getfield
        else if op == 181 then REPLACE(ToU2(s.result + 1), 0)                 // putfield
        else if op == 184 || op == 186 then REPLACE(s.arguments, s.result)    // no receiver
        else REPLACE(ToU2(s.arguments + 1), s.result)
    else if op == 187 then REPLACE(0, 1)                                      // new
    else if op == 188 || op == 189 || op == 190 || op == 193 then REPLACE(1, 1) // arrays, arraylength, instanceof
    else if op == 192 then PEEK                                               // checkcast
    else if op == 197 then REPLACE(if node.operand.MultiANewArray? then node.operand.dimensions else 0, 1)
    else if op == 191 || op == 194 || op == 195 || op == 198 || op == 199 then REPLACE(1, 0)
    else if op == 200 then KEEP                                               // goto_w
    else UNKNOWN
  }

  /** Returns and athrow end the method. */
  predicate IsTerminal(opcode: u1) {
    172 <= opcode <= 177 || opcode == 191
  }

  // ----- traced values -----

  /** What a slot may hold on the paths seen so far. */
  datatype Trace = THIS | OTHER | MIXED

  function Join(a: Trace, b: Trace): Trace {
    if a == b then a else MIXED
  }

  datatype Work = Work(locals: seq<Trace>, stack: seq<Trace>)

  function Others(n: nat): (s: seq<Trace>)
    ensures |s| == n
  {
    seq(n, i => OTHER)
  }

  /** Values that are computed are not the uninitialised this; values that are
      moved stay what they were. */
  function Apply(shape: Shape, w: Work, maxStack: nat): (r: Option<Work>)
    ensures r.Some? ==> |r.value.locals| == |w.locals|
    ensures r.Some? && |w.stack| <= maxStack ==> |r.value.stack| <= maxStack
  {
    var n := |w.stack|;
    match shape
    case KEEP => Some(w)
    case REPLACE(pops, pushes) =>
      if pops > n || (pushes > 0 && n - pops + pushes > maxStack) then None
      else Some(w.(stack := w.stack[..n - pops] + Others(pushes)))
    case LOAD(index, width, reference) =>
      if index + width > |w.locals| || index >= |w.locals| then None
      else if reference then
        if n >= maxStack then None else Some(w.(stack := w.stack + [w.locals[index]]))
      else if width > 0 && n + width > maxStack then None
      else Some(w.(stack := w.stack + Others(width)))
    case STORE(index, width, reference) =>
      if index + width > |w.locals| || index >= |w.locals| || width > n || width == 0 then None
      else
        var value := if reference then w.stack[n - 1] else OTHER;
        Some(Work(w.locals[..index] + seq(width, i => value) + w.locals[index + width..], w.stack[..n - width]))
    case DUPLICATE(copied, below) =>
      if copied + below > n || n + copied > maxStack then None
      else Some(w.(stack := w.stack[..n - copied - below] + w.stack[n - copied..] + w.stack[n - copied - below..]))
    case EXCHANGE =>
      if n < 2 then None else Some(w.(stack := w.stack[..n - 2] + [w.stack[n - 1], w.stack[n - 2]]))
    case PEEK => if n == 0 then None else Some(w)
    case UNKNOWN => None
  }
}
