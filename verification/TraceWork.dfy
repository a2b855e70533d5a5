/** The working stack and locals of the constructor analysis, changed in place
    by one instruction at a time. */
module TraceWork {
  import opened Bytes
  import opened Status
  import opened Instructions
  import opened Descriptors
  import opened ConstantPool
  import opened StackShapes

  datatype ClassInfo = ClassInfo(pool: Pool, thisClass: u2, superClass: u2)

  /** The index of the member an instruction names. */
  function MemberIndex(node: Instruction): u2 {
    match node.operand
    case CpIndex(index) => index
    case InvokeInterface(index, _, _) => index
    case InvokeDynamic(index, _) => index
    case _ => 0
  }

  /** The descriptor of a member reference in the pool. */
  function MemberDescriptor(pool: Pool, index: int): Option<string> {
    var natIndex :=
      match At(pool, index)
      case Some(Ref(_, _, n)) => n
      case Some(DynamicRef(_, _, n)) => n
      case _ => 0;
    match At(pool, natIndex)
    case Some(NameAndType(_, d)) => TextAt(pool, d)
    case _ => None
  }

  function MemberSlots(pool: Pool, index: int): Option<SlotCount> {
    match MemberDescriptor(pool, index)
    case Some(text) => DescriptorSlots(text)
    case None => None
  }

  function NodeShape(cls: ClassInfo, node: Instruction): Shape {
    ShapeOf(node, MemberSlots(cls.pool, MemberIndex(node)))
  }

  class TraceWork {
    const maxStack: nat
    var locals: seq<Trace>
    var stack: seq<Trace>

    function View(): Work
      reads this
    {
      Work(locals, stack)
    }

    ghost predicate Valid()
      reads this
    {
      |stack| <= maxStack
    }

    constructor (w: Work, limit: nat)
      requires |w.stack| <= limit
      ensures Valid() && View() == w && maxStack == limit
    {
      maxStack := limit;
      locals, stack := w.locals, w.stack;
    }

    method PopSlots(count: nat) returns (ok: bool)
      requires Valid()
      modifies this`stack
      ensures Valid() && ok == (count <= |old(stack)|)
      ensures ok ==> stack == old(stack)[..|old(stack)| - count]
    {
      if count > |stack| {
        return false;
      }
      stack := stack[..|stack| - count];
      return true;
    }

    method PushSlot(value: Trace) returns (ok: bool)
      requires Valid()
      modifies this`stack
      ensures Valid() && ok == (|old(stack)| < maxStack)
      ensures stack == if ok then old(stack) + [value] else old(stack)
    {
      if |stack| >= maxStack {
        return false;
      }
      stack := stack + [value];
      return true;
    }

    method PushOther(count: nat) returns (ok: bool)
      requires Valid()
      modifies this`stack
      ensures Valid() && ok == (count == 0 || |old(stack)| + count <= maxStack)
      ensures ok ==> stack == old(stack) + Others(count)
    {
      for i := 0 to count
        invariant Valid() && stack == old(stack) + Others(i)
      {
        var pushed := PushSlot(OTHER);
        if !pushed {
          return false;
        }
      }
      return true;
    }

    method ReplaceSlots(popped: nat, pushed: nat) returns (ok: bool)
      requires Valid()
      modifies this`stack
      ensures Valid() && ok == Apply(REPLACE(popped, pushed), old(View()), maxStack).Some?
      ensures ok ==> View() == Apply(REPLACE(popped, pushed), old(View()), maxStack).value
    {
      ok := PopSlots(popped);
      if ok {
        ok := PushOther(pushed);
      }
    }

    method LoadLocal(index: nat, width: nat, reference: bool) returns (ok: bool)
      requires Valid()
      modifies this`stack
      ensures Valid() && ok == Apply(LOAD(index, width, reference), old(View()), maxStack).Some?
      ensures ok ==> View() == Apply(LOAD(index, width, reference), old(View()), maxStack).value
    {
      if index >= |locals| || width > |locals| - index {
        return false;
      }
      if reference {
        ok := PushSlot(locals[index]);
      } else {
        ok := PushOther(width);
      }
    }

    method StoreLocal(index: nat, width: nat, reference: bool) returns (ok: bool)
      requires Valid() && width > 0
      modifies this
      ensures Valid() && ok == Apply(STORE(index, width, reference), old(View()), maxStack).Some?
      ensures ok ==> View() == Apply(STORE(index, width, reference), old(View()), maxStack).value
    {
      if index >= |locals| || width > |locals| - index || width > |stack| {
        return false;
      }
      var value := if reference then stack[|stack| - 1] else OTHER;
      var popped := PopSlots(width);
      ghost var before := locals;
      for i := 0 to width
        invariant |locals| == |before|
        invariant forall k :: 0 <= k < |before| ==> locals[k] == if index <= k < index + i then value else before[k]
        invariant stack == old(stack)[..|old(stack)| - width]
      {
        locals := locals[index + i := value];
      }
      assert locals == before[..index] + seq(width, i => value) + before[index + width..];
      return popped;
    }

    method DuplicateSlots(copied: nat, below: nat) returns (ok: bool)
      requires Valid()
      modifies this`stack
      ensures Valid() && ok == Apply(DUPLICATE(copied, below), old(View()), maxStack).Some?
      ensures ok ==> View() == Apply(DUPLICATE(copied, below), old(View()), maxStack).value
    {
      if copied + below > |stack| || |stack| + copied > maxStack {
        return false;
      }
      var source := |stack| - copied;
      var insertion := source - below;
      stack := stack[..insertion] + stack[source..] + stack[insertion..];
      return true;
    }

    method SwapSlots() returns (ok: bool)
      requires Valid()
      modifies this`stack
      ensures Valid() && ok == Apply(EXCHANGE, old(View()), maxStack).Some?
      ensures ok ==> View() == Apply(EXCHANGE, old(View()), maxStack).value
    {
      if |stack| < 2 {
        return false;
      }
      var n := |stack|;
      var top := stack[n - 1];
      ghost var before := stack;
      stack := stack[n - 1 := stack[n - 2]];
      stack := stack[n - 2 := top];
      assert stack == before[..n - 2] + [before[n - 1], before[n - 2]];
      return true;
    }

    // One instruction. The conditions are tried in this order; each group ends
    // where the next takes over.

    method ExecuteLoads(node: Instruction) returns (ok: bool)
      requires Valid() && node.opcode < 54 && (21 <= node.opcode <= 25 ==> node.operand.Local?)
      modifies this
      ensures Valid() && ok == Apply(LoadShape(node), old(View()), maxStack).Some?
      ensures ok ==> View() == Apply(LoadShape(node), old(View()), maxStack).value
    {
      hide Apply;
      var opcode := node.opcode as int;
      if opcode == 0 {
        ok := Keep();
      } else if 1 <= opcode <= 8 || 11 <= opcode <= 13 || opcode == 16 || opcode == 17 || opcode == 18 || opcode == 19 {
        ok := ReplaceSlots(0, 1);
      } else if opcode == 9 || opcode == 10 || opcode == 14 || opcode == 15 || opcode == 20 {
        ok := ReplaceSlots(0, 2);
      } else if 21 <= opcode <= 25 {
        var width := if opcode == 22 || opcode == 24 then 2 else 1;
        ok := LoadLocal(node.operand.index, width, opcode == 25);
      } else if 26 <= opcode <= 45 {
        var index, width, reference := 0, 1, false;
        if opcode <= 29 {
          index := opcode - 26;
        } else if opcode <= 33 {
          index, width := opcode - 30, 2;
        } else if opcode <= 37 {
          index := opcode - 34;
        } else if opcode <= 41 {
          index, width := opcode - 38, 2;
        } else {
          index, reference := opcode - 42, true;
        }
        ok := LoadLocal(index, width, reference);
      } else if opcode == 47 || opcode == 49 {
        ok := ReplaceSlots(2, 2);
      } else {
        ok := ReplaceSlots(2, 1);
      }
    }

    method Keep() returns (ok: bool)
      requires Valid()
      ensures Valid() && ok && Apply(KEEP, View(), maxStack) == Some(View())
    {
      return true;
    }

    method ExecuteStores(node: Instruction) returns (ok: bool)
      requires Valid() && 54 <= node.opcode < 96 && (54 <= node.opcode <= 58 ==> node.operand.Local?)
      modifies this
      ensures Valid() && ok == Apply(StoreShape(node), old(View()), maxStack).Some?
      ensures ok ==> View() == Apply(StoreShape(node), old(View()), maxStack).value
    {
      hide Apply;
      var opcode := node.opcode as int;
      if 54 <= opcode <= 58 {
        var width := if opcode == 55 || opcode == 57 then 2 else 1;
        ok := StoreLocal(node.operand.index, width, opcode == 58);
      } else if 59 <= opcode <= 78 {
        var index, width, reference := 0, 1, false;
        if opcode <= 62 {
          index := opcode - 59;
        } else if opcode <= 66 {
          index, width := opcode - 63, 2;
        } else if opcode <= 70 {
          index := opcode - 67;
        } else if opcode <= 74 {
          index, width := opcode - 71, 2;
        } else {
          index, reference := opcode - 75, true;
        }
        ok := StoreLocal(index, width, reference);
      } else if opcode == 80 || opcode == 82 {
        ok := ReplaceSlots(4, 0);
      } else if 79 <= opcode <= 86 {
        ok := ReplaceSlots(3, 0);
      } else if opcode == 87 {
        ok := ReplaceSlots(1, 0);
      } else if opcode == 88 {
        ok := ReplaceSlots(2, 0);
      } else if opcode == 89 {
        ok := DuplicateSlots(1, 0);
      } else if opcode == 90 {
        ok := DuplicateSlots(1, 1);
      } else if opcode == 91 {
        ok := DuplicateSlots(1, 2);
      } else if opcode == 92 {
        ok := DuplicateSlots(2, 0);
      } else if opcode == 93 {
        ok := DuplicateSlots(2, 1);
      } else if opcode == 94 {
        ok := DuplicateSlots(2, 2);
      } else {
        ok := SwapSlots();
      }
    }

    method ExecuteArithmetic(opcode: int) returns (ok: bool)
      requires Valid() && 96 <= opcode < 153
      modifies this
      ensures Valid() && ok == Apply(ArithmeticShape(opcode), old(View()), maxStack).Some?
      ensures ok ==> View() == Apply(ArithmeticShape(opcode), old(View()), maxStack).value
    {
      hide Apply;
      if 96 <= opcode <= 115 {
        var kind := (opcode - 96) % 4;
        ok := ReplaceSlots(if kind == 1 || kind == 3 then 4 else 2, if kind == 1 || kind == 3 then 2 else 1);
      } else if 116 <= opcode <= 119 {
        ok := Keep();
      } else if opcode == 120 || opcode == 122 || opcode == 124 {
        ok := ReplaceSlots(2, 1);
      } else if opcode == 121 || opcode == 123 || opcode == 125 {
        ok := ReplaceSlots(3, 2);
      } else if 126 <= opcode <= 131 {
        ok := ReplaceSlots(if opcode % 2 != 0 then 4 else 2, if opcode % 2 != 0 then 2 else 1);
      } else if opcode == 133 || opcode == 135 || opcode == 140 || opcode == 141 {
        ok := ReplaceSlots(1, 2);
      } else if opcode == 136 || opcode == 137 || opcode == 142 || opcode == 144 {
        ok := ReplaceSlots(2, 1);
      } else if opcode == 138 || opcode == 143 {
        ok := ReplaceSlots(2, 2);
      } else if opcode == 132 || 134 <= opcode <= 147 {
        ok := Keep();
      } else if opcode == 148 || opcode == 151 || opcode == 152 {
        ok := ReplaceSlots(4, 1);
      } else {
        ok := ReplaceSlots(2, 1);
      }
    }

    method ExecuteControl(opcode: int) returns (ok: bool)
      requires Valid() && 153 <= opcode < 178
      modifies this
      ensures Valid() && ok == Apply(ControlShape(opcode), old(View()), maxStack).Some?
      ensures ok ==> View() == Apply(ControlShape(opcode), old(View()), maxStack).value
    {
      if 153 <= opcode <= 158 {
        ok := ReplaceSlots(1, 0);
      } else if 159 <= opcode <= 166 {
        ok := ReplaceSlots(2, 0);
      } else if opcode == 170 || opcode == 171 {
        ok := ReplaceSlots(1, 0);
      } else if opcode == 167 {
        ok := Keep();
      } else if opcode == 168 || opcode == 169 {
        ok := false;
      } else {
        var width := if opcode == 173 || opcode == 175 then 2 else if opcode == 177 then 0 else 1;
        ok := ReplaceSlots(width, 0);
      }
    }

    method ExecuteMember(pool: Pool, node: Instruction) returns (ok: bool)
      requires Valid() && 178 <= node.opcode < 187
      modifies this
      ensures Valid()
      ensures ok == Apply(ObjectShape(node, MemberSlots(pool, MemberIndex(node))), old(View()), maxStack).Some?
      ensures ok ==> View() == Apply(ObjectShape(node, MemberSlots(pool, MemberIndex(node))), old(View()), maxStack).value
    {
      hide DescriptorSlots, ToU2;
      var opcode := node.opcode as int;
      var text := MemberDescriptor(pool, MemberIndex(node));
      if text.None? {
        return false;
      }
      var known, arguments, result := CountSlots(text.value);
      if !known {
        return false;
      }
      if opcode == 178 {
        ok := ReplaceSlots(0, result);
      } else if opcode == 179 {
        ok := ReplaceSlots(result, 0);
      } else if opcode == 180 {
        ok := ReplaceSlots(1, result);
      } else if opcode == 181 {
        ok := ReplaceSlots(ToU2(result + 1), 0);
      } else if opcode == 184 || opcode == 186 {
        ok := ReplaceSlots(arguments, result);
      } else {
        ok := ReplaceSlots(ToU2(arguments + 1), result);
      }
    }

    method ExecuteObject(node: Instruction) returns (ok: bool)
      requires Valid() && 187 <= node.opcode && (node.opcode == 197 ==> node.operand.MultiANewArray?)
      modifies this
      ensures Valid() && ok == Apply(ObjectShape(node, None), old(View()), maxStack).Some?
      ensures ok ==> View() == Apply(ObjectShape(node, None), old(View()), maxStack).value
    {
      var opcode := node.opcode as int;
      if opcode == 187 {
        ok := ReplaceSlots(0, 1);
      } else if opcode == 188 || opcode == 189 {
        ok := ReplaceSlots(1, 1);
      } else if opcode == 197 {
        ok := ReplaceSlots(node.operand.dimensions, 1);
      } else if opcode == 190 || opcode == 193 {
        ok := ReplaceSlots(1, 1);
      } else if opcode == 191 {
        ok := ReplaceSlots(1, 0);
      } else if opcode == 192 {
        ok := |stack| != 0;
      } else if opcode == 194 || opcode == 195 || opcode == 198 || opcode == 199 {
        ok := ReplaceSlots(1, 0);
      } else {
        ok := opcode == 200;
      }
    }

    method Execute(cls: ClassInfo, node: Instruction) returns (ok: bool, terminal: bool)
      requires Valid() && WellFormed(node)
      modifies this
      ensures Valid() && ok == Apply(NodeShape(cls, node), old(View()), maxStack).Some?
      ensures ok ==> View() == Apply(NodeShape(cls, node), old(View()), maxStack).value
      ensures terminal == IsTerminal(node.opcode)
    {
      hide Apply, LoadShape, StoreShape, ArithmeticShape, ControlShape, MemberSlots;
      terminal := 172 <= node.opcode <= 177 || node.opcode == 191;
      if node.opcode < 54 {
        ok := ExecuteLoads(node);
      } else if node.opcode < 96 {
        ok := ExecuteStores(node);
      } else if node.opcode < 153 {
        ok := ExecuteArithmetic(node.opcode);
      } else if node.opcode < 178 {
        ok := ExecuteControl(node.opcode);
      } else if node.opcode < 187 {
        ok := ExecuteMember(cls.pool, node);
      } else {
        assert ObjectShape(node, None) == ObjectShape(node, MemberSlots(cls.pool, MemberIndex(node)));
        ok := ExecuteObject(node);
      }
    }
  }
}
