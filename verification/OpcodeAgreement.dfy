/** The slot effects the analysis works with are those of the typed instructions. */
module OpcodeAgreement {
  import opened Bytes
  import opened Status
  import opened Instructions
  import opened Descriptors
  import opened StackShapes
  import opened OpcodeTypes

  /** The first slots of a rearrangement in order, from lowest on. */
  function Upward(from: nat, n: nat): (r: seq<nat>)
    ensures |r| == n
  {
    seq(n, i requires 0 <= i < n => from + i)
  }

  predicate NoReference(types: seq<JType>) {
    REFERENCE !in types
  }

  /** A slot effect is that of an action: as many slots are taken and given, and
      whatever the effect moves the action moves. */
  predicate Agrees(shape: Shape, action: Action) {
    match action
    case Computes(operands, results) =>
      || shape == REPLACE(WordsOfAll(operands), WordsOfAll(results))
      || (shape == KEEP && WordsOfAll(operands) == WordsOfAll(results) && NoReference(operands))
    case LoadsLocal(t, index) => shape == LOAD(index, Words(t), t == REFERENCE)
    case StoresLocal(t, index) => shape == STORE(index, Words(t), t == REFERENCE)
    case Increments(_) => shape == KEEP
    case Rearranges(takes, order) =>
      || (order == [] && shape == REPLACE(takes, 0))
      || (shape.DUPLICATE? && takes == shape.copied + shape.below
          && order == Upward(shape.below, shape.copied) + Upward(0, takes))
      || (shape == EXCHANGE && takes == 2 && order == [1, 0])
      || (shape == PEEK && takes == 1 && order == [0])
    case NoMeaning => shape == UNKNOWN
  }

  lemma WordsOfOne(t: JType)
    ensures WordsOfAll([t]) == Words(t)
  {
    assert [t][..0] == [];
  }

  lemma WordsOfTwo(a: JType, b: JType)
    ensures WordsOfAll([a, b]) == Words(a) + Words(b)
  {
    assert [a, b][..1] == [a];
    WordsOfOne(a);
  }

  lemma WordsOfThree(a: JType, b: JType, c: JType)
    ensures WordsOfAll([a, b, c]) == Words(a) + Words(b) + Words(c)
  {
    assert [a, b, c][..2] == [a, b];
    WordsOfTwo(a, b);
  }

  /** The sums that occur. */
  lemma WordsOfFew()
    ensures WordsOfAll([]) == 0
    ensures forall t :: WordsOfAll([t]) == Words(t)
    ensures forall a, b :: WordsOfAll([a, b]) == Words(a) + Words(b)
    ensures forall a, b, c :: WordsOfAll([a, b, c]) == Words(a) + Words(b) + Words(c)
  {
    forall t ensures WordsOfAll([t]) == Words(t) { WordsOfOne(t); }
    forall a, b ensures WordsOfAll([a, b]) == Words(a) + Words(b) { WordsOfTwo(a, b); }
    forall a, b, c ensures WordsOfAll([a, b, c]) == Words(a) + Words(b) + Words(c) { WordsOfThree(a, b, c); }
  }

  lemma ConstantsAgree(node: Instruction, action: Action)
    requires node.opcode < 21 && Does(node, action)
    ensures Agrees(ShapeOf(node, None), action)
  {
    hide WordsOfAll;
    WordsOfFew();
  }

  lemma LoadsAgree(node: Instruction)
    requires WellFormed(node) && 21 <= node.opcode < 54
    ensures Agrees(ShapeOf(node, None), OpcodeAction(node))
  {
    hide WordsOfAll;
    WordsOfFew();
  }

  lemma StoresAgree(node: Instruction)
    requires WellFormed(node) && 54 <= node.opcode < 87
    ensures Agrees(ShapeOf(node, None), OpcodeAction(node))
  {
    hide WordsOfAll;
    WordsOfFew();
  }

  lemma StackAgrees(node: Instruction)
    requires 87 <= node.opcode < 96
    ensures Agrees(ShapeOf(node, None), OpcodeAction(node))
  {
    assert Upward(0, 1) == [0] && Upward(0, 2) == [0, 1] && Upward(0, 3) == [0, 1, 2] && Upward(0, 4) == [0, 1, 2, 3];
    assert Upward(1, 1) == [1] && Upward(2, 1) == [2] && Upward(1, 2) == [1, 2] && Upward(2, 2) == [2, 3];
  }

  lemma MathAgrees(node: Instruction)
    requires 96 <= node.opcode < 132
    ensures Agrees(ShapeOf(node, None), OpcodeAction(node))
  {
    hide WordsOfAll;
    WordsOfFew();
  }

  lemma ConversionsAgree(node: Instruction)
    requires 132 <= node.opcode < 153
    ensures Agrees(ShapeOf(node, None), OpcodeAction(node))
  {
    hide WordsOfAll;
    WordsOfFew();
  }

  lemma BranchesAgree(node: Instruction)
    requires 153 <= node.opcode < 178
    ensures Agrees(ShapeOf(node, None), OpcodeAction(node))
  {
    hide WordsOfAll;
    WordsOfFew();
  }

  lemma {:induction false} WordsOfInts(n: nat)
    ensures WordsOfAll(Repeated(INT, n)) == n
  {
    if n > 0 {
      WordsOfInts(n - 1);
      assert Repeated(INT, n)[..n - 1] == Repeated(INT, n - 1);
    }
  }

  lemma ObjectsAgree(node: Instruction)
    requires WellFormed(node) && 187 <= node.opcode
    ensures Agrees(ShapeOf(node, None), OpcodeAction(node))
  {
    hide WordsOfAll;
    WordsOfFew();
    if node.opcode == 197 {
      WordsOfInts(node.operand.dimensions);
    }
  }

  /** Instruction by instruction: what is counted is what is taken, given and moved,
      and exactly the instructions without a meaning here are given up on. */
  lemma OpcodesAgree(node: Instruction, action: Action)
    requires WellFormed(node) && !(178 <= node.opcode <= 186) && Does(node, action)
    ensures Agrees(ShapeOf(node, None), action)
  {
    hide ShapeOf, OpcodeAction, Agrees, WellFormed;
    if node.opcode < 21 {
      ConstantsAgree(node, action);
    } else {
      assert action == OpcodeAction(node);
      if node.opcode < 54 {
        LoadsAgree(node);
      } else if node.opcode < 87 {
        StoresAgree(node);
      } else if node.opcode < 96 {
        StackAgrees(node);
      } else if node.opcode < 132 {
        MathAgrees(node);
      } else if node.opcode < 153 {
        ConversionsAgree(node);
      } else if node.opcode < 178 {
        BranchesAgree(node);
      } else {
        ObjectsAgree(node);
      }
    }
  }

  // ----- fields and calls -----

  lemma TypeSlots(t: FieldType)
    ensures Words(TypeOf(t)) == Slots(t)
  {
  }

  lemma {:induction false} TypesSlots(types: seq<FieldType>)
    ensures WordsOfAll(TypesOf(types)) == SlotsOfAll(types)
    decreases |types|
  {
    if types != [] {
      var n := |types| - 1;
      TypesSlots(types[..n]);
      assert TypesOf(types)[..n] == TypesOf(types[..n]);
      TypeSlots(types[n]);
      SlotsOfLast(types[..n], types[n]);
      assert types == types[..n] + [types[n]];
    }
  }

  lemma {:induction false} SlotsOfLast(front: seq<FieldType>, last: FieldType)
    ensures SlotsOfAll(front + [last]) == SlotsOfAll(front) + Slots(last)
    decreases |front|
  {
    if front == [] {
      assert front + [last] == [last] && [last][1..] == [];
    } else {
      assert (front + [last])[1..] == front[1..] + [last];
      SlotsOfLast(front[1..], last);
    }
  }

  lemma {:induction false} WordsJoin(a: seq<JType>, b: seq<JType>)
    ensures WordsOfAll(a + b) == WordsOfAll(a) + WordsOfAll(b)
    decreases |b|
  {
    if b == [] {
      assert a + b == a;
    } else {
      assert (a + b)[..|a + b| - 1] == a + b[..|b| - 1];
      WordsJoin(a, b[..|b| - 1]);
    }
  }

  lemma FieldsAgree(node: Instruction, t: FieldType)
    requires 178 <= node.opcode < 182
    ensures Agrees(ShapeOf(node, Some(SlotCount(0, Slots(t)))), FieldAction(node.opcode, t))
  {
    hide WordsOfAll;
    WordsOfFew();
    TypeSlots(t);
  }

  lemma CallsAgree(node: Instruction, t: MethodType)
    requires 182 <= node.opcode <= 186 && |t.result| <= 1 && SlotsOfAll(t.parameters) < 0xFFFF
    ensures Agrees(ShapeOf(node, Some(SlotCount(SlotsOfAll(t.parameters), if t.result == [] then 0 else Slots(t.result[0])))),
                   CallAction(node.opcode, t))
  {
    hide WordsOfAll, SlotsOfAll;
    WordsOfFew();
    TypesSlots(t.parameters);
    if t.result != [] {
      assert TypesOf(t.result) == [TypeOf(t.result[0])];
      TypeSlots(t.result[0]);
    } else {
      assert TypesOf(t.result) == [];
    }
    WordsJoin([REFERENCE], TypesOf(t.parameters));
    assert [] + TypesOf(t.parameters) == TypesOf(t.parameters);
  }
}
