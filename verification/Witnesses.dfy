/** Methods that meet what the main theorems ask for: a body of one instruction,
    and the shortest constructor there is. */
module Witnesses {
  import opened Bytes
  import opened Status
  import opened Instructions
  import opened InstructionRoundTrip
  import opened References
  import opened CodeEditor
  import opened Insertion
  import opened Simulation
  import opened GuardedBody
  import opened GuardedRuns
  import opened Descriptors
  import opened ConstantPool
  import opened StackShapes
  import opened TraceWork
  import opened InitFlow
  import opened ConstructorInit
  import opened ConstructorSoundness
  import CodeStore
  import CodeStoreRoundTrip

  const NOP := Instruction(0, 0, false, NoOperand)
  const RETURN := Instruction(0, 177, false, NoOperand)

  /** A method that returns. */
  const BODY := CodeStore.Bare(0, 1, [RETURN], 1, [])

  lemma BodyIsConsistent()
    ensures Consistent(BODY)
  {
    assert OffsetOf(BODY.code, 1) == 1;
  }

  /** At most three bytes, wherever it stands. */
  predicate Short(node: Instruction) {
    node.opcode <= 181 && node.opcode != 170 && node.opcode != 171 && !node.wide && node.operand.Kind() == KindOf(node.opcode)
  }

  predicate AllShort(code: seq<Instruction>) {
    forall i :: 0 <= i < |code| ==> Short(code[i])
  }

  lemma ShortLength(node: Instruction, offset: nat)
    requires Short(node)
    ensures LengthAt(node, offset) <= 3
  {
  }

  lemma ShortMapped(m: RefMap, node: Instruction)
    requires Short(node)
    ensures Short(MapNode(m, node))
  {
    hide MapPosition;
  }

  lemma {:induction false} ShortOffsets(code: seq<Instruction>, i: nat)
    requires AllShort(code) && i <= |code|
    ensures OffsetOf(code, i) <= 3 * i
  {
    hide LengthAt, Short, OffsetOf;
    if i == 0 {
      FirstOffset(code);
    } else {
      ShortOffsets(code, i - 1);
      OffsetStep(code, i - 1);
      ShortLength(code[i - 1], OffsetOf(code, i - 1));
    }
  }

  lemma ShortCode(m: RefMap, code: seq<Instruction>)
    requires AllShort(code)
    ensures AllShort(MapCode(m, code))
  {
    hide Short, MapNode;
    forall i | 0 <= i < |code| ensures Short(MapNode(m, code[i])) {
      ShortMapped(m, code[i]);
    }
  }

  /** Short instructions make a short method. */
  lemma ShortInsertion(e: Editor, block: seq<Instruction>)
    requires AllShort(e.code) && AllShort(block)
    ensures Committed(e, 0, block).codeLength <= 3 * (|e.code| + |block|)
  {
    var indexed := MapCode(TO_INDEX(e.code, e.codeLength), e.code);
    var spliced := Spliced(indexed, 0, block);
    var shifted := MapCode(SHIFT(0, |block|), spliced);
    SplicedLength(e, block);
    hide Committed, OffsetOf, Short;
    ShortCode(TO_INDEX(e.code, e.codeLength), e.code);
    hide MapCode;
    assert AllShort(spliced);
    ShortCode(SHIFT(0, |block|), spliced);
    ShortOffsets(shifted, |shifted|);
  }

  lemma SplicedLength(e: Editor, block: seq<Instruction>)
    ensures var shifted := MapCode(SHIFT(0, |block|), Spliced(MapCode(TO_INDEX(e.code, e.codeLength), e.code), 0, block));
      Committed(e, 0, block).codeLength == OffsetOf(shifted, |shifted|)
  {
    hide MapCode, OffsetOf, Relaid;
  }

  /** A call in front of it can be inserted, and so can a guard. */
  lemma BodyIsInsertable()
    ensures Insertable(BODY, 0, [NOP])
    ensures Guardable(BODY, [NOP], [RETURN]) && NoWayBack(BODY)
  {
    hide Committed, Consistent;
    BodyIsConsistent();
    ShortInsertion(BODY, [NOP]);
    ShortInsertion(BODY, GuardBlock([NOP], [RETURN]));
  }

  /** And it can be stored and loaded. */
  lemma BodyIsStorable()
    ensures CodeStoreRoundTrip.Storable([Unusable], BODY)
  {
    BodyIsConsistent();
  }

  // ----- a constructor -----

  /** Names and types of a class A with superclass B, and B's constructor. */
  const POOL: Pool := [Unusable, Utf8("A"), Named(CLASS, 1), Utf8("B"), Named(CLASS, 3), Utf8("<init>"), Utf8("()V"),
                       NameAndType(5, 6), Ref(METHODREF, 4, 7)]

  const ALOAD_0 := Instruction(0, 42, false, NoOperand)
  const CALL := Instruction(1, 183, false, CpIndex(8))
  const LEAVE_4 := Instruction(4, 177, false, NoOperand)

  /** It loads this, calls super() and returns. */
  const CONSTRUCTOR := Method(ClassInfo(POOL, 2, 4), [ALOAD_0, CALL, LEAVE_4], 1, 1)

  lemma FirstParameter(t: MethodType)
    requires ValidMethod(t) && t.parameters != []
    ensures |RenderMethod(t)| >= 2 && RenderMethod(t)[1] != ')'
  {
    TypeIsNotClosing(t.parameters[0]);
  }

  lemma FirstOfResult(t: MethodType)
    requires ValidMethod(t) && t.parameters == [] && t.result != []
    ensures |RenderMethod(t)| >= 3 && RenderMethod(t)[2] != 'V'
  {
    assert RenderMethod(t) == "()" + Render(t.result[0]);
  }

  /** The only valid reading of ()V. */
  lemma VoidReading(t: MethodType)
    requires ValidMethod(t) && RenderMethod(t) == "()V"
    ensures t == MethodType([], [])
  {
    if t.parameters != [] {
      FirstParameter(t);
    } else if t.result != [] {
      FirstOfResult(t);
    }
  }

  lemma ConstructorDescriptor()
    ensures MemberDescriptor(POOL, 8) == Some("()V") && InitArguments(CONSTRUCTOR.cls, CALL) == Some(0)
  {
    assert At(POOL, 8) == Some(Ref(METHODREF, 4, 7)) && At(POOL, 7) == Some(NameAndType(5, 6));
    assert TextAt(POOL, 6) == Some("()V") && TextAt(POOL, 5) == Some("<init>");
    EmptyDescriptor();
  }

  lemma EmptyDescriptor()
    ensures RenderMethod(MethodType([], [])) == "()V" && DescriptorSlots("()V") == Some(SlotCount(0, 0))
  {
    MethodScan(MethodType([], []));
    assert RenderAll([]) == "" && CountedAll([]) == 0;
    assert RenderMethod(MethodType([], [])) == "()V";
  }

  lemma ConstructorIsFit()
    ensures Fit(CONSTRUCTOR)
  {
    hide OwnNamesOnce, FitDescriptor, MemberDescriptor;
    ConstructorIsLaidOut();
    NamesOnce();
    ConstructorDescriptor();
    DescriptorFits();
    var m := CONSTRUCTOR;
    hide LaidOut, AllWellFormed;
    forall i | 0 <= i < |m.code| && NamesMember(m.code[i].opcode) ensures FitDescriptorAt(m, i) {
      assert m.code[i] == CALL && MemberIndex(CALL) == 8;
    }
  }

  lemma ConstructorIsLaidOut()
    ensures AllWellFormed(CONSTRUCTOR.code) && LaidOut(CONSTRUCTOR.code, OffsetOf(CONSTRUCTOR.code, |CONSTRUCTOR.code|))
  {
    var code := CONSTRUCTOR.code;
    assert OffsetOf(code, 1) == 1;
    assert OffsetOf(code, 2) == 4;
    assert OffsetOf(code, 3) == 5;
  }

  lemma DescriptorFits()
    ensures FitDescriptor(183, "()V")
  {
    EmptyDescriptor();
    assert ValidMethod(MethodType([], []));
    forall t | ValidMethod(t) && "()V" == RenderMethod(t)
      ensures NoWideArrays(t.parameters) && NoWideArrays(t.result) && SlotsOfAll(t.parameters) <= 255
    {
      VoidReading(t);
    }
  }

  lemma NamesOnce()
    ensures OwnNamesOnce(CONSTRUCTOR.cls)
  {
    assert ClassName(POOL, 2) == Some("A") && ClassName(POOL, 4) == Some("B");
    forall c: u2 | OwnClass(CONSTRUCTOR.cls, c) ensures c == 2 || c == 4 {
    }
  }

  /** Its typing: this is loaded, and the call ends what there is to trace. */
  lemma ConstructorIsTyped()
    ensures Certificate(CONSTRUCTOR, [Some(Work([THIS], [])), Some(Work([THIS], [THIS])), None])
  {
    var m, cert := CONSTRUCTOR, [Some(Work([THIS], [])), Some(Work([THIS], [THIS])), None];
    ConstructorDescriptor();
    assert Entry(m) == Work([THIS], []) by { assert [THIS] + Others(0) == [THIS]; }
    assert NodeShape(m.cls, ALOAD_0) == LOAD(0, 1, true);
    assert Flow(m, 0, cert[0].value) == Some(Work([THIS], [THIS])) by {
      assert InitArguments(m.cls, ALOAD_0) == None;
      assert [] + [THIS] == [THIS];
    }
    assert Successors(m.code, 0) == [1];
    assert Flow(m, 1, cert[1].value) == None;
    hide InitArguments, Flow, Successors;
    assert CertifiedAt(m, cert, 0) && CertifiedAt(m, cert, 1) && CertifiedAt(m, cert, 2);
  }
}
