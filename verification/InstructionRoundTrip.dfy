/** Parsing and encoding undo each other, and both agree with LengthAt. */
module InstructionRoundTrip {
  import opened Bytes
  import opened Status
  import opened Instructions
  import opened InstructionCodec

  /** Padding is skipped unchecked on the way in and written as zero on the way
      out, so these are the bytes that decide whether a switch survives. */
  predicate ZeroPadded(data: seq<u1>, node: Instruction) {
    node.operand.IsSwitch() ==>
      && node.offset + 1 + Padding(node.offset) <= |data|
      && forall i :: node.offset < i <= node.offset + Padding(node.offset) ==> data[i] == 0
  }

  predicate AllZeroPadded(data: seq<u1>, code: seq<Instruction>) {
    forall i :: 0 <= i < |code| ==> ZeroPadded(data, code[i])
  }

  /** Every switch delta fits the four bytes it is stored in. */
  predicate SwitchInRange(node: Instruction) {
    match node.operand
    case TableSwitch(otherwise, _, _, targets) =>
      && FitsI4(otherwise - node.offset)
      && forall i :: 0 <= i < |targets| ==> FitsI4(targets[i] - node.offset)
    case LookupSwitch(otherwise, cases) =>
      && FitsI4(otherwise - node.offset)
      && forall i :: 0 <= i < |cases| ==> FitsI4(cases[i].target - node.offset)
    case _ => true
  }

  predicate AllSwitchesInRange(code: seq<Instruction>) {
    forall i :: 0 <= i < |code| ==> SwitchInRange(code[i])
  }

  // ----- runs of switch entries -----

  lemma {:induction false} TargetsParsed(c: Cursor, n: nat, at: int)
    requires c.Valid() && ReadTargets(c, n, at).rest.ok
    ensures Stands(c.data, c.pos, DeltaBytes(ReadTargets(c, n, at).value, at))
    ensures forall i :: 0 <= i < n ==> FitsI4(ReadTargets(c, n, at).value[i] - at)
  {
    hide Stands, U4Bytes, ReadU4, ToU4, AsI4;
    if n == 0 {
      StandsEmpty(c.data, c.pos);
    } else {
      TargetsParsed(c, n - 1, at);
      var front := ReadTargets(c, n - 1, at);
      var delta := ReadU4(front.rest);
      var all := ReadTargets(c, n, at).value;
      assert all[..n - 1] == front.value && all[n - 1] - at == AsI4(delta.value);
      CastU4(delta.value);
      ReadFindsU4(front.rest);
      StandsConcat(c.data, c.pos, DeltaBytes(front.value, at), U4Bytes(delta.value));
    }
  }

  lemma {:induction false} TargetsEncoded(data: seq<u1>, p: nat, targets: seq<int>, at: int)
    requires p <= |data|
    requires forall i :: 0 <= i < |targets| ==> FitsI4(targets[i] - at)
    requires Stands(data, p, DeltaBytes(targets, at))
    ensures ReadTargets(Cursor(data, p, true), |targets|, at)
         == Read(targets, Cursor(data, p + 4 * |targets|, true))
  {
    hide Stands, U4Bytes, ReadU4, ToU4, AsI4, FitsI4;
    if targets != [] {
      var n := |targets| - 1;
      var delta := ToU4(targets[n] - at);
      StandsConcat(data, p, DeltaBytes(targets[..n], at), U4Bytes(delta));
      TargetsEncoded(data, p, targets[..n], at);
      StandingU4IsRead(data, p + 4 * n, delta);
      CastI4(targets[n] - at);
      assert targets == targets[..n] + [targets[n]];
    }
  }

  lemma {:induction false} CasesParsed(c: Cursor, n: nat, at: int)
    requires c.Valid() && ReadCases(c, n, at).rest.ok
    ensures Stands(c.data, c.pos, CaseBytes(ReadCases(c, n, at).value, at))
    ensures forall i :: 0 <= i < n ==> FitsI4(ReadCases(c, n, at).value[i].target - at)
  {
    hide Stands, U4Bytes, ReadU4, ToU4, AsI4;
    if n == 0 {
      StandsEmpty(c.data, c.pos);
    } else {
      CasesParsed(c, n - 1, at);
      var front := ReadCases(c, n - 1, at);
      var key := ReadU4(front.rest);
      var delta := ReadU4(key.rest);
      var all := ReadCases(c, n, at).value;
      assert all[..n - 1] == front.value;
      assert all[n - 1] == Case(AsI4(key.value), at + AsI4(delta.value));
      CastU4(key.value);
      CastU4(delta.value);
      ReadFindsU4(front.rest);
      ReadFindsU4(key.rest);
      StandsConcat(c.data, c.pos, CaseBytes(front.value, at), U4Bytes(key.value));
      StandsConcat(c.data, c.pos, CaseBytes(front.value, at) + U4Bytes(key.value), U4Bytes(delta.value));
    }
  }

  lemma {:induction false} CasesEncoded(data: seq<u1>, p: nat, cases: seq<Case>, at: int)
    requires p <= |data|
    requires forall i :: 0 <= i < |cases| ==> FitsI4(cases[i].target - at)
    requires Stands(data, p, CaseBytes(cases, at))
    ensures ReadCases(Cursor(data, p, true), |cases|, at)
         == Read(cases, Cursor(data, p + 8 * |cases|, true))
  {
    hide Stands, U4Bytes, ReadU4, ToU4, AsI4;
    if cases != [] {
      var n := |cases| - 1;
      var key := ToU4(cases[n].key);
      var delta := ToU4(cases[n].target - at);
      StandsConcat(data, p, CaseBytes(cases[..n], at), U4Bytes(key));
      StandsConcat(data, p, CaseBytes(cases[..n], at) + U4Bytes(key), U4Bytes(delta));
      CasesEncoded(data, p, cases[..n], at);
      StandingU4IsRead(data, p + 8 * n, key);
      StandingU4IsRead(data, p + 8 * n + 4, delta);
      CastI4(cases[n].key);
      CastI4(cases[n].target - at);
      assert cases == cases[..n] + [cases[n]];
    }
  }

  lemma ZerosStand(data: seq<u1>, p: nat, n: nat)
    ensures Stands(data, p, Zeros(n)) <==> p + n <= |data| && forall i :: p <= i < p + n ==> data[i] == 0
  {
    if p + n <= |data| && Stands(data, p, Zeros(n)) {
      forall i | p <= i < p + n ensures data[i] == 0 {
        assert data[i] == data[p..p + n][i - p];
      }
    }
  }

  /** Consecutive pieces stand exactly when each stands in its place. */
  lemma StandsFour(data: seq<u1>, p: nat, a: seq<u1>, b: seq<u1>, c: seq<u1>, d: seq<u1>)
    ensures Stands(data, p, a + b + c + d)
       <==> Stands(data, p, a) && Stands(data, p + |a|, b) && Stands(data, p + |a| + |b|, c)
            && Stands(data, p + |a| + |b| + |c|, d)
  {
    hide Stands;
    StandsConcat(data, p, a + b + c, d);
    StandsConcat(data, p, a + b, c);
    StandsConcat(data, p, a, b);
  }

  lemma StandsFive(data: seq<u1>, p: nat, a: seq<u1>, b: seq<u1>, c: seq<u1>, d: seq<u1>, e: seq<u1>)
    ensures Stands(data, p, a + b + c + d + e)
       <==> Stands(data, p, a) && Stands(data, p + |a|, b) && Stands(data, p + |a| + |b|, c)
            && Stands(data, p + |a| + |b| + |c|, d) && Stands(data, p + |a| + |b| + |c| + |d|, e)
  {
    hide Stands;
    StandsConcat(data, p, a + b + c + d, e);
    StandsFour(data, p, a, b, c, d);
  }

  // ----- the two switches -----

  lemma PaddingAligns(at: nat)
    ensures (at + 1 + Padding(at)) % 4 == 0
    ensures Padding(at) == (4 - (at + 1) % 4) % 4
  {
  }

  /** A parsed switch is well formed and takes LengthAt bytes. */
  lemma TableSwitchShape(c: Cursor, node: Instruction)
    requires c.Valid() && c.pos == node.offset + 1 && |c.data| <= MAX_CODE_LENGTH
    requires ParseTableSwitch(c, node.offset).Success? && ParseTableSwitch(c, node.offset).value.rest.ok
    requires node.operand == ParseTableSwitch(c, node.offset).value.value
    requires node.opcode == 170 && !node.wide
    ensures WellFormed(node) && SwitchInRange(node)
    ensures ParseTableSwitch(c, node.offset).value.rest.pos == node.offset + LengthAt(node, node.offset)
  {
    hide Stands, U4Bytes, ReadU4, ToU4, AsI4, ReadTargets, DeltaBytes, Padding;
    PaddingAligns(node.offset);
    var at := node.offset;
    var otherwise := ReadU4(SkipPadding(c));
    var low := ReadU4(otherwise.rest);
    var high := ReadU4(low.rest);
    TargetsParsed(high.rest, AsI4(high.value) as int - AsI4(low.value) as int + 1, at);
  }

  /** It encodes to the bytes it was read from exactly when its padding was zero. */
  lemma TableSwitchParsed(c: Cursor, node: Instruction)
    requires c.Valid() && c.pos == node.offset + 1
    requires ParseTableSwitch(c, node.offset).Success? && ParseTableSwitch(c, node.offset).value.rest.ok
    requires node.operand == ParseTableSwitch(c, node.offset).value.value
    ensures Stands(c.data, c.pos, OperandBytes(node, node.offset).value) <==> ZeroPadded(c.data, node)
  {
    hide Stands, U4Bytes, ReadU4, ToU4, AsI4, Padding, Zeros, ReadTargets, DeltaBytes;
    var at := node.offset;
    PaddingAligns(at);
    var aligned := SkipPadding(c);
    var otherwise := ReadU4(aligned);
    var low := ReadU4(otherwise.rest);
    var high := ReadU4(low.rest);
    var span := AsI4(high.value) as int - AsI4(low.value) as int + 1;
    var targets := ReadTargets(high.rest, span, at);
    TargetsParsed(high.rest, span, at);
    ReadFindsU4(aligned);
    ReadFindsU4(otherwise.rest);
    ReadFindsU4(low.rest);
    CastU4(otherwise.value);
    CastU4(low.value);
    CastU4(high.value);
    StandsFive(c.data, c.pos, Zeros(Padding(at)), U4Bytes(otherwise.value), U4Bytes(low.value),
               U4Bytes(high.value), DeltaBytes(targets.value, at));
    ZerosStand(c.data, c.pos, Padding(at));
  }

  lemma LookupSwitchShape(c: Cursor, node: Instruction)
    requires c.Valid() && c.pos == node.offset + 1
    requires ParseLookupSwitch(c, node.offset).Success? && ParseLookupSwitch(c, node.offset).value.rest.ok
    requires node.operand == ParseLookupSwitch(c, node.offset).value.value
    requires node.opcode == 171 && !node.wide
    ensures WellFormed(node) && SwitchInRange(node)
    ensures ParseLookupSwitch(c, node.offset).value.rest.pos == node.offset + LengthAt(node, node.offset)
  {
    hide Stands, U4Bytes, ReadU4, ToU4, AsI4, ReadCases, CaseBytes, Padding;
    PaddingAligns(node.offset);
    var otherwise := ReadU4(SkipPadding(c));
    var count := ReadU4(otherwise.rest);
    CasesParsed(count.rest, AsI4(count.value), node.offset);
  }

  lemma LookupSwitchParsed(c: Cursor, node: Instruction)
    requires c.Valid() && c.pos == node.offset + 1
    requires ParseLookupSwitch(c, node.offset).Success? && ParseLookupSwitch(c, node.offset).value.rest.ok
    requires node.operand == ParseLookupSwitch(c, node.offset).value.value
    ensures Stands(c.data, c.pos, OperandBytes(node, node.offset).value) <==> ZeroPadded(c.data, node)
  {
    hide Stands, U4Bytes, ReadU4, ToU4, AsI4, Padding, Zeros, ReadCases, CaseBytes;
    var at := node.offset;
    PaddingAligns(at);
    var aligned := SkipPadding(c);
    var otherwise := ReadU4(aligned);
    var count := ReadU4(otherwise.rest);
    var cases := ReadCases(count.rest, AsI4(count.value), at);
    CasesParsed(count.rest, AsI4(count.value), at);
    ReadFindsU4(aligned);
    ReadFindsU4(otherwise.rest);
    CastU4(otherwise.value);
    CastU4(count.value);
    StandsFour(c.data, c.pos, Zeros(Padding(at)), U4Bytes(otherwise.value), U4Bytes(count.value),
               CaseBytes(cases.value, at));
    ZerosStand(c.data, c.pos, Padding(at));
  }

  // ----- every other operand -----

  /** Facts about the up to four bytes behind a cursor, in every grouping the
      operand shapes use. */
  lemma SmallReads(c: Cursor)
    requires c.Valid() && c.ok
    ensures c.Has(1) ==> Stands(c.data, c.pos, [ReadU1(c).value])
    ensures c.Has(2) ==> Stands(c.data, c.pos, U2Bytes(ReadU2(c).value))
    ensures c.Has(4) ==> Stands(c.data, c.pos, U4Bytes(ReadU4(c).value))
    ensures c.Has(2) ==> var a := ReadU1(c); Stands(c.data, c.pos, [a.value, ReadU1(a.rest).value])
    ensures c.Has(3) ==> var a := ReadU2(c); Stands(c.data, c.pos, U2Bytes(a.value) + [ReadU1(a.rest).value])
    ensures c.Has(4) ==> var a := ReadU2(c); Stands(c.data, c.pos, U2Bytes(a.value) + U2Bytes(ReadU2(a.rest).value))
    ensures c.Has(4) ==> var a := ReadU2(c); var b := ReadU1(a.rest);
              Stands(c.data, c.pos, U2Bytes(a.value) + [b.value] + [ReadU1(b.rest).value])
  {
    hide Stands, U2Bytes, U4Bytes, ReadU1, ReadU2, ReadU4;
    if c.Has(1) {
      ReadFindsU1(c);
    }
    if c.Has(2) {
      ReadFindsU2(c);
      var a := ReadU1(c);
      ReadFindsU1(a.rest);
      StandsConcat(c.data, c.pos, [a.value], [ReadU1(a.rest).value]);
      assert [a.value] + [ReadU1(a.rest).value] == [a.value, ReadU1(a.rest).value];
    }
    if c.Has(3) {
      var a := ReadU2(c);
      ReadFindsU1(a.rest);
      StandsConcat(c.data, c.pos, U2Bytes(a.value), [ReadU1(a.rest).value]);
    }
    if c.Has(4) {
      var a := ReadU2(c);
      var b := ReadU1(a.rest);
      ReadFindsU4(c);
      ReadFindsU2(a.rest);
      StandsConcat(c.data, c.pos, U2Bytes(a.value), U2Bytes(ReadU2(a.rest).value));
      ReadFindsU1(b.rest);
      StandsConcat(c.data, c.pos, U2Bytes(a.value) + [b.value], [ReadU1(b.rest).value]);
    }
  }

  lemma PlainOperandParsed(c: Cursor, node: Instruction)
    requires c.Valid() && c.ok && KindOf(node.opcode) != TABLE_SWITCH && KindOf(node.opcode) != LOOKUP_SWITCH
    requires node.opcode <= LAST_OPCODE && node.opcode != WIDE
    requires node.wide ==> KindOf(node.opcode) == LOCAL || KindOf(node.opcode) == IINC
    requires c.pos == node.offset + |Prefix(node)|
    requires ParseOperand(c, node.opcode, node.wide, node.offset).Success?
    requires ParseOperand(c, node.opcode, node.wide, node.offset).value.rest.ok
    requires node.operand == ParseOperand(c, node.opcode, node.wide, node.offset).value.value
    ensures WellFormed(node) && OperandBytes(node, node.offset).Success?
    ensures ParseOperand(c, node.opcode, node.wide, node.offset).value.rest.pos
         == node.offset + LengthAt(node, node.offset)
    ensures Stands(c.data, c.pos, OperandBytes(node, node.offset).value)
  {
    hide Stands, U2Bytes, U4Bytes, ReadU1, ReadU2, ReadU4, ToU1, ToU2, ToU4, AsI1, AsI2, AsI4;
    hide ParseTableSwitch, ParseLookupSwitch;
    SmallReads(c);
    StandsEmpty(c.data, c.pos);
    CastU1(ReadU1(c).value);
    CastU1(ReadU1(ReadU1(c).rest).value);
    CastU2(ReadU2(c).value);
    CastU2(ReadU2(ReadU2(c).rest).value);
    CastU4(ReadU4(c).value);
    assert forall v: u1 :: ToU1(v) == v by {
      forall v: u1 ensures ToU1(v) == v { SmallCast(v); }
    }
  }

  lemma SmallCast(v: u1)
    ensures ToU1(v) == v
  {
  }

  // ----- encoded operands are read back -----

  lemma PlainOperandEncoded(data: seq<u1>, p: nat, node: Instruction)
    requires WellFormed(node) && !node.operand.IsSwitch()
    requires p == node.offset + |Prefix(node)| && p <= |data|
    requires OperandBytes(node, node.offset).Success?
    requires Stands(data, p, OperandBytes(node, node.offset).value)
    ensures ParseOperand(Cursor(data, p, true), node.opcode, node.wide, node.offset)
         == Success(Read(node.operand, Cursor(data, p + |OperandBytes(node, node.offset).value|, true)))
  {
    hide Stands, U2Bytes, U4Bytes, ReadU1, ReadU2, ReadU4, ToU1, ToU2, ToU4, AsI1, AsI2, AsI4;
    hide ParseTableSwitch, ParseLookupSwitch;
    match node.operand
    case NoOperand =>
    case Immediate(value) =>
      if node.opcode == SIPUSH {
        CastI2(value);
        StandingU2IsRead(data, p, ToU2(value));
      } else {
        CastI1(value);
        StandingU1IsRead(data, p, ToU1(value));
      }
    case Local(index) =>
      if node.wide {
        StandingU2IsRead(data, p, index);
      } else {
        SmallCast(index);
        StandingU1IsRead(data, p, ToU1(index));
      }
    case Iinc(index, constant) =>
      if node.wide {
        StandsConcat(data, p, U2Bytes(index), U2Bytes(ToU2(constant)));
        StandingU2IsRead(data, p, index);
        StandingU2IsRead(data, p + 2, ToU2(constant));
        CastI2(constant);
      } else {
        assert [ToU1(index), ToU1(constant)] == [ToU1(index)] + [ToU1(constant)];
        StandsConcat(data, p, [ToU1(index)], [ToU1(constant)]);
        StandingU1IsRead(data, p, ToU1(index));
        StandingU1IsRead(data, p + 1, ToU1(constant));
        SmallCast(index);
        CastI1(constant);
      }
    case Constant(index) =>
      if node.opcode == LDC {
        SmallCast(index);
        StandingU1IsRead(data, p, ToU1(index));
      } else {
        StandingU2IsRead(data, p, index);
      }
    case CpIndex(index) =>
      StandingU2IsRead(data, p, index);
    case InvokeInterface(index, count, zero) =>
      StandsConcat(data, p, U2Bytes(index) + [count], [zero]);
      StandsConcat(data, p, U2Bytes(index), [count]);
      StandingU2IsRead(data, p, index);
      StandingU1IsRead(data, p + 2, count);
      StandingU1IsRead(data, p + 3, zero);
    case InvokeDynamic(index, zeros) =>
      StandsConcat(data, p, U2Bytes(index), U2Bytes(zeros));
      StandingU2IsRead(data, p, index);
      StandingU2IsRead(data, p + 2, zeros);
    case MultiANewArray(index, dimensions) =>
      StandsConcat(data, p, U2Bytes(index), [dimensions]);
      StandingU2IsRead(data, p, index);
      StandingU1IsRead(data, p + 2, dimensions);
    case Branch(target) =>
      CastI2(target - node.offset);
      StandingU2IsRead(data, p, ToU2(target - node.offset));
    case BranchWide(target) =>
      CastI4(target - node.offset);
      StandingU4IsRead(data, p, ToU4(target - node.offset));
  }

  lemma StandsFits(data: seq<u1>, p: nat, w: seq<u1>)
    requires Stands(data, p, w)
    ensures p + |w| <= |data|
  {
  }

  lemma TableSwitchEncoded(data: seq<u1>, p: nat, node: Instruction)
    requires WellFormed(node) && SwitchInRange(node) && node.operand.TableSwitch?
    requires p == node.offset + 1 && p <= |data|
    requires Stands(data, p, OperandBytes(node, node.offset).value)
    ensures ParseTableSwitch(Cursor(data, p, true), node.offset)
         == Success(Read(node.operand, Cursor(data, p + |OperandBytes(node, node.offset).value|, true)))
  {
    hide Stands, U4Bytes, ReadU4, ToU4, AsI4, Padding, Zeros, ReadTargets, DeltaBytes;
    var at := node.offset;
    var TableSwitch(otherwise, low, high, targets) := node.operand;
    PaddingAligns(at);
    var pad := Zeros(Padding(at));
    StandsFive(data, p, pad, U4Bytes(ToU4(otherwise - at)), U4Bytes(ToU4(low)), U4Bytes(ToU4(high)),
               DeltaBytes(targets, at));
    StandsFits(data, p, pad);
    var q := p + |pad|;
    StandsFits(data, q + 12, DeltaBytes(targets, at));
    assert SkipPadding(Cursor(data, p, true)) == Cursor(data, q, true);
    StandingU4IsRead(data, q, ToU4(otherwise - at));
    StandingU4IsRead(data, q + 4, ToU4(low));
    StandingU4IsRead(data, q + 8, ToU4(high));
    CastI4(otherwise - at);
    CastI4(low);
    CastI4(high);
    TargetsEncoded(data, q + 12, targets, at);
  }

  lemma LookupSwitchEncoded(data: seq<u1>, p: nat, node: Instruction)
    requires WellFormed(node) && SwitchInRange(node) && node.operand.LookupSwitch?
    requires p == node.offset + 1 && p <= |data|
    requires Stands(data, p, OperandBytes(node, node.offset).value)
    ensures ParseLookupSwitch(Cursor(data, p, true), node.offset)
         == Success(Read(node.operand, Cursor(data, p + |OperandBytes(node, node.offset).value|, true)))
  {
    hide Stands, U4Bytes, ReadU4, ToU4, AsI4, Padding, Zeros, ReadCases, CaseBytes;
    var at := node.offset;
    var LookupSwitch(otherwise, cases) := node.operand;
    PaddingAligns(at);
    var pad := Zeros(Padding(at));
    StandsFour(data, p, pad, U4Bytes(ToU4(otherwise - at)), U4Bytes(ToU4(|cases|)), CaseBytes(cases, at));
    StandsFits(data, p, pad);
    var q := p + |pad|;
    StandsFits(data, q + 8, CaseBytes(cases, at));
    assert SkipPadding(Cursor(data, p, true)) == Cursor(data, q, true);
    StandingU4IsRead(data, q, ToU4(otherwise - at));
    StandingU4IsRead(data, q + 4, ToU4(|cases|));
    CastI4(otherwise - at);
    CastI4(|cases|);
    CasesEncoded(data, q + 8, cases, at);
  }

  // ----- one instruction -----

  /** The length table, the encoder and the padding rule agree. */
  lemma EncodedLength(node: Instruction, at: nat)
    requires WellFormed(node) && NodeBytes(node, at).Success?
    ensures |NodeBytes(node, at).value| == LengthAt(node, at)
  {
    hide U4Bytes, U2Bytes, ToU4, ToU2, ToU1, DeltaBytes, CaseBytes;
  }

  lemma PrefixStands(data: seq<u1>, node: Instruction, w: seq<u1>)
    ensures Stands(data, node.offset, Prefix(node) + w)
       <==> Stands(data, node.offset, Prefix(node)) && Stands(data, node.offset + |Prefix(node)|, w)
  {
    StandsConcat(data, node.offset, Prefix(node), w);
  }

  lemma NodeParsed(c: Cursor)
    requires c.Valid() && c.ok && ParseNode(c).Success? && |c.data| <= MAX_CODE_LENGTH
    ensures var node := ParseNode(c).value.value;
      && node.offset == c.pos && WellFormed(node) && SwitchInRange(node)
      && ParseNode(c).value.rest == Cursor(c.data, c.pos + LengthAt(node, c.pos), true)
      && NodeBytes(node, c.pos).Success?
      && (Stands(c.data, c.pos, NodeBytes(node, c.pos).value) <==> ZeroPadded(c.data, node))
  {
    hide Stands, OperandBytes, ParseTableSwitch, ParseLookupSwitch, LengthAt, ZeroPadded, SwitchInRange, ReadU2, ReadU4;
    var node := ParseNode(c).value.value;
    var first := ReadU1(c);
    var behind := if node.wide then ReadU1(first.rest).rest else first.rest;
    assert behind.ok;
    assert Stands(c.data, c.pos, Prefix(node)) by {
      ReadFindsU1(c);
      if node.wide {
        ReadFindsU1(first.rest);
        StandsConcat(c.data, c.pos, [WIDE], [node.opcode]);
        assert [WIDE] + [node.opcode] == Prefix(node);
      }
    }
    OperandParsed(behind, node);
    PrefixStands(c.data, node, OperandBytes(node, c.pos).value);
  }

  /** Both cases of an operand, switch and plain, in one statement. */
  lemma OperandParsed(c: Cursor, node: Instruction)
    requires c.Valid() && c.ok && |c.data| <= MAX_CODE_LENGTH
    requires node.opcode <= LAST_OPCODE && node.opcode != WIDE
    requires node.wide ==> KindOf(node.opcode) == LOCAL || KindOf(node.opcode) == IINC
    requires c.pos == node.offset + |Prefix(node)|
    requires ParseOperand(c, node.opcode, node.wide, node.offset).Success?
    requires ParseOperand(c, node.opcode, node.wide, node.offset).value.rest.ok
    requires node.operand == ParseOperand(c, node.opcode, node.wide, node.offset).value.value
    ensures WellFormed(node) && SwitchInRange(node) && OperandBytes(node, node.offset).Success?
    ensures ParseOperand(c, node.opcode, node.wide, node.offset).value.rest.pos
         == node.offset + LengthAt(node, node.offset)
    ensures Stands(c.data, c.pos, OperandBytes(node, node.offset).value) <==> ZeroPadded(c.data, node)
  {
    hide Stands, U2Bytes, U4Bytes, ReadU1, ReadU2, ReadU4, ToU1, ToU2, ToU4, AsI1, AsI2, AsI4;
    hide ParseTableSwitch, ParseLookupSwitch, LengthAt;
    if KindOf(node.opcode) == TABLE_SWITCH {
      TableSwitchShape(c, node);
      TableSwitchParsed(c, node);
    } else if KindOf(node.opcode) == LOOKUP_SWITCH {
      LookupSwitchShape(c, node);
      LookupSwitchParsed(c, node);
    } else {
      PlainOperandParsed(c, node);
    }
  }

  lemma NodeEncoded(data: seq<u1>, node: Instruction)
    requires WellFormed(node) && SwitchInRange(node) && node.offset <= |data|
    requires NodeBytes(node, node.offset).Success?
    requires Stands(data, node.offset, NodeBytes(node, node.offset).value)
    ensures ParseNode(Cursor(data, node.offset, true))
         == Success(Read(node, Cursor(data, node.offset + LengthAt(node, node.offset), true)))
  {
    hide Stands, OperandBytes, ParseOperand, ParseTableSwitch, ParseLookupSwitch, LengthAt, SwitchInRange, ReadU1, ReadU2, ReadU4;
    var at := node.offset;
    var operand := OperandBytes(node, at).value;
    PrefixStands(data, node, operand);
    if node.wide {
      assert [WIDE] + [node.opcode] == Prefix(node);
      StandsConcat(data, at, [WIDE], [node.opcode]);
      StandingU1IsRead(data, at, WIDE);
      StandingU1IsRead(data, at + 1, node.opcode);
    } else {
      StandingU1IsRead(data, at, node.opcode);
    }
    EncodedLength(node, at);
    OperandEncoded(data, at + |Prefix(node)|, node);
  }

  lemma OperandEncoded(data: seq<u1>, p: nat, node: Instruction)
    requires WellFormed(node) && SwitchInRange(node)
    requires p == node.offset + |Prefix(node)|
    requires OperandBytes(node, node.offset).Success?
    requires Stands(data, p, OperandBytes(node, node.offset).value)
    ensures p + |OperandBytes(node, node.offset).value| <= |data|
    ensures ParseOperand(Cursor(data, p, true), node.opcode, node.wide, node.offset)
         == Success(Read(node.operand, Cursor(data, p + |OperandBytes(node, node.offset).value|, true)))
  {
    hide Stands, OperandBytes, ParseTableSwitch, ParseLookupSwitch, SwitchInRange, ReadU1, ReadU2, ReadU4;
    StandsFits(data, p, OperandBytes(node, node.offset).value);
    if node.operand.TableSwitch? {
      TableSwitchEncoded(data, p, node);
    } else if node.operand.LookupSwitch? {
      LookupSwitchEncoded(data, p, node);
    } else {
      PlainOperandEncoded(data, p, node);
    }
  }

  // ----- whole lists -----

  predicate EachEncodes(code: seq<Instruction>) {
    forall k :: 0 <= k < |code| ==> NodeBytes(code[k], code[k].offset).Success?
  }

  /** Node k's encoding stands in data where the layout puts node k. */
  predicate StandsInPlace(data: seq<u1>, node: Instruction)
    requires NodeBytes(node, node.offset).Success?
  {
    Stands(data, node.offset, NodeBytes(node, node.offset).value)
  }

  lemma {:induction false} PrefixKeepsOffsets(code: seq<Instruction>, more: seq<Instruction>, i: nat)
    requires i <= |code|
    ensures OffsetOf(code + more, i) == OffsetOf(code, i)
  {
    if i > 0 {
      PrefixKeepsOffsets(code, more, i - 1);
    }
  }

  lemma AppendKeepsLayout(code: seq<Instruction>, node: Instruction, length: nat)
    requires LaidOut(code, length) && node.offset == length
    ensures LaidOut(code + [node], length + LengthAt(node, length))
  {
    hide LengthAt, OffsetOf;
    var more := code + [node];
    forall i | 0 <= i <= |code| ensures OffsetOf(more, i) == OffsetOf(code, i) {
      PrefixKeepsOffsets(code, [node], i);
    }
    OffsetStep(more, |code|);
    forall i | 0 <= i < |more| ensures more[i].offset == OffsetOf(more, i) {
      assert OffsetOf(more, i) == OffsetOf(code, i);
    }
  }

  /** Everything parsing promises about an accepted code array, carried past
      the nodes already done. */
  lemma {:induction false} ParsedFrom(c: Cursor, done: seq<Instruction>)
    requires c.Valid() && c.ok && |c.data| <= MAX_CODE_LENGTH
    requires ParseFrom(c, done).Success?
    requires LaidOut(done, c.pos) && AllWellFormed(done) && AllSwitchesInRange(done) && EachEncodes(done)
    requires forall k :: 0 <= k < |done| ==> (StandsInPlace(c.data, done[k]) <==> ZeroPadded(c.data, done[k]))
    ensures var code := ParseFrom(c, done).value;
      && LaidOut(code, |c.data|) && AllWellFormed(code) && AllSwitchesInRange(code) && EachEncodes(code)
      && forall k :: 0 <= k < |code| ==> (StandsInPlace(c.data, code[k]) <==> ZeroPadded(c.data, code[k]))
    decreases |c.data| - c.pos
  {
    hide ParseNode, NodeBytes, LengthAt, WellFormed, SwitchInRange, ZeroPadded, Stands, OffsetOf;
    if !c.Exhausted() {
      NodeParsed(c);
      ParseNodeAdvances(c);
      var node := ParseNode(c).value;
      AppendKeepsLayout(done, node.value, c.pos);
      ParsedFrom(node.rest, done + [node.value]);
    }
  }

  /** An encoded list is laid out as LengthAt says, with every node in place. */
  lemma {:induction false} ListInPlace(code: seq<Instruction>, i: nat, done: seq<u1>)
    requires i <= |code| && AllWellFormed(code) && ListBytes(code, i, done).Success?
    requires forall k :: i <= k < |code| ==> code[k].offset == OffsetOf(code, k)
    requires |done| == OffsetOf(code, i)
    ensures done <= ListBytes(code, i, done).value
    ensures |ListBytes(code, i, done).value| == OffsetOf(code, |code|)
    ensures forall k :: i <= k < |code| ==>
              NodeBytes(code[k], code[k].offset).Success? && StandsInPlace(ListBytes(code, i, done).value, code[k])
    decreases |code| - i
  {
    hide NodeBytes, LengthAt, WellFormed;
    if i < |code| {
      var bytes := NodeBytes(code[i], |done|).value;
      EncodedLength(code[i], |done|);
      ListInPlace(code, i + 1, done + bytes);
      var all := ListBytes(code, i, done).value;
      assert all == ListBytes(code, i + 1, done + bytes).value;
      assert all[|done|..|done| + |bytes|] == (done + bytes)[|done|..] == bytes;
    }
  }

  /** One node standing in place extends the bytes before it by its encoding. */
  lemma InPlaceStep(code: seq<Instruction>, i: nat, data: seq<u1>)
    requires i < |code| && LaidOut(code, |data|) && WellFormed(code[i])
    requires NodeBytes(code[i], code[i].offset).Success? && StandsInPlace(data, code[i])
    ensures code[i].offset == OffsetOf(code, i)
    ensures OffsetOf(code, i) <= OffsetOf(code, i + 1) <= |data|
    ensures data[..OffsetOf(code, i)] + NodeBytes(code[i], OffsetOf(code, i)).value == data[..OffsetOf(code, i + 1)]
  {
    hide NodeBytes, LengthAt, WellFormed;
    EncodedLength(code[i], code[i].offset);
  }

  /** Nodes standing in place are what the encoder emits. */
  lemma {:induction false} InPlaceList(code: seq<Instruction>, i: nat, data: seq<u1>)
    requires i <= |code| && LaidOut(code, |data|) && AllWellFormed(code) && EachEncodes(code)
    requires forall k :: i <= k < |code| ==> StandsInPlace(data, code[k])
    requires OffsetOf(code, i) <= |data|
    ensures ListBytes(code, i, data[..OffsetOf(code, i)]) == Success(data)
    decreases |code| - i
  {
    hide NodeBytes, LengthAt, WellFormed, OffsetOf, Stands, StandsInPlace;
    if i < |code| {
      InPlaceStep(code, i, data);
      InPlaceList(code, i + 1, data);
    } else {
      assert data[..|data|] == data;
    }
  }

  /** An accepted code array of legal size is laid out by LengthAt, and encodes
      back to itself exactly when every padding byte was zero. */
  lemma EncodeOfParse(code: seq<u1>)
    requires |code| <= MAX_CODE_LENGTH && Parse(code).Success?
    ensures var list := Parse(code).value;
      && LaidOut(list, |code|) && AllWellFormed(list) && AllSwitchesInRange(list)
      && (Encode(list) == Success(code) <==> AllZeroPadded(code, list))
  {
    hide ParseFrom, ListBytes, LaidOut, WellFormed, SwitchInRange, ZeroPadded, NodeBytes, Stands, LengthAt;
    var list := Parse(code).value;
    assert LaidOut([], 0) by { EmptyIsLaidOut(); }
    ParsedFrom(Cursor(code, 0, true), []);
    assert code[..0] == [];
    if AllZeroPadded(code, list) {
      InPlaceList(list, 0, code);
    }
    if Encode(list) == Success(code) {
      LaidOutOffsets(list, |code|);
      ListInPlace(list, 0, []);
    }
  }

  /** A table switch with a padding byte that is not zero. */
  const PADDED: seq<u1> := [170, 1, 0, 0] + seq(16, i => 0)

  /** It is accepted, and comes back otherwise than it was. */
  lemma PaddingIsLost()
    ensures Parse(PADDED) == Success([Instruction(0, 170, false, TableSwitch(0, 0, 0, [0]))])
    ensures Encode(Parse(PADDED).value) != Success(PADDED)
  {
    PaddedParsed();
    PaddedIsNotZero();
    hide Parse, Encode, LaidOut, AllWellFormed, AllSwitchesInRange, ZeroPadded;
    EncodeOfParse(PADDED);
    assert !ZeroPadded(PADDED, Parse(PADDED).value[0]);
  }

  lemma PaddedIsNotZero()
    ensures |PADDED| == 20 && !ZeroPadded(PADDED, Instruction(0, 170, false, TableSwitch(0, 0, 0, [0])))
  {
    assert PADDED[1] == 1;
  }

  lemma PaddedParsed()
    ensures Parse(PADDED) == Success([Instruction(0, 170, false, TableSwitch(0, 0, 0, [0]))])
  {
    var node := Instruction(0, 170, false, TableSwitch(0, 0, 0, [0]));
    PaddedNode();
    hide ParseNode, ParseFrom;
    ParseStep(Cursor(PADDED, 0, true), [], Read(node, Cursor(PADDED, 20, true)));
    ParseStops(Cursor(PADDED, 20, true), [node]);
    assert [] + [node] == [node];
  }

  lemma PaddedNode()
    ensures ParseNode(Cursor(PADDED, 0, true))
         == Success(Read(Instruction(0, 170, false, TableSwitch(0, 0, 0, [0])), Cursor(PADDED, 20, true)))
  {
    ZeroSwitchParsed(PADDED);
    hide ParseTableSwitch;
    assert ReadU1(Cursor(PADDED, 0, true)) == Read(170, Cursor(PADDED, 1, true));
  }

  lemma ZeroSwitchParsed(data: seq<u1>)
    requires |data| == 20 && forall i :: 4 <= i < 20 ==> data[i] == 0
    ensures ParseTableSwitch(Cursor(data, 1, true), 0) == Success(Read(TableSwitch(0, 0, 0, [0]), Cursor(data, 20, true)))
  {
    ZeroIsRead(data, 4);
    ZeroIsRead(data, 8);
    ZeroIsRead(data, 12);
    ZeroIsRead(data, 16);
    OneTarget(Cursor(data, 16, true));
    assert SkipPadding(Cursor(data, 1, true)) == Cursor(data, 4, true) by {
      hide ReadU4, ReadTargets;
    }
    hide ReadU4, SkipPadding, ReadTargets;
  }

  lemma OneTarget(c: Cursor)
    requires c.Valid() && ReadU4(c) == Read(0, Cursor(c.data, c.pos + 4, true))
    ensures ReadTargets(c, 1, 0) == Read([0], Cursor(c.data, c.pos + 4, true))
  {
    hide ReadU4;
    assert ReadTargets(c, 0, 0) == Read([], c);
    assert [] + [0] == [0];
  }

  lemma ZeroIsRead(data: seq<u1>, p: nat)
    requires p + 4 <= |data| && data[p] == data[p + 1] == data[p + 2] == data[p + 3] == 0
    ensures ReadU4(Cursor(data, p, true)) == Read(0, Cursor(data, p + 4, true))
  {
  }

  lemma EmptyIsLaidOut()
    ensures LaidOut([], 0)
  {
  }

  lemma LaidOutOffsets(code: seq<Instruction>, length: nat)
    requires LaidOut(code, length)
    ensures forall k :: 0 <= k < |code| ==> code[k].offset == OffsetOf(code, k)
  {
  }

  lemma ParseStep(c: Cursor, done: seq<Instruction>, node: Read<Instruction>)
    requires c.Valid() && c.ok && !c.Exhausted() && ParseNode(c) == Success(node)
    ensures node.rest.Valid() && node.rest.ok
    ensures ParseFrom(c, done) == ParseFrom(node.rest, done + [node.value])
  {
    hide ParseNode;
    ParseNodeAdvances(c);
  }

  lemma InPlaceParseStep(code: seq<Instruction>, i: nat, data: seq<u1>)
    requires i < |code| && LaidOut(code, |data|) && WellFormed(code[i]) && SwitchInRange(code[i])
    requires NodeBytes(code[i], code[i].offset).Success? && StandsInPlace(data, code[i])
    ensures OffsetOf(code, i) <= OffsetOf(code, i + 1) <= |data|
    ensures ParseFrom(Cursor(data, OffsetOf(code, i), true), code[..i])
         == ParseFrom(Cursor(data, OffsetOf(code, i + 1), true), code[..i + 1])
  {
    hide NodeBytes, WellFormed, SwitchInRange, Stands, ParseFrom, ParseNode, LengthAt;
    InPlaceStep(code, i, data);
    NodeEncoded(data, code[i]);
    LengthIsPositive(code[i], code[i].offset);
    ParseStep(Cursor(data, OffsetOf(code, i), true), code[..i],
              Read(code[i], Cursor(data, OffsetOf(code, i + 1), true)));
    assert code[..i] + [code[i]] == code[..i + 1];
  }

  /** A list whose nodes stand in data is what parsing data yields. */
  lemma {:induction false} InPlaceParses(code: seq<Instruction>, i: nat, data: seq<u1>)
    requires i <= |code| && LaidOut(code, |data|) && AllWellFormed(code) && AllSwitchesInRange(code)
    requires EachEncodes(code)
    requires forall k :: i <= k < |code| ==> StandsInPlace(data, code[k])
    requires OffsetOf(code, i) <= |data|
    ensures ParseFrom(Cursor(data, OffsetOf(code, i), true), code[..i]) == Success(code)
    decreases |code| - i
  {
    hide NodeBytes, WellFormed, SwitchInRange, ParseFrom, OffsetOf, StandsInPlace;
    if i < |code| {
      InPlaceParseStep(code, i, data);
      InPlaceParses(code, i + 1, data);
    } else {
      assert code[..i] == code;
      ParseStops(Cursor(data, |data|, true), code);
    }
  }

  lemma ParseStops(c: Cursor, done: seq<Instruction>)
    requires c.Valid() && c.ok && c.Exhausted()
    ensures ParseFrom(c, done) == Success(done)
  {
  }

  /** What was encoded parses back to the same list. */
  lemma ParseOfEncode(code: seq<Instruction>, length: nat)
    requires AllWellFormed(code) && AllSwitchesInRange(code) && LaidOut(code, length)
    requires Encode(code).Success?
    ensures |Encode(code).value| == length && Parse(Encode(code).value) == Success(code)
  {
    hide ParseFrom, ListBytes, WellFormed, SwitchInRange, NodeBytes, Stands, LengthAt;
    ListInPlace(code, 0, []);
    InPlaceParses(code, 0, Encode(code).value);
    assert code[..0] == [];
  }
}
