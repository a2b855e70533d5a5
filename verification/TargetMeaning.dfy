/** Where control can go from an instruction, read off the bytes of the code array. */
module TargetMeaning {
  import opened Bytes
  import opened BigEndian
  import opened Status
  import opened Instructions
  import opened InstructionCodec
  import opened InstructionMeaning
  import opened Simulation

  predicate IsBranch(opcode: int) {
    153 <= opcode <= 168 || opcode == 198 || opcode == 199
  }

  /** Default and offsets of a tableswitch whose padding ends at a. */
  predicate TableTargets(d: seq<u1>, at: nat, a: nat, targets: seq<int>) {
    && a + 12 <= |d|
    && |targets| == 2 + Signed4(d, a + 8) - Signed4(d, a + 4) && |targets| >= 1
    && a + 12 + 4 * (|targets| - 1) <= |d|
    && targets[0] == at + Signed4(d, a) && TargetsStand(d, at, a + 12, targets[1..])
  }

  predicate PairTargets(d: seq<u1>, at: nat, p: nat, targets: seq<int>)
    requires p + 8 * |targets| <= |d|
  {
    forall k :: 0 <= k < |targets| ==> targets[k] == at + Signed4(d, p + 8 * k + 4)
  }

  /** Default and offsets of a lookupswitch whose padding ends at a. */
  predicate LookupTargets(d: seq<u1>, at: nat, a: nat, targets: seq<int>) {
    && a + 8 <= |d|
    && |targets| == 1 + Signed4(d, a + 4) && |targets| >= 1
    && a + 8 + 8 * (|targets| - 1) <= |d|
    && targets[0] == at + Signed4(d, a) && PairTargets(d, at, a + 8, targets[1..])
  }

  lemma TableGoes(d: seq<u1>, at: nat, p: nat, operand: Operand, end: nat) returns (a: nat)
    requires p <= end <= |d| && TableMeans(d, at, p, operand, end)
    ensures Aligned(p, a) && TableTargets(d, at, a, Targets(operand))
  {
    a :| && Aligned(p, a)
         && end == a + 12 + 4 * |operand.targets|
         && operand.otherwise == at + Signed4(d, a)
         && operand.low == Signed4(d, a + 4) && operand.high == Signed4(d, a + 8)
         && |operand.targets| == operand.high - operand.low + 1
         && TargetsStand(d, at, a + 12, operand.targets);
    hide Signed4, Aligned;
    assert Targets(operand)[1..] == operand.targets;
  }

  lemma LookupGoes(d: seq<u1>, at: nat, p: nat, operand: Operand, end: nat) returns (a: nat)
    requires p <= end <= |d| && LookupMeans(d, at, p, operand, end)
    ensures Aligned(p, a) && LookupTargets(d, at, a, Targets(operand))
  {
    a :| && Aligned(p, a)
         && end == a + 8 + 8 * |operand.cases|
         && operand.otherwise == at + Signed4(d, a)
         && |operand.cases| == Signed4(d, a + 4)
         && CasesStand(d, at, a + 8, operand.cases);
    hide Signed4, Aligned;
    var rest := CaseTargets(operand.cases);
    assert Targets(operand)[1..] == rest;
    forall k | 0 <= k < |rest| ensures rest[k] == at + Signed4(d, a + 8 + 8 * k + 4) {
      assert rest[k] == operand.cases[k].target;
    }
  }

  /** A branch has the one target its two bytes name, goto_w and jsr_w the one their
      four name, a switch its default and its offsets, anything else none. */
  lemma NodeGoes(d: seq<u1>, node: Instruction, end: nat)
    requires NodeMeans(d, node, end)
    ensures IsBranch(node.opcode) ==>
      node.offset + 3 <= |d| && Targets(node.operand) == [node.offset + Signed2(d, node.offset + 1)]
    ensures node.opcode == 200 || node.opcode == 201 ==>
      node.offset + 5 <= |d| && Targets(node.operand) == [node.offset + Signed4(d, node.offset + 1)]
    ensures node.opcode == 170 ==>
      exists a: nat :: Aligned(node.offset + 1, a) && TableTargets(d, node.offset, a, Targets(node.operand))
    ensures node.opcode == 171 ==>
      exists a: nat :: Aligned(node.offset + 1, a) && LookupTargets(d, node.offset, a, Targets(node.operand))
    ensures !IsBranch(node.opcode) && node.opcode !in {170, 171, 200, 201} ==> Targets(node.operand) == []
  {
    hide Signed2, Signed4, TableMeans, LookupMeans, Aligned, TableTargets, LookupTargets;
    if node.opcode == 170 {
      var a := TableGoes(d, node.offset, node.offset + 1, node.operand, end);
    } else if node.opcode == 171 {
      var a := LookupGoes(d, node.offset, node.offset + 1, node.operand, end);
    }
  }
}
