/** The runs of a guarded method: those of the original as long as the guard says
    no, wherever it is asked, and at its first yes an early return. */
module GuardedRuns {
  import opened Bytes
  import opened Status
  import opened Instructions
  import opened References
  import opened CodeEditor
  import opened Insertion
  import opened Simulation
  import opened GuardedBody

  // ----- the answer -----

  /** Asked in state t, the guard comes to its branch and takes it. */
  predicate SaysNo<D>(m: Machine<D>, prologue: seq<Instruction>, t: D) {
    var asked := Through(m, prologue, 0, t);
    asked.AT? && var effect := m.exec(Operation(IFEQ), asked.state); effect.JUMP? && effect.choice == 0
  }

  /** Or it falls through to the value. */
  predicate SaysYes<D>(m: Machine<D>, prologue: seq<Instruction>, t: D) {
    var asked := Through(m, prologue, 0, t);
    asked.AT? && m.exec(Operation(IFEQ), asked.state).NEXT?
  }

  function Answered<D>(m: Machine<D>, prologue: seq<Instruction>, t: D): D
    requires Through(m, prologue, 0, t).AT?
  {
    m.exec(Operation(IFEQ), Through(m, prologue, 0, t).state).state
  }

  /** A no leaves everything the method can see as it was. */
  ghost predicate NoIsNeutral<D(!new)>(m: Machine<D>, same: (D, D) -> bool, prologue: seq<Instruction>) {
    forall s, t :: same(s, t) && SaysNo(m, prologue, t) ==> same(s, Answered(m, prologue, t))
  }

  lemma NoIsSame<D(!new)>(m: Machine<D>, same: (D, D) -> bool, prologue: seq<Instruction>, s: D, t: D)
    requires NoIsNeutral(m, same, prologue) && same(s, t) && SaysNo(m, prologue, t)
    ensures Through(m, prologue, 0, t).AT? && same(s, Answered(m, prologue, t))
  {
    hide Answered, Through;
    assert Through(m, prologue, 0, t).AT?;
    hide SaysNo;
  }

  // ----- one step -----

  /** What one original step costs: the guard is asked at offset 0. */
  function Cost<D>(c: Config<D>, prologue: seq<Instruction>): nat {
    if c.AT? && c.pc == 0 then |prologue| + 2 else 1
  }

  lemma OnlyStartIsZero(e: Editor, pc: int)
    requires Consistent(e) && Boundary(e, pc)
    ensures pc == 0 <==> OffsetToIndex(e.code, e.codeLength, pc) == 0
  {
    hide Consistent, AllWellFormed, LaidOut, OffsetOf, OffsetToIndex;
    ConsistentCode(e);
    FoundIsBoundary(e.code, e.codeLength, pc);
    FirstOffset(e.code);
    var i := OffsetToIndex(e.code, e.codeLength, pc);
    if i > 0 {
      LaterOffset(e.code, i);
    }
  }

  /** Asked and refused, control comes to the original instruction 0. */
  lemma AskedAndRefused<D(!new)>(e: Editor, prologue: seq<Instruction>, tail: seq<Instruction>, m: Machine<D>, t: D)
    requires Guardable(e, prologue, tail) && SaysNo(m, prologue, t)
    ensures |Committed(e, 0, GuardBlock(prologue, tail)).code| > |prologue| + 1 + |tail|
    ensures var after := Committed(e, 0, GuardBlock(prologue, tail));
      Run(BodyOf(Guarded(e, prologue, tail)), m, AT(0, t), |prologue| + 1)
      == AT(OffsetOf(after.code, |prologue| + 1 + |tail|), Answered(m, prologue, t))
  {
    hide Guardable, Committed, GuardBlock, Guarded, Through, Operation, OffsetOf, Run, BodyStart, LaidOut, AllWellFormed, LegalMove, MoveOf;
    GuardFalse(e, prologue, tail, m, t, Answered(m, prologue, t));
    Setup(e, prologue, tail);
  }

  /** One original step from anywhere, and what it takes behind the guard. */
  lemma GuardedStepMatches<D(!new)>(e: Editor, prologue: seq<Instruction>, tail: seq<Instruction>, m: Machine<D>,
                                    same: (D, D) -> bool, pc: int, s: D, t: D)
    requires Guardable(e, prologue, tail) && Respects(m, same) && NoIsNeutral(m, same, prologue)
    requires Boundary(e, pc) && same(s, t) && (pc == 0 ==> SaysNo(m, prologue, t))
    ensures |Committed(e, 0, GuardBlock(prologue, tail)).code| > |prologue| + 1 + |tail|
    ensures var move := MoveOf(e, 0, GuardBlock(prologue, tail)); var b := BodyOf(Guarded(e, prologue, tail));
      Matches(same, move, Step(BodyOf(e), m, AT(pc, s)), Run(b, m, AT(Position(move, pc), t), Cost(AT(pc, s), prologue)))
  {
    hide Guardable, Consistent, Committed, MoveOf, GuardBlock, Guarded, Step, Run, OffsetOf, LegalMove, AllWellFormed, LaidOut;
    hide Respects, NoIsNeutral, Position, Identity, BodyStart, OffsetToIndex, SaysNo, Answered;
    Setup(e, prologue, tail);
    var block := GuardBlock(prologue, tail);
    var move, b := MoveOf(e, 0, block), BodyOf(Guarded(e, prologue, tail));
    var i := OffsetToIndex(e.code, e.codeLength, pc);
    FoundIsBoundary(e.code, e.codeLength, pc);
    OnlyStartIsZero(e, pc);
    ArrivalPoint(move, pc);
    var u := t;
    if pc == 0 {
      AskedAndRefused(e, prologue, tail, m, t);
      NoIsSame(m, same, prologue, s, t);
      u := Answered(m, prologue, t);
      RunComposes(b, m, AT(0, t), |prologue| + 1, 1);
    }
    OneStep(b, m, AT(Identity(move, pc), u));
    if i < |e.code| {
      GuardedStep(e, prologue, tail, m, i + |block|, u);
      OffsetsAgree(e.code, e.codeLength, i, pc);
      OriginalStep(e, 0, block, m, same, i, s, u);
    } else {
      AtTheEnd(e, prologue, tail, m, pc, s, u);
    }
  }

  // ----- whole runs -----

  /** While the original takes n steps from c, the guard, asked at each arrival at
      offset 0 in the state the guarded run has by then, says no. */
  ghost predicate NoWhile<D>(e: Editor, g: Body, prologue: seq<Instruction>, m: Machine<D>, c: Config<D>, d: Config<D>, n: nat)
    decreases n
  {
    n > 0 ==>
      && (c.AT? && c.pc == 0 && d.AT? ==> SaysNo(m, prologue, d.state))
      && NoWhile(e, g, prologue, m, Step(BodyOf(e), m, c), Run(g, m, d, Cost(c, prologue)), n - 1)
  }

  /** n original steps, and a pass through the guard for each arrival at offset 0. */
  function GuardedSteps<D>(e: Editor, prologue: seq<Instruction>, m: Machine<D>, c: Config<D>, n: nat): nat {
    StepCount(n, Arrivals(BodyOf(e), m, c, n, 0), |prologue| + 1)
  }

  lemma CostAdds<D>(e: Editor, prologue: seq<Instruction>, m: Machine<D>, c: Config<D>, n: nat)
    requires n > 0
    ensures GuardedSteps(e, prologue, m, c, n)
         == Cost(c, prologue) + GuardedSteps(e, prologue, m, Step(BodyOf(e), m, c), n - 1)
  {
    hide Step, StepCount;
    AddPass(n - 1, Arrivals(BodyOf(e), m, Step(BodyOf(e), m, c), n - 1, 0), |prologue| + 1);
  }

  /** As long as the guard says no, the guarded method runs as the original: n
      steps of the one are matched by n steps of the other and one pass through
      the guard for each time control stood at offset 0, loops back to it included. */
  lemma {:induction false} GuardedRunSimulates<D(!new)>(
      e: Editor, prologue: seq<Instruction>, tail: seq<Instruction>, m: Machine<D>, same: (D, D) -> bool,
      c: Config<D>, d: Config<D>, n: nat)
    requires Guardable(e, prologue, tail) && Respects(m, same) && NoIsNeutral(m, same, prologue)
    requires |Committed(e, 0, GuardBlock(prologue, tail)).code| > |prologue| + 1 + |tail|
    requires Matches(same, MoveOf(e, 0, GuardBlock(prologue, tail)), c, d) && (c.AT? ==> Boundary(e, c.pc))
    requires NoWhile(e, BodyOf(Guarded(e, prologue, tail)), prologue, m, c, d, n)
    ensures Matches(same, MoveOf(e, 0, GuardBlock(prologue, tail)), Run(BodyOf(e), m, c, n),
                    Run(BodyOf(Guarded(e, prologue, tail)), m, d, GuardedSteps(e, prologue, m, c, n)))
    decreases n
  {
    hide Guardable, Consistent, Committed, MoveOf, GuardBlock, Guarded, Step, OffsetToIndex, Respects, NoIsNeutral, Position, SaysNo, GuardedSteps;
    var b, g := BodyOf(e), BodyOf(Guarded(e, prologue, tail));
    if n > 0 {
      var next, reached := Step(b, m, c), Run(g, m, d, Cost(c, prologue));
      if c.AT? {
        GuardedStepMatches(e, prologue, tail, m, same, c.pc, c.state, d.state);
      } else {
        DoneStays(b, m, c, 1);
        DoneStays(g, m, d, 1);
        OneStep(b, m, c);
      }
      GuardableParts(e, prologue, tail);
      StepStaysOnBoundaries(e, m, c);
      GuardedRunSimulates(e, prologue, tail, m, same, next, reached, n - 1);
      CostAdds(e, prologue, m, c, n);
      RunComposes(g, m, d, Cost(c, prologue), GuardedSteps(e, prologue, m, next, n - 1));
    } else {
      NoSteps(e, prologue, m, c);
    }
  }

  lemma NoSteps<D>(e: Editor, prologue: seq<Instruction>, m: Machine<D>, c: Config<D>)
    ensures GuardedSteps(e, prologue, m, c, 0) == 0
  {
  }

  /** A guarded method run from its start: it goes on as the original would, for
      every n, as long as the guard says no. */
  lemma GuardedCallSimulates<D(!new)>(e: Editor, prologue: seq<Instruction>, tail: seq<Instruction>, m: Machine<D>,
                                      same: (D, D) -> bool, s: D, t: D, n: nat)
    requires Guardable(e, prologue, tail) && Respects(m, same) && NoIsNeutral(m, same, prologue) && same(s, t)
    requires |Committed(e, 0, GuardBlock(prologue, tail)).code| > |prologue| + 1 + |tail|
    requires NoWhile(e, BodyOf(Guarded(e, prologue, tail)), prologue, m, AT(0, s), AT(0, t), n)
    ensures Matches(same, MoveOf(e, 0, GuardBlock(prologue, tail)), Run(BodyOf(e), m, AT(0, s), n),
                    Run(BodyOf(Guarded(e, prologue, tail)), m, AT(0, t), GuardedSteps(e, prologue, m, AT(0, s), n)))
  {
    hide Guardable, Committed, MoveOf, GuardBlock, Guarded, Respects, NoIsNeutral, NoWhile, Position, OffsetToIndex, GuardedSteps, Run;
    StartsAtGuard(e, prologue, tail);
    GuardedRunSimulates(e, prologue, tail, m, same, AT(0, s), AT(0, t), n);
  }

  lemma StartsAtGuard(e: Editor, prologue: seq<Instruction>, tail: seq<Instruction>)
    requires Guardable(e, prologue, tail)
    ensures Boundary(e, 0) && Position(MoveOf(e, 0, GuardBlock(prologue, tail)), 0) == 0
  {
    hide Guardable, Consistent, Committed, MoveOf, GuardBlock, OffsetOf, LegalMove, AllWellFormed, LaidOut, Position, Identity, BodyStart, OffsetToIndex;
    Setup(e, prologue, tail);
    BoundaryLookup(e.code, e.codeLength, 0);
    ArrivalPoint(MoveOf(e, 0, GuardBlock(prologue, tail)), 0);
  }

  // ----- the first yes -----

  /** After k steps of the original that the guard let pass, it is asked again and
      says yes. */
  ghost predicate YesAfter<D>(e: Editor, g: Body, prologue: seq<Instruction>, m: Machine<D>, c: Config<D>, d: Config<D>, k: nat) {
    var there, reached := Run(BodyOf(e), m, c, k), Run(g, m, d, GuardedSteps(e, prologue, m, c, k));
    && NoWhile(e, g, prologue, m, c, d, k)
    && there.AT? && there.pc == 0 && reached.AT? && reached.pc == 0 && SaysYes(m, prologue, reached.state)
  }

  /** Then the guarded method leaves with the value asked for. */
  lemma FirstYesReturns<D(!new)>(e: Editor, prologue: seq<Instruction>, value: seq<Instruction>, leave: Instruction, m: Machine<D>,
                                 c: Config<D>, d: Config<D>, k: nat, u: D, r: D)
    requires Guardable(e, prologue, value + [leave])
    requires |Committed(e, 0, GuardBlock(prologue, value + [leave])).code| > |prologue| + 1 + |value + [leave]|
    requires var g := BodyOf(Guarded(e, prologue, value + [leave]));
      YesAfter(e, g, prologue, m, c, d, k) && Run(g, m, d, GuardedSteps(e, prologue, m, c, k)) == AT(0, u)
    requires Through(m, prologue, 0, u).AT?
    requires var v := Through(m, value, 0, Answered(m, prologue, u)); v.AT? && m.exec(Operation(leave), v.state) == LEAVE(r)
    ensures Run(BodyOf(Guarded(e, prologue, value + [leave])), m, d,
                GuardedSteps(e, prologue, m, c, k) + (|prologue| + |value| + 2)) == LEFT(r)
  {
    hide Guardable, Committed, GuardBlock, Guarded, NoWhile, GuardedSteps, Run, Through, Operation;
    GuardTrue(e, prologue, value, leave, m, u, Answered(m, prologue, u), r);
    RunComposes(BodyOf(Guarded(e, prologue, value + [leave])), m, d, GuardedSteps(e, prologue, m, c, k), |prologue| + |value| + 2);
  }

  /** A guard that always answers either lets all n steps pass, or there is a
      first time it says yes. */
  lemma {:induction false} NoOrFirstYes<D(!new)>(
      e: Editor, prologue: seq<Instruction>, tail: seq<Instruction>, m: Machine<D>, same: (D, D) -> bool,
      c: Config<D>, d: Config<D>, n: nat)
    requires Guardable(e, prologue, tail) && Respects(m, same) && NoIsNeutral(m, same, prologue)
    requires |Committed(e, 0, GuardBlock(prologue, tail)).code| > |prologue| + 1 + |tail|
    requires Matches(same, MoveOf(e, 0, GuardBlock(prologue, tail)), c, d) && (c.AT? ==> Boundary(e, c.pc))
    requires forall t :: SaysNo(m, prologue, t) || SaysYes(m, prologue, t)
    ensures var g := BodyOf(Guarded(e, prologue, tail));
      NoWhile(e, g, prologue, m, c, d, n) || exists k: nat :: k < n && YesAfter(e, g, prologue, m, c, d, k)
    decreases n
  {
    hide Guardable, Consistent, Committed, MoveOf, GuardBlock, Guarded, Step, OffsetToIndex, Respects, NoIsNeutral, Position, SaysNo, SaysYes, GuardedSteps, Run, YesAfter;
    var b, g := BodyOf(e), BodyOf(Guarded(e, prologue, tail));
    if n > 0 {
      if c.AT? && c.pc == 0 && !SaysNo(m, prologue, d.state) {
        StartsAtGuard(e, prologue, tail);
        YesAtOnce(e, g, prologue, m, c, d);
      } else {
        var next, reached := Step(b, m, c), Run(g, m, d, Cost(c, prologue));
        if c.AT? {
          GuardedStepMatches(e, prologue, tail, m, same, c.pc, c.state, d.state);
        } else {
          DoneStays(b, m, c, 1);
          DoneStays(g, m, d, 1);
          OneStep(b, m, c);
        }
        GuardableParts(e, prologue, tail);
        StepStaysOnBoundaries(e, m, c);
        NoOrFirstYes(e, prologue, tail, m, same, next, reached, n - 1);
        if !NoWhile(e, g, prologue, m, next, reached, n - 1) {
          var k: nat :| k < n - 1 && YesAfter(e, g, prologue, m, next, reached, k);
          YesOneLater(e, g, prologue, m, c, d, k);
        }
      }
    }
  }

  lemma YesAtOnce<D>(e: Editor, g: Body, prologue: seq<Instruction>, m: Machine<D>, c: Config<D>, d: Config<D>)
    requires c.AT? && c.pc == 0 && d.AT? && d.pc == 0 && SaysYes(m, prologue, d.state)
    ensures YesAfter(e, g, prologue, m, c, d, 0)
  {
    hide SaysYes;
    NoSteps(e, prologue, m, c);
  }

  lemma YesOneLater<D>(e: Editor, g: Body, prologue: seq<Instruction>, m: Machine<D>, c: Config<D>, d: Config<D>, k: nat)
    requires YesAfter(e, g, prologue, m, Step(BodyOf(e), m, c), Run(g, m, d, Cost(c, prologue)), k)
    requires c.AT? && c.pc == 0 && d.AT? ==> SaysNo(m, prologue, d.state)
    ensures YesAfter(e, g, prologue, m, c, d, k + 1)
  {
    hide SaysYes, SaysNo, Step, Cost, GuardedSteps;
    CostAdds(e, prologue, m, c, k + 1);
    RunComposes(g, m, d, Cost(c, prologue), GuardedSteps(e, prologue, m, Step(BodyOf(e), m, c), k));
  }

  // ----- methods that never come back to their start -----

  /** Nothing leads back to offset 0, where the guard now stands. */
  predicate NoWayBack(e: Editor) {
    && (forall i :: 0 <= i < |e.code| ==> LeadsAway(e.code[i].operand))
    && (forall i :: 0 <= i < |e.exceptions| ==> e.exceptions[i].handlerPc != 0)
  }

  predicate LeadsAway(operand: Operand) {
    forall k :: 0 <= k < |Targets(operand)| ==> Targets(operand)[k] != 0
  }

  lemma JumpsAway(operand: Operand, k: nat)
    requires LeadsAway(operand) && k < |Targets(operand)|
    ensures Targets(operand)[k] != 0
  {
    hide Targets;
  }

  lemma NeverBack<D>(e: Editor, m: Machine<D>, pc: int, s: D)
    requires Consistent(e) && NoWayBack(e) && Boundary(e, pc)
    ensures var d := Step(BodyOf(e), m, AT(pc, s)); d.AT? ==> d.pc != 0
  {
    hide Consistent, AllWellFormed, LaidOut, OffsetToIndex, Targets, LengthAt, HandlerFor, Operation, LeadsAway, OffsetOf;
    ConsistentCode(e);
    var i := OffsetToIndex(e.code, e.codeLength, pc);
    if i < |e.code| {
      FoundIsBoundary(e.code, e.codeLength, pc);
      NextOffset(e.code, e.codeLength, i);
      LaterOffset(e.code, i + 1);
      var effect := m.exec(Operation(e.code[i]), s);
      if effect.JUMP? && effect.choice < |Targets(e.code[i].operand)| {
        JumpsAway(e.code[i].operand, effect.choice);
      }
    }
  }

  lemma {:induction false} NeverAgain<D>(e: Editor, g: Body, prologue: seq<Instruction>, m: Machine<D>, c: Config<D>, d: Config<D>, n: nat)
    requires Consistent(e) && NoWayBack(e) && (c.AT? ==> Boundary(e, c.pc) && c.pc != 0)
    ensures Arrivals(BodyOf(e), m, c, n, 0) == 0 && NoWhile(e, g, prologue, m, c, d, n)
    decreases n
  {
    hide Consistent, NoWayBack, Step, OffsetToIndex, SaysNo, Run;
    if n > 0 {
      if c.AT? {
        NeverBack(e, m, c.pc, c.state);
        StepStaysOnBoundaries(e, m, c);
      } else {
        DoneStays(BodyOf(e), m, c, 1);
        OneStep(BodyOf(e), m, c);
      }
      NeverAgain(e, g, prologue, m, Step(BodyOf(e), m, c), Run(g, m, d, Cost(c, prologue)), n - 1);
    }
  }

  /** They are asked once: one no lets every run pass. */
  lemma AskedOnce<D>(e: Editor, g: Body, prologue: seq<Instruction>, m: Machine<D>, s: D, t: D, n: nat)
    requires Consistent(e) && NoWayBack(e) && Boundary(e, 0) && SaysNo(m, prologue, t)
    ensures NoWhile(e, g, prologue, m, AT(0, s), AT(0, t), n)
    ensures GuardedSteps(e, prologue, m, AT(0, s), n) == if n > 0 then n + |prologue| + 1 else 0
  {
    hide Consistent, NoWayBack, Step, OffsetToIndex, SaysNo, Run;
    var c: Config<D>, d: Config<D> := AT(0, s), AT(0, t);
    if n > 0 {
      NeverBack(e, m, 0, s);
      StepStaysOnBoundaries(e, m, c);
      NeverAgain(e, g, prologue, m, Step(BodyOf(e), m, c), Run(g, m, d, Cost(c, prologue)), n - 1);
    }
  }
}
