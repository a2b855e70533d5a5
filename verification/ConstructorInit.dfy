/** The worklist that finds the point after which a constructor's this is
    initialised: a circular queue over the flow equations. */
module ConstructorInit {
  import opened Bytes
  import opened Status
  import opened Instructions
  import opened StackShapes
  import opened TraceWork
  import opened InitFlow

  datatype InitResult = FOUND | MISSING | AMBIGUOUS

  // ----- the remaining height of the lattice -----

  function Unmixed(s: seq<Trace>): (n: nat)
    ensures n <= |s|
  {
    if s == [] then 0 else Unmixed(s[1..]) + (if s[0] == MIXED then 0 else 1)
  }

  function Height(m: Method, state: Option<Work>): nat {
    match state
    case None => m.maxLocals + m.maxStack + 1
    case Some(w) => Unmixed(w.locals) + Unmixed(w.stack)
  }

  function TotalHeight(m: Method, states: States): nat {
    if states == [] then 0 else Height(m, states[0]) + TotalHeight(m, states[1..])
  }

  lemma {:induction false} TotalHeightUpdate(m: Method, states: States, i: nat, state: Option<Work>)
    requires i < |states|
    ensures TotalHeight(m, states[i := state]) == TotalHeight(m, states) - Height(m, states[i]) + Height(m, state)
  {
    hide Height;
    var updated := states[i := state];
    if i == 0 {
      assert updated[1..] == states[1..];
    } else {
      assert updated[1..] == states[1..][i - 1 := state];
      TotalHeightUpdate(m, states[1..], i - 1, state);
    }
  }

  lemma {:induction false} UnmixedFalls(a: seq<Trace>, b: seq<Trace>)
    requires AboveAll(a, b)
    ensures Unmixed(a) <= Unmixed(b)
    ensures a != b ==> Unmixed(a) < Unmixed(b)
  {
    if a != [] {
      assert AboveAll(a[1..], b[1..]);
      UnmixedFalls(a[1..], b[1..]);
      assert a == [a[0]] + a[1..] && b == [b[0]] + b[1..];
    }
  }

  /** A fact that changes a state brings it strictly closer to the top. */
  lemma MergeFalls(m: Method, state: Option<Work>, w: Work)
    requires FitsMethod(m, w) && (state.Some? ==> FitsMethod(m, state.value))
    ensures Merge(state, w) != state ==> Height(m, Merge(state, w)) < Height(m, state)
  {
    hide Merge, Above;
    MergeShape(state, w);
    MergeIsAbove(state, w);
    if state.Some? {
      AboveParts(Merge(state, w).value, state.value);
      UnmixedFalls(Merge(state, w).value.locals, state.value.locals);
      UnmixedFalls(Merge(state, w).value.stack, state.value.stack);
    }
  }

  lemma AboveParts(a: Work, b: Work)
    requires Above(a, b)
    ensures AboveAll(a.locals, b.locals) && AboveAll(a.stack, b.stack)
  {
  }

  lemma MergeShape(state: Option<Work>, w: Work)
    requires state.Some? ==> |state.value.locals| == |w.locals|
    ensures Merge(state, w).Some? && |Merge(state, w).value.locals| == |w.locals|
    ensures state.None? ==> Merge(state, w) == Some(w)
    ensures state.Some? ==> |Merge(state, w).value.stack| == |state.value.stack|
  {
  }

  // ----- the circular queue -----

  /** The k-th place behind head. */
  function Slot(head: nat, k: nat, n: nat): nat {
    if head + k < n then head + k else head + k - n
  }

  lemma NextPlace(i: nat, n: nat)
    requires i < n
    ensures (i + 1) % n == Slot(i, 1, n) < n
  {
    if i + 1 == n {
      assert (i + 1) % n == 0;
    }
  }

  predicate Distinct(s: seq<nat>) {
    forall i, j :: 0 <= i < j < |s| ==> s[i] != s[j]
  }

  /** Distinct indices below n are at most n. */
  lemma {:induction false} Pigeonhole(s: seq<nat>, n: nat)
    requires Distinct(s) && forall i :: 0 <= i < |s| ==> s[i] < n
    ensures |s| <= n
    decreases n
  {
    if n == 0 {
    } else if exists i :: 0 <= i < |s| && s[i] == n - 1 {
      var i :| 0 <= i < |s| && s[i] == n - 1;
      Pigeonhole(s[..i] + s[i + 1..], n - 1);
    } else {
      Pigeonhole(s, n - 1);
    }
  }

  // ----- what the worklist has settled -----

  predicate Recorded(m: Method, i: nat, found: bool, ambiguous: bool, offset: nat)
    requires i < |m.code|
  {
    found && (ambiguous || offset == After(m, i))
  }

  /** Nothing about i is left to do. */
  predicate Settled(m: Method, states: States, i: nat, found: bool, ambiguous: bool, offset: nat)
    requires |states| == |m.code| && i < |m.code|
  {
    states[i].Some? ==>
      if Stops(m, i, states[i].value) then Recorded(m, i, found, ambiguous, offset) else FlowsOn(m, states, i)
  }

  predicate AllSettled(m: Method, states: States, found: bool, ambiguous: bool, offset: nat)
    requires |states| == |m.code|
  {
    forall i :: 0 <= i < |states| ==> Settled(m, states, i, found, ambiguous, offset)
  }

  /** Below every typing of the method there is. */
  ghost predicate Least(m: Method, states: States) {
    forall cert: States :: Certificate(m, cert) ==> AllBelow(states, cert)
  }

  /** The entry of the method is reached with this in its first local. */
  predicate Started(m: Method, states: States) {
    m.maxLocals > 0 && |states| > 0 && states[0].Some? && Above(states[0].value, Entry(m))
  }

  lemma GrowthStarted(m: Method, states: States, j: nat, w: Work)
    requires Started(m, states) && j < |states|
    requires states[j].Some? ==> |states[j].value.locals| == |w.locals|
    ensures Started(m, states[j := Merge(states[j], w)])
  {
    hide Merge, Above, Entry;
    MergeIsAbove(states[j], w);
    if j == 0 {
      AboveTransitive(Merge(states[j], w).value, states[j].value, Entry(m));
    }
  }

  lemma StartIsSettled(m: Method, states: States, i: nat)
    requires |states| == |m.code| && i < |states| && states[i].None?
    ensures Settled(m, states, i, false, false, 0)
  {
  }

  /** What one more initialising call ending at after makes of the findings. */
  lemma RecordingKeepsSettled(m: Method, states: States, i: nat, found: bool, ambiguous: bool, offset: nat, after: nat)
    requires |states| == |m.code| && i < |states| && Settled(m, states, i, found, ambiguous, offset)
    ensures found ==> Settled(m, states, i, true, ambiguous || after != offset, offset)
    ensures !found ==> Settled(m, states, i, true, ambiguous, after)
  {
    hide Stops, FlowsOn, After;
  }

  lemma CallIsSettled(m: Method, states: States, i: nat, ambiguous: bool, offset: nat)
    requires |states| == |m.code| && i < |states| && states[i].Some? && Stops(m, i, states[i].value)
    requires ambiguous || offset == After(m, i)
    ensures Settled(m, states, i, true, ambiguous, offset)
    ensures InitArguments(m.cls, m.code[i]).Some?
  {
    hide FlowsOn, After, InitArguments;
  }

  lemma BlockedIsSettled(m: Method, states: States, i: nat, found: bool, ambiguous: bool, offset: nat)
    requires |states| == |m.code| && i < |states| && states[i].Some? && Flow(m, i, states[i].value).None?
    requires !Stops(m, i, states[i].value)
    ensures Settled(m, states, i, found, ambiguous, offset)
  {
    hide Stops, Flow;
  }

  /** What a finished analysis knows. */
  ghost predicate Solution(m: Method, states: States, result: InitResult, offset: nat) {
    && m.maxLocals > 0 && |m.code| > 0
    && StatesFit(m, states)
    && Started(m, states)
    && AllSettled(m, states, result != MISSING, result == AMBIGUOUS, offset)
    && Least(m, states)
  }

  /** Growing one state keeps every other instruction settled. */
  lemma GrowthKeepsFlow(m: Method, states: States, j: nat, w: Work, i: nat)
    requires StatesFit(m, states) && j < |states| && i < |states| && i != j && FitsMethod(m, w)
    requires FlowsOn(m, states, i)
    ensures FlowsOn(m, states[j := Merge(states[j], w)], i)
  {
    hide Flow, Merge, Above, Successors;
    var grown := states[j := Merge(states[j], w)];
    if states[i].Some? && Flow(m, i, states[i].value).Some? {
      var out := Flow(m, i, states[i].value).value;
      MergeIsAbove(states[j], w);
      MergeShape(states[j], w);
      if j in Successors(m.code, i) && |states[j].value.stack| == |out.stack| {
        AboveTransitive(grown[j].value, states[j].value, out);
      }
    }
  }

  lemma GrowthKeepsSettled(m: Method, states: States, j: nat, w: Work, i: nat, found: bool, ambiguous: bool, offset: nat)
    requires StatesFit(m, states) && j < |states| && i < |states| && i != j && FitsMethod(m, w)
    requires Settled(m, states, i, found, ambiguous, offset)
    ensures Settled(m, states[j := Merge(states[j], w)], i, found, ambiguous, offset)
  {
    hide FlowsOn, Merge, Stops;
    if states[i].Some? && !Stops(m, i, states[i].value) {
      GrowthKeepsFlow(m, states, j, w, i);
    }
  }

  /** Every typing passes at least w on from i. */
  ghost predicate PassedOn(m: Method, i: nat, w: Work) {
    forall cert: States :: Certificate(m, cert) ==> PassesOn(m, cert, i, w)
  }

  predicate PassesOn(m: Method, cert: States, i: nat, w: Work) {
    && i < |m.code| && i < |cert| && cert[i].Some?
    && Flow(m, i, cert[i].value).Some? && Above(Flow(m, i, cert[i].value).value, w)
  }

  lemma LeastPassesOn(m: Method, states: States, i: nat, w: Work)
    requires Least(m, states) && i < |states| == |m.code| && states[i].Some?
    requires Flow(m, i, states[i].value) == Some(w)
    ensures PassedOn(m, i, w)
  {
    hide Flow, Above, Certificate;
    forall cert: States | Certificate(m, cert) ensures PassesOn(m, cert, i, w) {
      assert AllBelow(states, cert);
      FlowMonotone(m, i, cert[i].value, states[i].value);
    }
  }

  /** A fact passed along an edge stays below every typing. */
  lemma GrowthKeepsLeast(m: Method, states: States, i: nat, w: Work, j: nat)
    requires Least(m, states) && StatesFit(m, states) && PassedOn(m, i, w) && FitsMethod(m, w)
    requires i < |m.code| && j in Successors(m.code, i) && j < |states|
    ensures states[j].Some? ==> |states[j].value.locals| == |w.locals|
    ensures Least(m, states[j := Merge(states[j], w)])
  {
    hide Flow, Merge, Above, Successors, InitArguments, Receiver;
    LocalsFit(m, states, j, w);
    forall cert: States | Certificate(m, cert) ensures AllBelow(states[j := Merge(states[j], w)], cert) {
      assert AllBelow(states, cert) && PassesOn(m, cert, i, w) && CertifiedAt(m, cert, i);
      AboveTransitive(cert[j].value, Flow(m, i, cert[i].value).value, w);
      MergeIsBelow(states[j], w, cert[j].value);
      MergeShape(states[j], w);
    }
  }

  predicate AccountedFor(states: States, targets: seq<nat>, w: Work) {
    forall j :: j in targets ==> j < |states| && Accounts(states[j], w)
  }

  lemma GrowthAccounts(states: States, targets: seq<nat>, j: nat, w: Work)
    requires AccountedFor(states, targets, w) && j < |states|
    requires states[j].Some? ==> |states[j].value.locals| == |w.locals|
    ensures AccountedFor(states[j := Merge(states[j], w)], targets + [j], w)
  {
    hide Merge, Accounts;
    MergeIsAbove(states[j], w);
  }

  lemma AccountedIsSettled(m: Method, states: States, i: nat, w: Work, found: bool, ambiguous: bool, offset: nat)
    requires |states| == |m.code| && i < |m.code| && states[i].Some? && Flow(m, i, states[i].value) == Some(w)
    requires AccountedFor(states, Successors(m.code, i), w)
    ensures Settled(m, states, i, found, ambiguous, offset)
  {
    hide Accounts, Successors, NodeShape, Apply, InitArguments;
  }

  lemma LocalsFit(m: Method, states: States, j: nat, w: Work)
    requires StatesFit(m, states) && j < |states| && FitsMethod(m, w)
    ensures states[j].Some? ==> |states[j].value.locals| == |w.locals|
  {
  }

  lemma GrowthFits(m: Method, states: States, j: nat, w: Work)
    requires StatesFit(m, states) && j < |states| && FitsMethod(m, w)
    ensures states[j].Some? ==> |states[j].value.locals| == |w.locals|
    ensures StatesFit(m, states[j := Merge(states[j], w)])
  {
    hide Merge;
    MergeShape(states[j], w);
  }

  /** The reported offsets are ends of initialising calls, two different ones
      when the result is ambiguous. */
  ghost predicate Witnessed(m: Method, found: bool, ambiguous: bool, offset: nat) {
    && (ambiguous ==> found)
    && (found ==> exists i :: 0 <= i < |m.code| && InitArguments(m.cls, m.code[i]).Some? && After(m, i) == offset)
    && (ambiguous ==> exists i :: 0 <= i < |m.code| && InitArguments(m.cls, m.code[i]).Some? && After(m, i) != offset)
  }

  // ----- the analysis -----

  class Worklist {
    const m: Method
    var states: States
    var queued: seq<bool>
    var queue: seq<nat>
    var head: nat
    var tail: nat
    var pending: nat
    ghost var contents: seq<nat>

    /** The queue holds exactly the flagged instructions, each once. */
    ghost predicate QueueValid()
      reads this
    {
      var n := |m.code|;
      && n > 0 && |queued| == |queue| == n
      && head < n && pending == |contents| <= n && tail == Slot(head, pending, n)
      && (forall k :: 0 <= k < pending ==> contents[k] < n && queue[Slot(head, k, n)] == contents[k])
      && Distinct(contents)
      && (forall i :: 0 <= i < n ==> (queued[i] <==> i in contents))
    }

    ghost predicate Valid()
      reads this
    {
      && Analysable(m)
      && StatesFit(m, states)
      && QueueValid()
      && Started(m, states)
      && (forall i :: 0 <= i < |states| && queued[i] ==> states[i].Some?)
    }

    constructor (body: Method)
      requires Analysable(body)
      ensures m == body && Valid()
      ensures states == [Some(Entry(m))] + seq(|m.code| - 1, i => None)
      ensures contents == [0]
    {
      var n := |body.code|;
      m := body;
      states := [Some(Entry(body))] + seq(n - 1, i => None);
      queued := [true] + seq(n - 1, i => false);
      queue := seq(n, i => 0);
      head, pending := 0, 1;
      tail := 1 % n;
      contents := [0];
      new;
      NextPlace(0, n);
    }

    method Take() returns (index: nat)
      requires Valid() && pending > 0
      modifies this
      ensures Valid() && index < |m.code| && states == old(states)
      ensures pending == old(pending) - 1 && contents == old(contents)[1..] && index == old(contents)[0]
      ensures states[index].Some?
    {
      ghost var n := |m.code|;
      assert Slot(head, 0, n) == head && queue[head] == contents[0];
      index := queue[head];
      NextPlace(head, n);
      head := (head + 1) % |m.code|;
      pending := pending - 1;
      queued := queued[index := false];
      ghost var before := contents;
      contents := contents[1..];
      assert forall k :: 0 <= k < pending ==> contents[k] == before[k + 1];
      assert forall i :: 0 <= i < n ==> (i in before <==> i == before[0] || i in contents);
    }

    /** Puts an instruction that is not waiting at the end of the queue. */
    method Enqueue(target: nat)
      requires Valid() && target < |m.code| && !queued[target] && states[target].Some?
      modifies this
      ensures Valid() && states == old(states)
      ensures pending == old(pending) + 1 && contents == old(contents) + [target]
    {
      ghost var n := |m.code|;
      assert Distinct(contents + [target]);
      Pigeonhole(contents + [target], n);
      NextPlace(tail, n);
      queue := queue[tail := target];
      tail := (tail + 1) % |m.code|;
      pending := pending + 1;
      queued := queued[target := true];
      contents := contents + [target];
    }

    /** Merges w into target and queues target if that changed anything. */
    method Propagate(target: nat, w: Work)
      requires Valid() && target < |m.code| && FitsMethod(m, w)
      modifies this
      ensures Valid()
      ensures old(states)[target].Some? ==> |old(states)[target].value.locals| == |w.locals|
      ensures states == old(states)[target := Merge(old(states)[target], w)]
      ensures forall i :: 0 <= i < |m.code| ==> (i in contents <==> i in old(contents) || (i == target && states != old(states)))
      ensures TotalHeight(m, states) < TotalHeight(m, old(states))
           || (states == old(states) && contents == old(contents))
    {
      hide Merge, TotalHeight, Height, Started;
      GrowthFits(m, states, target, w);
      GrowthStarted(m, states, target, w);
      var merged := Merge(states[target], w);
      MergeShape(states[target], w);
      var changed := merged != states[target];
      TotalHeightUpdate(m, states, target, merged);
      MergeFalls(m, states[target], w);
      ghost var before := states;
      states := states[target := merged];
      assert !changed ==> states == before;
      if changed && !queued[target] {
        Enqueue(target);
      }
    }

    /** Nothing is left to do about any instruction but those waiting. */
    ghost predicate Progress(except: nat, found: bool, ambiguous: bool, offset: nat)
      reads this
      requires Valid()
    {
      forall i :: 0 <= i < |m.code| && i != except ==> i in contents || Settled(m, states, i, found, ambiguous, offset)
    }

    method PassOne(index: nat, target: nat, w: Work, ghost found: bool, ghost ambiguous: bool, ghost offset: nat)
      requires Valid() && index < |m.code| && target < |m.code| && target in Successors(m.code, index)
      requires FitsMethod(m, w) && PassedOn(m, index, w)
      requires Progress(index, found, ambiguous, offset) && Least(m, states)
      modifies this
      ensures Valid() && Progress(index, found, ambiguous, offset) && Least(m, states)
      ensures old(states)[target].Some? ==> |old(states)[target].value.locals| == |w.locals|
      ensures states == old(states)[target := Merge(old(states)[target], w)]
      ensures forall i :: 0 <= i < |m.code| && i in old(contents) ==> i in contents
      ensures index in contents || index in old(contents) || states[index] == old(states)[index]
      ensures TotalHeight(m, states) < TotalHeight(m, old(states))
           || (states == old(states) && contents == old(contents))
    {
      hide TotalHeight, Merge, Settled, Least, Successors, FitsMethod, PassedOn, Analysable;
      GrowthKeepsLeast(m, states, index, w, target);
      ghost var before := states;
      Propagate(target, w);
      forall i | 0 <= i < |m.code| && i != index && i !in contents
        ensures Settled(m, states, i, found, ambiguous, offset)
      {
        if i != target {
          GrowthKeepsSettled(m, before, target, w, i, found, ambiguous, offset);
        }
      }
    }

    /** Passes w on to every successor of index. */
    method PropagateAll(index: nat, w: Work, ghost found: bool, ghost ambiguous: bool, ghost offset: nat)
      requires Valid() && index < |m.code| && index !in contents && states[index].Some?
      requires Flow(m, index, states[index].value) == Some(w)
      requires Progress(index, found, ambiguous, offset) && Least(m, states)
      modifies this
      ensures Valid() && Progress(|m.code|, found, ambiguous, offset) && Least(m, states)
      ensures TotalHeight(m, states) < TotalHeight(m, old(states))
           || (states == old(states) && contents == old(contents))
    {
      hide TotalHeight, Flow, Merge, Above, Settled, Least, Successors;
      FlowFits(m, index, states[index].value);
      LeastPassesOn(m, states, index, w);
      SuccessorsAreInside(m.code, index);
      var targets := Successors(m.code, index);
      for k := 0 to |targets|
        invariant Valid() && Progress(index, found, ambiguous, offset) && Least(m, states)
        invariant index in contents || (states[index] == old(states)[index] && AccountedFor(states, targets[..k], w))
        invariant TotalHeight(m, states) < TotalHeight(m, old(states))
               || (states == old(states) && contents == old(contents))
      {
        ghost var before, passed := states, targets[..k];
        PassOne(index, targets[k], w, found, ambiguous, offset);
        assert targets[..k + 1] == passed + [targets[k]];
        if AccountedFor(before, passed, w) {
          GrowthAccounts(before, passed, targets[k], w);
        }
      }
      assert targets[..|targets|] == targets;
      if index !in contents {
        AccountedIsSettled(m, states, index, w, found, ambiguous, offset);
      }
    }

    lemma StartProgress()
      requires Valid() && contents == [0] && states == [Some(Entry(m))] + seq(|m.code| - 1, i => None)
      ensures Progress(|m.code|, false, false, 0)
    {
      hide Settled, Started;
      forall i | 0 < i < |m.code| ensures Settled(m, states, i, false, false, 0) {
        StartIsSettled(m, states, i);
      }
    }

    /** An initialising call on this has been reached. */
    method Record(index: nat, found: bool, ambiguous: bool, offset: nat) returns (found': bool, ambiguous': bool, offset': nat)
      requires Valid() && index < |m.code| && states[index].Some? && Stops(m, index, states[index].value)
      requires Progress(index, found, ambiguous, offset) && Witnessed(m, found, ambiguous, offset)
      ensures Progress(|m.code|, found', ambiguous', offset') && Witnessed(m, found', ambiguous', offset')
    {
      hide Settled, Started, Stops, InitArguments;
      var after := m.code[index].offset + LengthAt(m.code[index], m.code[index].offset);
      found', ambiguous', offset' := found, ambiguous, offset;
      if !found {
        found', offset' := true, after;
      } else if after != offset {
        ambiguous' := true;
      }
      CallIsSettled(m, states, index, ambiguous', offset');
      forall i | 0 <= i < |m.code| && i != index && i !in contents
        ensures Settled(m, states, i, found', ambiguous', offset')
      {
        RecordingKeepsSettled(m, states, i, found, ambiguous, offset, after);
      }
    }

    /** Any other instruction: its effect is passed on if it has one. */
    method Follow(index: nat, ghost found: bool, ghost ambiguous: bool, ghost offset: nat)
      requires Valid() && index < |m.code| && index !in contents && states[index].Some?
      requires !Stops(m, index, states[index].value)
      requires Progress(index, found, ambiguous, offset) && Least(m, states)
      modifies this
      ensures Valid() && Progress(|m.code|, found, ambiguous, offset) && Least(m, states)
      ensures TotalHeight(m, states) < TotalHeight(m, old(states))
           || (states == old(states) && contents == old(contents))
    {
      hide Settled, Started, Stops, NodeShape, Apply, Least, TotalHeight;
      var work := new TraceWork(states[index].value, m.maxStack);
      var ok, terminal := work.Execute(m.cls, m.code[index]);
      if ok {
        PropagateAll(index, work.View(), found, ambiguous, offset);
      } else {
        BlockedIsSettled(m, states, index, found, ambiguous, offset);
      }
    }
  }

  method IsInitialising(m: Method, index: nat, w: Work) returns (stops: bool)
    requires index < |m.code|
    ensures stops == Stops(m, index, w)
  {
    var arguments := InitArguments(m.cls, m.code[index]);
    if arguments.None? || |w.stack| <= arguments.value {
      return false;
    }
    return w.stack[|w.stack| - arguments.value - 1] == THIS;
  }

  /** The start of the analysis is below every typing. */
  lemma EntryIsLeast(m: Method, states: States)
    requires Analysable(m) && states == [Some(Entry(m))] + seq(|m.code| - 1, i => None)
    ensures Least(m, states)
  {
    hide Entry, CertifiedAt, Above;
  }

  /** Where this becomes initialised. The states are those of the finished
      analysis: the least solution of the flow equations. */
  method ConstructorInitOffset(m: Method) returns (result: InitResult, offset: nat, ghost states: States)
    requires AllWellFormed(m.code)
    ensures |m.code| == 0 || m.maxLocals == 0 ==> result == MISSING
    ensures |m.code| > 0 && m.maxLocals > 0 ==> Solution(m, states, result, offset)
    ensures Witnessed(m, result != MISSING, result == AMBIGUOUS, offset)
  {
    hide Settled, Least, Stops, TotalHeight, Started, InitArguments, Flow, NodeShape, After;
    result, offset, states := MISSING, 0, [];
    if |m.code| == 0 || m.maxLocals == 0 {
      return;
    }
    var list := new Worklist(m);
    var found, ambiguous := false, false;
    EntryIsLeast(m, list.states);
    list.StartProgress();
    while list.pending != 0
      invariant list.m == m && fresh(list) && list.Valid() && list.Progress(|m.code|, found, ambiguous, offset)
      invariant Least(m, list.states) && Witnessed(m, found, ambiguous, offset)
      decreases TotalHeight(m, list.states), list.pending
    {
      var index := list.Take();
      var w := list.states[index].value;
      var stops := IsInitialising(m, index, w);
      if stops {
        found, ambiguous, offset := list.Record(index, found, ambiguous, offset);
      } else {
        list.Follow(index, found, ambiguous, offset);
      }
    }
    states := list.states;
    result := if ambiguous then AMBIGUOUS else if found then FOUND else MISSING;
  }
}
