/** A pattern watch against every order in which classes can load and prepare
    while it is being set up: events on first, then a scan of what is loaded. */
module WatchProtocol {
  import opened Bytes
  import opened Status
  import opened ClassWatch

  /** How far a class has come. NOTIFIED is PREPARED with its event delivered or
      dropped. */
  datatype Phase = UNLOADED | LOADED | PREPARED | NOTIFIED

  datatype Snapshot = NOT_YET | SCANNING(left: set<ClassId>) | HIT(f: Found) | DONE

  datatype Protocol = Protocol(watch: Watch, enabled: bool, phases: map<ClassId, Phase>, snapshot: Snapshot)

  function PhaseOf(p: Protocol, c: ClassId): Phase {
    if c in p.phases then p.phases[c] else UNLOADED
  }

  /** One thing that can happen next. ok says whether lookups and allocations in
      it succeed. */
  datatype Event =
    | ENABLE
    | LOAD(c: ClassId, ok: bool)
    | PREPARE(c: ClassId)
    | NOTIFY(c: ClassId, ok: bool)
    | LIST
    | LOOK(c: ClassId)
    | FINISH
    | RESOLVE(ok: bool)
    | CLEAR

  /** An event that cannot happen in p leaves it alone. */
  function Next(scan: Scan, p: Protocol, e: Event): Protocol {
    match e
    case ENABLE => p.(enabled := true)
    case LOAD(c, ok) =>
      if PhaseOf(p, c) != UNLOADED then p
      else p.(phases := p.phases[c := LOADED], watch := if p.enabled then OnLoad(scan, p.watch, c, ok) else p.watch)
    case PREPARE(c) => if PhaseOf(p, c) != LOADED then p else p.(phases := p.phases[c := PREPARED])
    case NOTIFY(c, ok) =>
      if PhaseOf(p, c) != PREPARED then p
      else p.(phases := p.phases[c := NOTIFIED], watch := if p.enabled then OnPrepare(scan, p.watch, c, ok) else p.watch)
    case LIST =>
      if !p.enabled || p.snapshot != NOT_YET then p
      else p.(snapshot := SCANNING(set c | c in p.phases && p.phases[c] != UNLOADED))
    case LOOK(c) =>
      if !p.snapshot.SCANNING? || c !in p.snapshot.left then p
      else if PhaseOf(p, c) in {PREPARED, NOTIFIED} && scan(p.watch.pattern, c).Some?
      then p.(snapshot := HIT(scan(p.watch.pattern, c).value))
      else p.(snapshot := SCANNING(p.snapshot.left - {c}))
    case FINISH => if p.snapshot != SCANNING({}) then p else p.(snapshot := DONE)
    case RESOLVE(ok) => if !p.snapshot.HIT? then p else p.(snapshot := DONE, watch := Resolve(p.watch, p.snapshot.f, ok))
    case CLEAR => p.(watch := Cancel(p.watch))
  }

  function Run(scan: Scan, p: Protocol, events: seq<Event>): Protocol
    decreases |events|
  {
    if events == [] then p else Next(scan, Run(scan, p, events[..|events| - 1]), events[|events| - 1])
  }

  /** Before the watch exists: classes may be anywhere. */
  predicate Initial(p: Protocol) {
    p.watch == Created(p.watch.pattern) && !p.enabled && p.snapshot == NOT_YET
  }

  predicate Matching(scan: Scan, p: Protocol, c: ClassId) {
    scan(p.watch.pattern, c).Some?
  }

  // ----- what every run keeps -----

  predicate Visible(p: Protocol, c: ClassId) {
    PhaseOf(p, c) in {PREPARED, NOTIFIED}
  }

  /** A found method was found in a class that has been prepared. */
  ghost predicate Genuine(scan: Scan, p: Protocol, f: Found) {
    exists c :: Visible(p, c) && scan(p.watch.pattern, c) == Some(f)
  }

  /** A class that was notified and missed is still to be looked at. */
  predicate StillAhead(p: Protocol, c: ClassId) {
    match p.snapshot
    case NOT_YET => true
    case SCANNING(left) => c in left
    case HIT(_) => true
    case DONE => false
  }

  predicate Missed(scan: Scan, p: Protocol, c: ClassId) {
    Matching(scan, p, c) && PhaseOf(p, c) == NOTIFIED
  }

  ghost predicate Kept(scan: Scan, p: Protocol) {
    && (p.snapshot != NOT_YET ==> p.enabled)
    && (p.watch.state == CAPTURED ==> p.enabled && CapturePending(scan, p))
    && (p.watch.state == WAITING ==> forall c :: Missed(scan, p, c) ==> StillAhead(p, c))
    && (p.watch.state == READY ==> Genuine(scan, p, Found(p.watch.found, p.watch.offset)))
    && (p.snapshot.HIT? ==> Genuine(scan, p, p.snapshot.f))
    && (p.watch.state != CANCELLED ==> p.watch.registered)
    && (p.watch.state == FAILED ==> p.watch.failure != WATCH_OK)
  }

  /** The captured class matches, is not done preparing, and its offset is kept. */
  predicate CapturePending(scan: Scan, p: Protocol) {
    && p.watch.candidate.Some?
    && var c := p.watch.candidate.value;
    && Matching(scan, p, c) && PhaseOf(p, c) in {LOADED, PREPARED}
    && p.watch.offset == scan(p.watch.pattern, c).value.offset
  }

  lemma InitialIsKept(scan: Scan, p: Protocol)
    requires Initial(p)
    ensures Kept(scan, p)
  {
  }

  lemma GenuineStays(scan: Scan, p: Protocol, q: Protocol, f: Found)
    requires Genuine(scan, p, f) && q.watch.pattern == p.watch.pattern && forall c :: Visible(p, c) ==> Visible(q, c)
    ensures Genuine(scan, q, f)
  {
    var c :| Visible(p, c) && scan(p.watch.pattern, c) == Some(f);
    assert Visible(q, c);
  }

  lemma Advances(scan: Scan, p: Protocol, e: Event)
    ensures Next(scan, p, e).watch.pattern == p.watch.pattern
    ensures forall c :: Visible(p, c) ==> Visible(Next(scan, p, e), c)
  {
  }

  lemma LoadKeeps(scan: Scan, p: Protocol, c: ClassId, ok: bool)
    requires Kept(scan, p)
    ensures Kept(scan, Next(scan, p, LOAD(c, ok)))
  {
    var e := LOAD(c, ok);
    Carried(scan, p, e);
    var q := Next(scan, p, e);
    assert forall d :: Missed(scan, q, d) ==> Missed(scan, p, d);
  }

  lemma PrepareKeeps(scan: Scan, p: Protocol, c: ClassId)
    requires Kept(scan, p)
    ensures Kept(scan, Next(scan, p, PREPARE(c)))
  {
    var e := PREPARE(c);
    Carried(scan, p, e);
    var q := Next(scan, p, e);
    assert forall d :: Missed(scan, q, d) ==> Missed(scan, p, d);
  }

  /** A class notified while events are on is not missed. One notified before
      that is there when the loaded classes are listed. */
  lemma NotifyKeeps(scan: Scan, p: Protocol, c: ClassId, ok: bool)
    requires Kept(scan, p)
    ensures Kept(scan, Next(scan, p, NOTIFY(c, ok)))
  {
    var e := NOTIFY(c, ok);
    Carried(scan, p, e);
    var q := Next(scan, p, e);
    assert forall d :: d != c && Missed(scan, q, d) ==> Missed(scan, p, d);
    if PhaseOf(p, c) == PREPARED && p.enabled {
      assert Visible(q, c);
      if Matching(scan, p, c) {
        assert Genuine(scan, q, scan(p.watch.pattern, c).value);
      }
    }
  }

  lemma ListKeeps(scan: Scan, p: Protocol)
    requires Kept(scan, p)
    ensures Kept(scan, Next(scan, p, LIST))
  {
    Carried(scan, p, LIST);
    var q := Next(scan, p, LIST);
    forall c | Missed(scan, q, c) && p.watch.state == WAITING ensures StillAhead(q, c) {
      assert Missed(scan, p, c);
    }
  }

  lemma LookKeeps(scan: Scan, p: Protocol, c: ClassId)
    requires Kept(scan, p)
    ensures Kept(scan, Next(scan, p, LOOK(c)))
  {
    Carried(scan, p, LOOK(c));
    var q := Next(scan, p, LOOK(c));
    forall d | Missed(scan, q, d) && p.watch.state == WAITING ensures StillAhead(q, d) {
      assert Missed(scan, p, d);
    }
    if q.snapshot.HIT? && !p.snapshot.HIT? {
      assert Visible(q, c);
    }
  }

  /** Whatever was found stays found in a prepared class. */
  lemma Carried(scan: Scan, p: Protocol, e: Event)
    requires Kept(scan, p)
    ensures p.snapshot.HIT? ==> Genuine(scan, Next(scan, p, e), p.snapshot.f)
    ensures p.watch.state == READY ==> Genuine(scan, Next(scan, p, e), Found(p.watch.found, p.watch.offset))
  {
    Advances(scan, p, e);
    if p.snapshot.HIT? {
      GenuineStays(scan, p, Next(scan, p, e), p.snapshot.f);
    }
    if p.watch.state == READY {
      GenuineStays(scan, p, Next(scan, p, e), Found(p.watch.found, p.watch.offset));
    }
  }

  lemma OtherKeeps(scan: Scan, p: Protocol, e: Event)
    requires Kept(scan, p) && (e.ENABLE? || e.FINISH? || e.RESOLVE? || e.CLEAR?)
    ensures Kept(scan, Next(scan, p, e))
  {
    Carried(scan, p, e);
    var q := Next(scan, p, e);
    forall d | Missed(scan, q, d) && q.watch.state == WAITING ensures StillAhead(q, d) {
      assert Missed(scan, p, d);
    }
  }

  lemma NextKeeps(scan: Scan, p: Protocol, e: Event)
    requires Kept(scan, p)
    ensures Kept(scan, Next(scan, p, e))
  {
    hide Kept, Next;
    match e
    case LOAD(c, ok) => LoadKeeps(scan, p, c, ok);
    case NOTIFY(c, ok) => NotifyKeeps(scan, p, c, ok);
    case PREPARE(c) => PrepareKeeps(scan, p, c);
    case LIST => ListKeeps(scan, p);
    case LOOK(c) => LookKeeps(scan, p, c);
    case _ => OtherKeeps(scan, p, e);
  }

  lemma {:induction false} RunKeeps(scan: Scan, p: Protocol, events: seq<Event>)
    requires Kept(scan, p)
    ensures Kept(scan, Run(scan, p, events))
    decreases |events|
  {
    hide Kept, Next;
    if events != [] {
      RunKeeps(scan, p, events[..|events| - 1]);
      NextKeeps(scan, Run(scan, p, events[..|events| - 1]), events[|events| - 1]);
    }
  }

  // ----- the watch resolves -----

  /** Lookups and allocations succeed, and nobody cancels. */
  predicate Smooth(events: seq<Event>) {
    forall i :: 0 <= i < |events| ==> SmoothEvent(events[i])
  }

  predicate SmoothEvent(e: Event) {
    match e
    case LOAD(_, ok) => ok
    case NOTIFY(_, ok) => ok
    case RESOLVE(ok) => ok
    case CLEAR => false
    case _ => true
  }

  predicate InPlay(p: Protocol) {
    p.watch.state in {WAITING, CAPTURED, READY}
  }

  lemma SmoothStep(scan: Scan, p: Protocol, e: Event)
    requires Kept(scan, p) && InPlay(p) && SmoothEvent(e)
    ensures InPlay(Next(scan, p, e))
  {
  }

  lemma {:induction false} SmoothRun(scan: Scan, p: Protocol, events: seq<Event>)
    requires Kept(scan, p) && InPlay(p) && Smooth(events)
    ensures InPlay(Run(scan, p, events))
    decreases |events|
  {
    hide Kept, Next, InPlay;
    if events != [] {
      var before := events[..|events| - 1];
      SmoothRun(scan, p, before);
      RunKeeps(scan, p, before);
      SmoothStep(scan, Run(scan, p, before), events[|events| - 1]);
    }
  }

  /** Whatever the order of loads, prepares and the scan: once the scan is over,
      a matching class has been prepared, and the captured class, if any, has
      been prepared too, the watch is ready, with a method in which the pattern
      was found. */
  lemma WatchResolves(scan: Scan, p: Protocol, events: seq<Event>, c: ClassId)
    requires Initial(p) && Smooth(events)
    requires var q := Run(scan, p, events);
      && q.snapshot == DONE && Matching(scan, q, c) && PhaseOf(q, c) == NOTIFIED
      && (q.watch.state == CAPTURED && q.watch.candidate.Some? ==> PhaseOf(q, q.watch.candidate.value) == NOTIFIED)
    ensures var q := Run(scan, p, events);
      q.watch.state == READY && Genuine(scan, q, Found(q.watch.found, q.watch.offset))
  {
    hide Run;
    var q := Run(scan, p, events);
    InitialIsKept(scan, p);
    RunKeeps(scan, p, events);
    SmoothRun(scan, p, events);
    assert Missed(scan, q, c);
  }

  /** Once ready, a watch stays ready with the same method and offset until it is
      cancelled. */
  lemma {:induction false} ReadyIsFinal(scan: Scan, p: Protocol, events: seq<Event>)
    requires p.watch.state == READY && forall i :: 0 <= i < |events| ==> events[i] != CLEAR
    ensures Run(scan, p, events).watch == p.watch
    decreases |events|
  {
    if events != [] {
      ReadyIsFinal(scan, p, events[..|events| - 1]);
    }
  }

  /** A failed watch can be revived, by the scan and by nothing else. */
  lemma LeavingFailed(scan: Scan, p: Protocol, e: Event)
    requires p.watch.state == FAILED && p.watch.registered
    ensures Next(scan, p, e).watch.state == READY <==> e == RESOLVE(true) && p.snapshot.HIT?
    ensures Next(scan, p, e).watch.state == CANCELLED <==> e == CLEAR
    ensures Next(scan, p, e).watch.state in {FAILED, READY, CANCELLED}
  {
  }

  /** A run on which that happens: a class is found by the scan while another one
      loads and cannot be copied. */
  lemma FailedIsNotTerminal(scan: Scan)
    requires scan(0, 1) == Some(Found(5, 3)) && scan(0, 2) == Some(Found(6, 4))
    ensures var p := Protocol(Created(0), false, map[1 := NOTIFIED], NOT_YET);
      && Initial(p)
      && Run(scan, p, [ENABLE, LIST, LOOK(1), LOAD(2, false)]).watch.state == FAILED
      && Run(scan, p, [ENABLE, LIST, LOOK(1), LOAD(2, false), RESOLVE(true)]).watch.state == READY
  {
    var p := Protocol(Created(0), false, map[1 := NOTIFIED], NOT_YET);
    var es := [ENABLE, LIST, LOOK(1), LOAD(2, false), RESOLVE(true)];
    assert es[..4] == [ENABLE, LIST, LOOK(1), LOAD(2, false)] && es[..4][..3] == [ENABLE, LIST, LOOK(1)];
    assert es[..4][..3][..2] == [ENABLE, LIST] && [ENABLE, LIST][..1] == [ENABLE];
    var p1 := Next(scan, p, ENABLE);
    assert Run(scan, p, [ENABLE]) == p1;
    var p2 := Next(scan, p1, LIST);
    assert Run(scan, p, [ENABLE, LIST]) == p2 && 1 in p2.snapshot.left;
    var p3 := Next(scan, p2, LOOK(1));
    assert Run(scan, p, [ENABLE, LIST, LOOK(1)]) == p3 && p3.snapshot == HIT(Found(5, 3));
  }
}
