/** Watches for a method by its bytecode pattern: what a class load, a class
    prepare and the scan of loaded classes do to each of them. */
module ClassWatch {
  import opened Bytes
  import opened Status

  /** A class as its name and loader identify it. */
  type ClassId = nat

  datatype WatchState = WAITING | CAPTURED | READY | FAILED | CANCELLED
  datatype WatchStatus = WATCH_OK | WATCH_NOT_FOUND | WATCH_NOT_INITIALIZED | WATCH_JNI | WATCH_JVMTI | WATCH_OUT_OF_MEMORY

  /** The method a pattern was found in, and where. */
  datatype Found = Found(found: nat, offset: u4)

  datatype Watch = Watch(
    pattern: nat,
    state: WatchState,
    failure: WatchStatus,
    candidate: Option<ClassId>,
    found: nat,
    offset: u4,
    registered: bool)

  /** Where a pattern occurs in a class. */
  type Scan = (nat, ClassId) -> Option<Found>

  // ----- one watch -----

  function Fail(w: Watch, failure: WatchStatus): Watch {
    w.(state := FAILED, failure := failure, candidate := None, found := 0)
  }

  /** The bytes of class c are about to be defined. */
  function OnLoad(scan: Scan, w: Watch, c: ClassId, ok: bool): Watch {
    if w.state != WAITING || scan(w.pattern, c).None? then w
    else
      var captured := w.(candidate := Some(c), offset := scan(w.pattern, c).value.offset);
      if ok then captured.(state := CAPTURED) else Fail(captured, WATCH_OUT_OF_MEMORY)
  }

  /** Class c has been prepared and its methods can be named. */
  function OnPrepare(scan: Scan, w: Watch, c: ClassId, ok: bool): Watch {
    if w.state == WAITING then
      match scan(w.pattern, c)
      case None => w
      case Some(f) =>
        if ok then w.(state := READY, found := f.found, offset := f.offset) else Fail(w, WATCH_OUT_OF_MEMORY)
    else if w.state == CAPTURED && w.candidate == Some(c) then
      if ok && scan(w.pattern, c).Some?
      then w.(state := READY, candidate := None, found := scan(w.pattern, c).value.found)
      else Fail(w, WATCH_JNI)
    else w
  }

  /** The scan of the loaded classes has found the pattern. */
  function Resolve(w: Watch, f: Found, ok: bool): Watch {
    if !w.registered || w.state == READY then w
    else if ok then w.(state := READY, candidate := None, found := f.found, offset := f.offset)
    else Fail(w, WATCH_JVMTI)
  }

  function Cancel(w: Watch): Watch {
    w.(state := CANCELLED, candidate := None, found := 0, registered := false)
  }

  function Created(pattern: nat): Watch {
    Watch(pattern, WAITING, WATCH_OK, None, 0, 0, true)
  }

  // ----- all of them -----

  class Watches {
    const scan: Scan
    var list: seq<Watch>

    constructor (search: Scan)
      ensures scan == search && list == []
    {
      scan, list := search, [];
    }

    method Create(pattern: nat)
      modifies this`list
      ensures list == [Created(pattern)] + old(list)
    {
      list := [Created(pattern)] + list;
    }

    /** ok says of each watch whether its copies could be allocated. */
    method OnClassFileLoad(c: ClassId, ok: seq<bool>)
      requires |ok| == |list|
      modifies this`list
      ensures |list| == |old(list)|
      ensures forall i :: 0 <= i < |list| ==> list[i] == OnLoad(scan, old(list)[i], c, ok[i])
    {
      var waiting := false;
      for i := 0 to |list|
        invariant waiting <==> exists k :: 0 <= k < i && list[k].state == WAITING
      {
        waiting := waiting || list[i].state == WAITING;
      }
      if !waiting {
        return;
      }
      for i := 0 to |list|
        invariant |list| == |old(list)|
        invariant forall k :: 0 <= k < i ==> list[k] == OnLoad(scan, old(list)[k], c, ok[k])
        invariant forall k :: i <= k < |list| ==> list[k] == old(list)[k]
      {
        var w := list[i];
        if w.state != WAITING {
          continue;
        }
        var f := scan(w.pattern, c);
        if f.None? {
          continue;
        }
        w := w.(candidate := Some(c), offset := f.value.offset);
        if ok[i] {
          w := w.(state := CAPTURED);
        } else {
          w := Fail(w, WATCH_OUT_OF_MEMORY);
        }
        list := list[i := w];
      }
    }

    /** First the watches that missed the load, then those that captured it. */
    method OnClassPrepare(c: ClassId, ok: seq<bool>)
      requires |ok| == |list|
      modifies this`list
      ensures |list| == |old(list)|
      ensures forall i :: 0 <= i < |list| ==> list[i] == OnPrepare(scan, old(list)[i], c, ok[i])
    {
      for i := 0 to |list|
        invariant |list| == |old(list)|
        invariant forall k :: 0 <= k < i ==>
          list[k] == if old(list)[k].state == WAITING then OnPrepare(scan, old(list)[k], c, ok[k]) else old(list)[k]
        invariant forall k :: i <= k < |list| ==> list[k] == old(list)[k]
      {
        var w := list[i];
        if w.state != WAITING {
          continue;
        }
        var f := scan(w.pattern, c);
        if f.None? {
          continue;
        }
        if !ok[i] {
          list := list[i := Fail(w, WATCH_OUT_OF_MEMORY)];
        } else {
          list := list[i := w.(state := READY, found := f.value.found, offset := f.value.offset)];
        }
      }
      for i := 0 to |list|
        invariant |list| == |old(list)|
        invariant forall k :: 0 <= k < i ==> list[k] == OnPrepare(scan, old(list)[k], c, ok[k])
        invariant forall k :: i <= k < |list| ==>
          list[k] == if old(list)[k].state == WAITING then OnPrepare(scan, old(list)[k], c, ok[k]) else old(list)[k]
      {
        var w := list[i];
        if w.state != CAPTURED || w.candidate != Some(c) {
          continue;
        }
        var f := scan(w.pattern, c);
        if !ok[i] || f.None? {
          list := list[i := Fail(w, WATCH_JNI)];
        } else {
          list := list[i := w.(state := READY, candidate := None, found := f.value.found)];
        }
      }
    }

    method ResolveLoaded(i: nat, f: Found, ok: bool) returns (status: WatchStatus)
      requires i < |list|
      modifies this`list
      ensures list == old(list)[i := Resolve(old(list)[i], f, ok)]
      ensures status == WATCH_OK <==> ok || !old(list)[i].registered || old(list)[i].state == READY
    {
      var w := list[i];
      if !w.registered || w.state == READY {
        return WATCH_OK;
      }
      if !ok {
        list := list[i := Fail(w, WATCH_JVMTI)];
        return WATCH_JVMTI;
      }
      list := list[i := w.(state := READY, candidate := None, found := f.found, offset := f.offset)];
      return WATCH_OK;
    }

    /** What a caller is told about watch i. */
    method Get(i: nat) returns (status: WatchStatus, found: nat, offset: u4)
      requires i < |list| && (list[i].state == FAILED ==> list[i].failure != WATCH_OK)
      ensures status == WATCH_OK <==> list[i].state == READY
      ensures status == WATCH_OK ==> found == list[i].found && offset == list[i].offset
      ensures list[i].state == FAILED ==> status == list[i].failure
      ensures list[i].state == CANCELLED ==> status == WATCH_NOT_INITIALIZED
      ensures list[i].state in {WAITING, CAPTURED} ==> status == WATCH_NOT_FOUND
    {
      var w := list[i];
      found, offset := 0, 0;
      if w.state == READY {
        return WATCH_OK, w.found, w.offset;
      } else if w.state == FAILED {
        return w.failure, found, offset;
      } else if w.state == CANCELLED {
        return WATCH_NOT_INITIALIZED, found, offset;
      }
      return WATCH_NOT_FOUND, found, offset;
    }

    /** Every watch is told that there will be no more events. */
    method Clear() returns (cancelled: seq<Watch>)
      modifies this`list
      ensures list == [] && |cancelled| == |old(list)|
      ensures forall i :: 0 <= i < |cancelled| ==> cancelled[i] == Cancel(old(list)[i])
    {
      cancelled := [];
      for i := 0 to |list|
        invariant |cancelled| == i && list == old(list) && forall k :: 0 <= k < i ==> cancelled[k] == Cancel(list[k])
      {
        cancelled := cancelled + [Cancel(list[i])];
      }
      list := [];
    }
  }
}
