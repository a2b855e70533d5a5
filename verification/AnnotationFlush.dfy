/** Writing moved offsets back into the opaque annotation attributes they were
    found in. */
module AnnotationFlush {
  import opened Bytes
  import opened Status
  import opened Instructions
  import opened References

  function Patch(info: seq<u1>, at: nat, value: u2): (r: seq<u1>)
    requires at + 2 <= |info|
    ensures |r| == |info|
  {
    info[at := value / 0x100][at + 1 := value % 0x100]
  }

  function Width(ref: AnnotationRef): nat {
    if ref.kind == SPAN then 4 else 2
  }

  datatype Flushed = Flushed(others: seq<Attribute>, status: Status)

  /** One value. The start of a scope is written before its end is looked at. */
  function FlushRef(ref: AnnotationRef, others: seq<Attribute>): (r: Flushed)
    ensures |r.others| == |others|
  {
    if ref.attribute >= |others| then Flushed(others, UNSUPPORTED)
    else
      var a := others[ref.attribute];
      if ref.payloadOffset + Width(ref) > |a.info| then Flushed(others, UNSUPPORTED)
      else if ref.start < 0 || ref.start > MAX_CODE_LENGTH then Flushed(others, CODE_TOO_LARGE)
      else
        var started := a.(info := Patch(a.info, ref.payloadOffset, ref.start));
        if ref.kind == INSTRUCTION then Flushed(others[ref.attribute := started], OK)
        else if ref.end < ref.start || ref.end > MAX_CODE_LENGTH then
          Flushed(others[ref.attribute := started], CODE_TOO_LARGE)
        else
          Flushed(others[ref.attribute :=
                    started.(info := Patch(started.info, ref.payloadOffset + 2, ref.end - ref.start))], OK)
  }

  function FlushFrom(refs: seq<AnnotationRef>, i: nat, others: seq<Attribute>): (r: Flushed)
    requires i <= |refs|
    ensures |r.others| == |others|
    decreases |refs| - i
  {
    if i == |refs| then Flushed(others, OK)
    else
      var first := FlushRef(refs[i], others);
      if first.status != OK then first else FlushFrom(refs, i + 1, first.others)
  }

  method Flush(refs: seq<AnnotationRef>, attributes: seq<Attribute>) returns (others: seq<Attribute>, status: Status)
    ensures Flushed(others, status) == FlushFrom(refs, 0, attributes)
  {
    others := attributes;
    for i := 0 to |refs|
      invariant FlushFrom(refs, i, others) == FlushFrom(refs, 0, attributes)
    {
      var ref := refs[i];
      ghost var before := others;
      if ref.attribute >= |others| {
        return others, UNSUPPORTED;
      }
      var a := others[ref.attribute];
      if ref.payloadOffset + Width(ref) > |a.info| {
        return others, UNSUPPORTED;
      }
      if ref.start < 0 || ref.start > MAX_CODE_LENGTH {
        return others, CODE_TOO_LARGE;
      }
      a := a.(info := Patch(a.info, ref.payloadOffset, ref.start));
      others := others[ref.attribute := a];
      if ref.kind == SPAN {
        if ref.end < ref.start || ref.end > MAX_CODE_LENGTH {
          return others, CODE_TOO_LARGE;
        }
        a := a.(info := Patch(a.info, ref.payloadOffset + 2, ref.end - ref.start));
        others := others[ref.attribute := a];
      }
      assert others == before[ref.attribute := a];
    }
    status := OK;
  }
}
