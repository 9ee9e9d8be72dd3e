/** `DomainSnapshot`: the shared ownership discipline with `virDomainSnapshotFree`, the
    constructors that wrap a native pointer, the counting and tri-state queries, and the
    listing of children. */
module Snapshots {
  import opened Base
  import opened CStrings
  import opened Handles

  const FreeEntry := "virDomainSnapshotFree"

  /** `new`: the wrapper owns `h`, and `as_ptr` hands it back. */
  function New(h: Handle): (v: Owned)
    ensures AsPtr(v) == Returned(h)
  {
    Handles.New(h)
  }

  /** `free`: on native success the handle is released, so a later `as_ptr` panics; on
      -1 the error is returned and the wrapper is unchanged. A released wrapper panics. */
  function Free(v: Owned, ret: int, err: ErrorValue): (r: Run<Owned, Result<()>>)
    ensures r.Crashed? <==> v.ptr.None?
    ensures r.Crashed? ==> r.calls == []
    ensures r.Ran? ==> r.calls == [Call(FreeEntry, v.ptr.value, ret)]
    ensures r.Ran? ==> (r.value.Err? <==> ret == -1)
    ensures r.Ran? && r.value.Err? ==> r.value.error == err
    ensures r.Ran? && ret == -1 ==> r.state == v
    ensures r.Ran? && ret != -1 ==> AsPtr(r.state).Panicked?
  {
    Handles.Free(v, FreeEntry, ret, err)
  }

  /** `Drop`: frees a handle still owned and panics if that fails; a released wrapper
      makes no call. */
  function Drop(v: Owned, ret: int, err: ErrorValue): (r: Run<Owned, ()>)
    ensures v.ptr.None? ==> r == Ran([], v, ())
    ensures v.ptr.Some? ==> r.calls == [Call(FreeEntry, v.ptr.value, ret)]
    ensures v.ptr.Some? ==> (r.Crashed? <==> ret == -1)
    ensures r.Ran? ==> AsPtr(r.state).Panicked?
  {
    Handles.Drop(v, FreeEntry, ret, err)
  }

  /** A constructor working on a domain: the domain's handle is taken with `as_ptr`
      (a released domain panics), an optional string argument is copied into a C string
      (an interior NUL panics), and a null native result is an error. */
  function Construct(entry: string, dom: Owned, arg: Option<seq<uint8>>, ptr: Handle, err: ErrorValue)
    : (r: Run<(), Result<Owned>>)
    ensures r.Crashed? <==> dom.ptr.None? || (arg.Some? && 0 in arg.value)
    ensures r.Crashed? ==> r.calls == []
    ensures r.Ran? ==> r.calls == [Call(entry, dom.ptr.value, ptr)]
    ensures r.Ran? ==> (r.value.Err? <==> ptr == Null)
    ensures r.Ran? && r.value.Ok? ==> r.value.value == New(ptr)
  {
    match AsPtr(dom)
    case Panicked => Crashed([])
    case Returned(d) =>
      if arg.Some? && NewCString(arg.value).Panicked? then Crashed([])
      else Ran([Call(entry, d, ptr)], (), PtrStatus(ptr, err))
  }

  function LookupByName(dom: Owned, name: seq<uint8>, ptr: Handle, err: ErrorValue): (r: Run<(), Result<Owned>>)
    ensures r.Crashed? <==> dom.ptr.None? || 0 in name
    ensures r.Ran? ==> r.calls == [Call("virDomainSnapshotLookupByName", dom.ptr.value, ptr)]
    ensures r.Ran? ==> (r.value.Err? <==> ptr == Null) && (r.value.Ok? ==> r.value.value == New(ptr))
  {
    Construct("virDomainSnapshotLookupByName", dom, Some(name), ptr, err)
  }

  function CreateXml(dom: Owned, xml: seq<uint8>, ptr: Handle, err: ErrorValue): (r: Run<(), Result<Owned>>)
    ensures r.Crashed? <==> dom.ptr.None? || 0 in xml
    ensures r.Ran? ==> r.calls == [Call("virDomainSnapshotCreateXML", dom.ptr.value, ptr)]
    ensures r.Ran? ==> (r.value.Err? <==> ptr == Null) && (r.value.Ok? ==> r.value.value == New(ptr))
  {
    Construct("virDomainSnapshotCreateXML", dom, Some(xml), ptr, err)
  }

  function Current(dom: Owned, ptr: Handle, err: ErrorValue): (r: Run<(), Result<Owned>>)
    ensures r.Crashed? <==> dom.ptr.None?
    ensures r.Ran? ==> r.calls == [Call("virDomainSnapshotCurrent", dom.ptr.value, ptr)]
    ensures r.Ran? ==> (r.value.Err? <==> ptr == Null) && (r.value.Ok? ==> r.value.value == New(ptr))
  {
    Construct("virDomainSnapshotCurrent", dom, None, ptr, err)
  }

  /** `get_parent` as written takes the domain, and passes the domain's handle. */
  function GetParent(dom: Owned, ptr: Handle, err: ErrorValue): (r: Run<(), Result<Owned>>)
    ensures r.Crashed? <==> dom.ptr.None?
    ensures r.Ran? ==> r.calls == [Call("virDomainSnapshotGetParent", dom.ptr.value, ptr)]
    ensures r.Ran? ==> (r.value.Err? <==> ptr == Null) && (r.value.Ok? ==> r.value.value == New(ptr))
  {
    Construct("virDomainSnapshotGetParent", dom, None, ptr, err)
  }

  /** `num` (on a domain) and `num_children` (on a snapshot): -1 is an error, any
      other count is returned `as u32`. */
  function Count(o: Owned, entry: string, ret: int32, err: ErrorValue): (r: Run<Owned, Result<uint32>>)
    ensures r.Crashed? <==> o.ptr.None?
    ensures r.Crashed? ==> r.calls == []
    ensures r.Ran? ==> r.state == o && r.calls == [Call(entry, o.ptr.value, ret)]
    ensures r.Ran? ==> (r.value.Err? <==> ret == -1)
    ensures r.Ran? && r.value.Ok? ==> (r.value.value - ret) % 0x1_0000_0000 == 0
    ensures r.Ran? && ret >= 0 ==> r.value == Ok(ret)
  {
    match Invoke(o, entry, ret)
    case Crashed(calls) => Crashed(calls)
    case Ran(calls, _, _) => Ran(calls, o, CountStatus(ret, err))
  }

  function Num(dom: Owned, ret: int32, err: ErrorValue): (r: Run<Owned, Result<uint32>>)
    ensures r.Crashed? <==> dom.ptr.None?
    ensures r.Ran? ==> r.calls == [Call("virDomainSnapshotNum", dom.ptr.value, ret)]
    ensures r.Ran? ==> (r.value.Err? <==> ret == -1) && (ret >= 0 ==> r.value == Ok(ret))
  {
    Count(dom, "virDomainSnapshotNum", ret, err)
  }

  function NumChildren(s: Owned, ret: int32, err: ErrorValue): (r: Run<Owned, Result<uint32>>)
    ensures r.Crashed? <==> s.ptr.None?
    ensures r.Ran? ==> r.calls == [Call("virDomainSnapshotNumChildren", s.ptr.value, ret)]
    ensures r.Ran? ==> (r.value.Err? <==> ret == -1) && (ret >= 0 ==> r.value == Ok(ret))
  {
    Count(s, "virDomainSnapshotNumChildren", ret, err)
  }

  /** `is_current` and `has_metadata`: -1 is an error, 1 is true, anything else false. */
  function Ask(s: Owned, entry: string, ret: int32, err: ErrorValue): (r: Run<Owned, Result<bool>>)
    ensures r.Crashed? <==> s.ptr.None?
    ensures r.Crashed? ==> r.calls == []
    ensures r.Ran? ==> r.state == s && r.calls == [Call(entry, s.ptr.value, ret)]
    ensures r.Ran? ==> (r.value.Err? <==> ret == -1) && (r.value.Ok? ==> (r.value.value <==> ret == 1))
  {
    match Invoke(s, entry, ret)
    case Crashed(calls) => Crashed(calls)
    case Ran(calls, _, _) => Ran(calls, s, BoolStatus(ret, err))
  }

  function IsCurrent(s: Owned, ret: int32, err: ErrorValue): (r: Run<Owned, Result<bool>>)
    ensures r.Crashed? <==> s.ptr.None?
    ensures r.Ran? ==> r.calls == [Call("virDomainSnapshotIsCurrent", s.ptr.value, ret)]
    ensures r.Ran? ==> (r.value.Err? <==> ret == -1) && (r.value.Ok? ==> (r.value.value <==> ret == 1))
  {
    Ask(s, "virDomainSnapshotIsCurrent", ret, err)
  }

  function HasMetadata(s: Owned, ret: int32, err: ErrorValue): (r: Run<Owned, Result<bool>>)
    ensures r.Crashed? <==> s.ptr.None?
    ensures r.Ran? ==> r.calls == [Call("virDomainSnapshotHasMetadata", s.ptr.value, ret)]
    ensures r.Ran? ==> (r.value.Err? <==> ret == -1) && (r.value.Ok? ==> (r.value.value <==> ret == 1))
  {
    Ask(s, "virDomainSnapshotHasMetadata", ret, err)
  }

  /** `list_all_children`: the native call fills an array of `size` handles; -1 is an
      error and wraps nothing; otherwise each of the first `size` handles, in array
      order, becomes a new owned wrapper (the range `0..size` is empty when `size` is
      negative). `snaps` is the array the native library hands back. */
  method ListAllChildren(s: Owned, size: int32, snaps: seq<Handle>, err: ErrorValue)
    returns (r: Run<Owned, Result<seq<Owned>>>)
    requires size <= |snaps|
    ensures r.Crashed? <==> s.ptr.None?
    ensures r.Crashed? ==> r.calls == []
    ensures r.Ran? ==> r.state == s && r.calls == [Call("virDomainSnapshotListAllChildren", s.ptr.value, size)]
    ensures r.Ran? ==> (r.value.Err? <==> size == -1)
    ensures r.Ran? && r.value.Ok? ==> |r.value.value| == (if size < 0 then 0 else size)
    ensures r.Ran? && r.value.Ok? ==> forall k | 0 <= k < |r.value.value| :: r.value.value[k] == New(snaps[k])
  {
    var call := Invoke(s, "virDomainSnapshotListAllChildren", size);
    if call.Crashed? {
      return Crashed([]);
    }
    if size == -1 {
      return Ran(call.calls, s, Err(err));
    }
    var children: seq<Owned> := [];
    var x := 0;
    while x < size
      invariant 0 <= x <= (if size < 0 then 0 else size)
      invariant |children| == x
      invariant forall k | 0 <= k < x :: children[k] == New(snaps[k])
    {
      children := children + [New(snaps[x])];
      x := x + 1;
    }
    return Ran(call.calls, s, Ok(children));
  }
}
