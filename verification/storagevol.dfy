/** `StorageVol`: the shared ownership discipline with `virStorageVolFree`, the
    constructors and lookups that wrap a native pointer, and the info copy. */
module StorageVols {
  import opened Base
  import opened CStrings
  import opened Handles

  const FreeEntry := "virStorageVolFree"

  /** `new`: the wrapper owns `h`, and `as_ptr` hands it back. */
  function New(h: Handle): (v: Owned)
    ensures AsPtr(v) == Returned(h)
  {
    Handles.New(h)
  }

  /** `free`: on native success the handle is released, so a later `as_ptr` panics; on
      -1 the error is returned and the wrapper is unchanged. A released wrapper panics. */
  function Free(v: Owned, ret: int, err: ErrorValue): (r: Run<Owned, Result<()>>)
    ensures r.Crashed? <==> v.ptr.None?
    ensures r.Crashed? ==> r.calls == []
    ensures r.Ran? ==> r.calls == [Call(FreeEntry, v.ptr.value, ret)]
    ensures r.Ran? ==> (r.value.Err? <==> ret == -1)
    ensures r.Ran? && r.value.Err? ==> r.value.error == err
    ensures r.Ran? && ret == -1 ==> r.state == v
    ensures r.Ran? && ret != -1 ==> AsPtr(r.state).Panicked?
  {
    Handles.Free(v, FreeEntry, ret, err)
  }

  /** `Drop`: frees a handle still owned and panics if that fails; a released wrapper
      makes no call. */
  function Drop(v: Owned, ret: int, err: ErrorValue): (r: Run<Owned, ()>)
    ensures v.ptr.None? ==> r == Ran([], v, ())
    ensures v.ptr.Some? ==> r.calls == [Call(FreeEntry, v.ptr.value, ret)]
    ensures v.ptr.Some? ==> (r.Crashed? <==> ret == -1)
    ensures r.Ran? ==> AsPtr(r.state).Panicked?
  {
    Handles.Drop(v, FreeEntry, ret, err)
  }

  /** A constructor or lookup: the string argument is copied into a C string first
      (`CString::new(..).unwrap()` panics on an interior NUL), then the native entry
      point runs on the pool's or connection's handle, and a null result is an error. */
  function Construct(entry: string, parent: Handle, arg: seq<uint8>, ptr: Handle, err: ErrorValue)
    : (r: Run<(), Result<Owned>>)
    ensures r.Crashed? <==> 0 in arg
    ensures r.Crashed? ==> r.calls == []
    ensures r.Ran? ==> r.calls == [Call(entry, parent, ptr)]
    ensures r.Ran? ==> (r.value.Err? <==> ptr == Null)
    ensures r.Ran? && r.value.Ok? ==> AsPtr(r.value.value) == Returned(ptr)
  {
    match NewCString(arg)
    case Panicked => Crashed([])
    case Returned(_) => Ran([Call(entry, parent, ptr)], (), PtrStatus(ptr, err))
  }

  function CreateXml(pool: Handle, xml: seq<uint8>, ptr: Handle, err: ErrorValue): (r: Run<(), Result<Owned>>)
    ensures r.Crashed? <==> 0 in xml
    ensures r.Ran? ==> r.calls == [Call("virStorageVolCreateXML", pool, ptr)] && (r.value.Err? <==> ptr == Null)
    ensures r.Ran? && r.value.Ok? ==> r.value.value == New(ptr)
  {
    Construct("virStorageVolCreateXML", pool, xml, ptr, err)
  }

  function LookupByName(pool: Handle, name: seq<uint8>, ptr: Handle, err: ErrorValue): (r: Run<(), Result<Owned>>)
    ensures r.Crashed? <==> 0 in name
    ensures r.Ran? ==> r.calls == [Call("virStorageVolLookupByName", pool, ptr)] && (r.value.Err? <==> ptr == Null)
    ensures r.Ran? && r.value.Ok? ==> r.value.value == New(ptr)
  {
    Construct("virStorageVolLookupByName", pool, name, ptr, err)
  }

  function LookupByKey(conn: Handle, key: seq<uint8>, ptr: Handle, err: ErrorValue): (r: Run<(), Result<Owned>>)
    ensures r.Crashed? <==> 0 in key
    ensures r.Ran? ==> r.calls == [Call("virStorageVolLookupByKey", conn, ptr)] && (r.value.Err? <==> ptr == Null)
    ensures r.Ran? && r.value.Ok? ==> r.value.value == New(ptr)
  {
    Construct("virStorageVolLookupByKey", conn, key, ptr, err)
  }

  function LookupByPath(conn: Handle, path: seq<uint8>, ptr: Handle, err: ErrorValue): (r: Run<(), Result<Owned>>)
    ensures r.Crashed? <==> 0 in path
    ensures r.Ran? ==> r.calls == [Call("virStorageVolLookupByPath", conn, ptr)] && (r.value.Err? <==> ptr == Null)
    ensures r.Ran? && r.value.Ok? ==> r.value.value == New(ptr)
  {
    Construct("virStorageVolLookupByPath", conn, path, ptr, err)
  }

  /** `create_xml_from`: as `create_xml`, but the source volume's handle is taken with
      `as_ptr`, so a released source volume panics before the native call. The source
      volume keeps its handle. */
  function CreateXmlFrom(pool: Handle, xml: seq<uint8>, vol: Owned, ptr: Handle, err: ErrorValue)
    : (r: Run<(), Result<Owned>>)
    ensures r.Crashed? <==> 0 in xml || vol.ptr.None?
    ensures r.Crashed? ==> r.calls == []
    ensures r.Ran? ==> r.calls == [Call("virStorageVolCreateXMLFrom", pool, ptr)]
    ensures r.Ran? ==> (r.value.Err? <==> ptr == Null)
    ensures r.Ran? && r.value.Ok? ==> r.value.value == New(ptr)
  {
    match NewCString(xml)
    case Panicked => Crashed([])
    case Returned(_) =>
      match AsPtr(vol)
      case Panicked => Crashed([])
      case Returned(_) => Ran([Call("virStorageVolCreateXMLFrom", pool, ptr)], (), PtrStatus(ptr, err))
  }

  /** The native `virStorageVolInfo`: the type is a C `int`. */
  datatype NativeInfo = NativeInfo(kind: int32, capacity: uint64, allocation: uint64)

  datatype StorageVolInfo = StorageVolInfo(kind: uint32, capacity: uint64, allocation: uint64)

  /** `StorageVolInfo::from_ptr`: the sizes are copied, the type converted with
      `as u32`. */
  function InfoFromPtr(n: NativeInfo): (i: StorageVolInfo)
    ensures i.capacity == n.capacity && i.allocation == n.allocation
    ensures (i.kind - n.kind) % 0x1_0000_0000 == 0
  {
    StorageVolInfo(AsUInt32(n.kind), n.capacity, n.allocation)
  }

  /** Nothing is lost: a non-negative type (every type the native library defines)
      comes back unchanged, and any type, negative ones included, can be recovered. */
  lemma InfoFromPtrFaithful(n: NativeInfo)
    ensures n.kind >= 0 ==> InfoFromPtr(n) == StorageVolInfo(n.kind, n.capacity, n.allocation)
    ensures var i := InfoFromPtr(n); NativeInfo(AsInt32(i.kind), i.capacity, i.allocation) == n
  {
  }
}
