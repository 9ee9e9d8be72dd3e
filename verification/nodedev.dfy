/** `NodeDevice`: unlike the other wrappers it holds the raw pointer itself, with null
    meaning released. `as_ptr` hands the pointer out without checking it, `free` nulls
    it, and `Drop` frees a non-null pointer and ignores the outcome. */
module NodeDevices {
  import opened Base
  import opened CStrings
  import opened Handles

  const FreeEntry := "virNodeDeviceFree"

  /** The public field `d`; `Null` once released. */
  datatype NodeDevice = NodeDevice(d: Handle)

  /** `lookup_by_name` and `create_xml`: the string argument is copied into a C string
      (an interior NUL panics before any native call); a null result is an error,
      anything else is wrapped as it is. */
  function Construct(entry: string, conn: Handle, arg: seq<uint8>, ptr: Handle, err: ErrorValue)
    : (r: Run<(), Result<NodeDevice>>)
    ensures r.Crashed? <==> 0 in arg
    ensures r.Crashed? ==> r.calls == []
    ensures r.Ran? ==> r.calls == [Call(entry, conn, ptr)]
    ensures r.Ran? ==> (r.value.Err? <==> ptr == Null)
    ensures r.Ran? && r.value.Err? ==> r.value.error == err
    ensures r.Ran? && r.value.Ok? ==> r.value.value.d == ptr != Null
  {
    if NewCString(arg).Panicked? then Crashed([])
    else Ran([Call(entry, conn, ptr)], (), if ptr == Null then Err(err) else Ok(NodeDevice(ptr)))
  }

  function LookupByName(conn: Handle, id: seq<uint8>, ptr: Handle, err: ErrorValue): (r: Run<(), Result<NodeDevice>>)
    ensures r.Crashed? <==> 0 in id
    ensures r.Ran? ==> r.calls == [Call("virNodeDeviceLookupByName", conn, ptr)]
    ensures r.Ran? ==> (r.value.Err? <==> ptr == Null) && (r.value.Ok? ==> r.value.value == NodeDevice(ptr))
  {
    Construct("virNodeDeviceLookupByName", conn, id, ptr, err)
  }

  function CreateXml(conn: Handle, xml: seq<uint8>, ptr: Handle, err: ErrorValue): (r: Run<(), Result<NodeDevice>>)
    ensures r.Crashed? <==> 0 in xml
    ensures r.Ran? ==> r.calls == [Call("virNodeDeviceCreateXML", conn, ptr)]
    ensures r.Ran? ==> (r.value.Err? <==> ptr == Null) && (r.value.Ok? ==> r.value.value == NodeDevice(ptr))
  {
    Construct("virNodeDeviceCreateXML", conn, xml, ptr, err)
  }

  /** `free`: the pointer is passed as it is, null included; on success it is nulled,
      on -1 the error is returned and the device is unchanged. It never panics. */
  function Free(n: NodeDevice, ret: int, err: ErrorValue): (r: Run<NodeDevice, Result<()>>)
    ensures r.Ran? && r.calls == [Call(FreeEntry, n.d, ret)]
    ensures r.value.Err? <==> ret == -1
    ensures r.value.Err? ==> r.state == n && r.value.error == err
    ensures r.value.Ok? ==> r.state.d == Null
  {
    Ran([Call(FreeEntry, n.d, ret)], if ret == -1 then n else NodeDevice(Null), if ret == -1 then Err(err) else Ok(()))
  }

  /** `Drop`: frees a non-null pointer and discards the result. It never panics, and
      a failed free leaves the pointer in place. */
  function Drop(n: NodeDevice, ret: int, err: ErrorValue): (r: Run<NodeDevice, ()>)
    ensures r.Ran?
    ensures n.d == Null ==> r.calls == [] && r.state == n
    ensures n.d != Null ==> r.calls == [Call(FreeEntry, n.d, ret)]
    ensures n.d != Null ==> (r.state.d == Null <==> ret != -1)
  {
    if n.d == Null then Ran([], n, ())
    else
      var freed := Free(n, ret, err);
      Ran(freed.calls, freed.state, ())
  }

  /** `num_of_devices`: the pointer is passed unchecked; an interior NUL in `cap` panics
      before the call; -1 is an error, any other count is returned `as u32`. */
  function NumOfDevices(n: NodeDevice, cap: seq<uint8>, ret: int32, err: ErrorValue): (r: Run<NodeDevice, Result<uint32>>)
    ensures r.Crashed? <==> 0 in cap
    ensures r.Crashed? ==> r.calls == []
    ensures r.Ran? ==> r.state == n && r.calls == [Call("virNodeNumOfDevices", n.d, ret)]
    ensures r.Ran? ==> (r.value.Err? <==> ret == -1)
    ensures r.Ran? && ret >= 0 ==> r.value == Ok(ret)
    ensures r.Ran? && r.value.Ok? ==> (r.value.value - ret) % 0x1_0000_0000 == 0
  {
    if NewCString(cap).Panicked? then Crashed([])
    else Ran([Call("virNodeNumOfDevices", n.d, ret)], n, CountStatus(ret, err))
  }

  /** Where the null-pointer discipline differs from the `Option` one: nothing stops a
      released device from reaching the native layer. After a successful `free`, a later
      query and a second `free` both pass the null pointer to the native library, while
      the final `Drop` makes no call; and whatever `free` answered, dropping never panics. */
  lemma {:induction false} ReleasedReachesNative(h: Handle, freeRet: int, cap: seq<uint8>, numRet: int32,
                                                 againRet: int, dropRet: int, err: ErrorValue)
    requires h != Null && freeRet != -1 && 0 !in cap
    ensures var freed := Free(NodeDevice(h), freeRet, err).state;
      && freed.d == Null
      && NumOfDevices(freed, cap, numRet, err).calls == [Call("virNodeNumOfDevices", Null, numRet)]
      && Free(freed, againRet, err).calls == [Call(FreeEntry, Null, againRet)]
      && Drop(freed, dropRet, err) == Ran([], freed, ())
  {
    var freed := Free(NodeDevice(h), freeRet, err).state;
    assert freed == NodeDevice(Null);
    assert NewCString(cap).Returned?;
  }
}
