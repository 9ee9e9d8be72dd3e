/** `Stream`: a handle owned like the other wrappers, plus the event callback it keeps
    after registering it with the native library. Its `Drop` frees the handle first and
    removes the callback second, and the removal goes through `as_ptr`. */
module Streams {
  import opened Base
  import opened Handles

  const FreeEntry := "virStreamFree"
  const RemoveEntry := "virStreamEventRemoveCallback"

  /** `callback` says whether a callback is stored; the closure itself is foreign code. */
  datatype Stream = Stream(owned: Owned, callback: bool)

  /** `from_ptr`: the handle is owned and no callback is stored. */
  function FromPtr(h: Handle): (s: Stream)
    ensures AsPtr(s.owned) == Returned(h) && !s.callback
  {
    Stream(New(h), false)
  }

  /** `Stream::new`: `virStreamNew` on the connection; null is an error. */
  function StreamNew(conn: Handle, ptr: Handle, err: ErrorValue): (r: Run<(), Result<Stream>>)
    ensures r.Ran? && r.calls == [Call("virStreamNew", conn, ptr)]
    ensures r.value.Err? <==> ptr == Null
    ensures r.value.Ok? ==> r.value.value == FromPtr(ptr)
  {
    Ran([Call("virStreamNew", conn, ptr)], (), if ptr == Null then Err(err) else Ok(FromPtr(ptr)))
  }

  /** `free`: the shared release; the stored callback is not touched. */
  function Free(s: Stream, ret: int, err: ErrorValue): (r: Run<Stream, Result<()>>)
    ensures r.Crashed? <==> s.owned.ptr.None?
    ensures r.Crashed? ==> r.calls == []
    ensures r.Ran? ==> r.calls == [Call(FreeEntry, s.owned.ptr.value, ret)] && r.state.callback == s.callback
    ensures r.Ran? ==> (r.value.Err? <==> ret == -1)
    ensures r.Ran? && r.value.Err? ==> r.value.error == err
    ensures r.Ran? ==> if ret == -1 then r.state == s else r.state.owned.ptr.None?
  {
    match Handles.Free(s.owned, FreeEntry, ret, err)
    case Crashed(calls) => Crashed(calls)
    case Ran(calls, o, res) => Ran(calls, s.(owned := o), res)
  }

  /** `event_remove_callback`: forwards the handle; the stored callback is kept. */
  function EventRemoveCallback(s: Stream, ret: int, err: ErrorValue): (r: Run<Stream, Result<()>>)
    ensures r.Crashed? <==> s.owned.ptr.None?
    ensures r.Crashed? ==> r.calls == []
    ensures r.Ran? ==> r.state == s && r.calls == [Call(RemoveEntry, s.owned.ptr.value, ret)]
    ensures r.Ran? ==> (r.value.Err? <==> ret == -1)
  {
    match Invoke(s.owned, RemoveEntry, ret)
    case Crashed(calls) => Crashed(calls)
    case Ran(calls, _, _) => Ran(calls, s, if ret == -1 then Err(err) else Ok(()))
  }

  /** `Drop` as written: free an owned handle (panicking if that fails), then, if a
      callback is stored, remove it (panicking if that fails). */
  function Drop(s: Stream, freeRet: int, removeRet: int, err: ErrorValue): (r: Run<Stream, ()>)
    ensures r.calls == if s.owned.ptr.Some? then [Call(FreeEntry, s.owned.ptr.value, freeRet)] else []
    ensures s.owned.ptr.None? && !s.callback ==> r == Ran([], s, ())
    ensures r.Ran? ==> r.state.owned.ptr.None?
    ensures !s.callback ==> (r.Crashed? <==> s.owned.ptr.Some? && freeRet == -1)
    ensures s.callback ==> r.Crashed?
  {
    var freed: Run<Stream, ()> :=
      if s.owned.ptr.None? then Ran([], s, ())
      else match Free(s, freeRet, err)
        case Crashed(calls) => Crashed(calls)
        case Ran(calls, t, res) => if res.Err? then Crashed(calls) else Ran(calls, t, ());
    match freed
    case Crashed(calls) => Crashed(calls)
    case Ran(calls, t, _) =>
      if !t.callback then Ran(calls, t, ())
      else match EventRemoveCallback(t, removeRet, err)
        case Crashed(more) => Crashed(calls + more)
        case Ran(more, u, res) => if res.Err? then Crashed(calls + more) else Ran(calls + more, u, ())
  }

  /** With a callback stored, dropping a stream always panics, and never reaches the
      native removal: either the free fails, or it succeeds and empties the handle
      that the removal's `as_ptr` then unwraps. */
  lemma DropWithCallbackPanics(s: Stream, freeRet: int, removeRet: int, err: ErrorValue)
    requires s.callback
    ensures Drop(s, freeRet, removeRet, err).Crashed?
    ensures forall k | 0 <= k < |Drop(s, freeRet, removeRet, err).calls| ::
      Drop(s, freeRet, removeRet, err).calls[k].entry != RemoveEntry
  {
  }

  /** The evident intent of `Drop`: remove a stored callback while the handle is still
      owned, then free the handle. A stream whose handle is already released holds
      nothing to remove or free. */
  function DropCorrected(s: Stream, freeRet: int, removeRet: int, err: ErrorValue): (r: Run<Stream, ()>)
    ensures s.owned.ptr.None? ==> r == Ran([], s, ())
    ensures s.owned.ptr.Some? && s.callback ==>
      && |r.calls| >= 1 && r.calls[0] == Call(RemoveEntry, s.owned.ptr.value, removeRet)
      && (removeRet != -1 ==> r.calls == [Call(RemoveEntry, s.owned.ptr.value, removeRet),
                                          Call(FreeEntry, s.owned.ptr.value, freeRet)])
    ensures s.owned.ptr.Some? && !s.callback ==> r.calls == [Call(FreeEntry, s.owned.ptr.value, freeRet)]
    ensures s.owned.ptr.Some? ==> (r.Crashed? <==> (s.callback && removeRet == -1) || freeRet == -1)
    ensures r.Ran? ==> r.state.owned.ptr.None?
  {
    if s.owned.ptr.None? then Ran([], s, ())
    else
      var removed: Run<Stream, ()> :=
        if !s.callback then Ran([], s, ())
        else match EventRemoveCallback(s, removeRet, err)
          case Crashed(calls) => Crashed(calls)
          case Ran(calls, t, res) => if res.Err? then Crashed(calls) else Ran(calls, t.(callback := false), ());
      match removed
      case Crashed(calls) => Crashed(calls)
      case Ran(calls, t, _) =>
        match Free(t, freeRet, err)
        case Crashed(more) => Crashed(calls + more)
        case Ran(more, u, res) => if res.Err? then Crashed(calls + more) else Ran(calls + more, u, ())
  }

  /** Where the two orders part: with a callback stored and every native call
      succeeding, the corrected drop removes the callback and releases the handle,
      while the drop as written panics. */
  lemma DropOrderMatters(h: Handle, freeRet: int, removeRet: int, err: ErrorValue)
    requires freeRet != -1 && removeRet != -1
    ensures var s := Stream(New(h), true);
      && Drop(s, freeRet, removeRet, err).Crashed?
      && DropCorrected(s, freeRet, removeRet, err).Ran?
      && DropCorrected(s, freeRet, removeRet, err).calls == [Call(RemoveEntry, h, removeRet), Call(FreeEntry, h, freeRet)]
  {
    DropWithCallbackPanics(Stream(New(h), true), freeRet, removeRet, err);
  }

  /** `finish` and `abort`: they take the stream by value, so after the native call the
      stream is dropped, which frees the handle. */
  function Consume(s: Stream, entry: string, ret: int, freeRet: int, removeRet: int, err: ErrorValue)
    : (r: Run<(), Result<()>>)
    ensures s.owned.ptr.None? ==> r.Crashed? && r.calls == []
    ensures s.owned.ptr.Some? ==>
      r.calls == [Call(entry, s.owned.ptr.value, ret), Call(FreeEntry, s.owned.ptr.value, freeRet)]
    ensures r.Ran? ==> (r.value.Err? <==> ret == -1)
    ensures !s.callback && s.owned.ptr.Some? ==> (r.Ran? <==> freeRet != -1)
    ensures s.callback ==> r.Crashed?
  {
    match Invoke(s.owned, entry, ret)
    case Crashed(calls) => Crashed(calls)
    case Ran(calls, _, _) =>
      var res: Result<()> := if ret == -1 then Err(err) else Ok(());
      match Drop(s, freeRet, removeRet, err)
      case Crashed(more) => Crashed(calls + more)
      case Ran(more, _, _) => Ran(calls + more, (), res)
  }

  function Finish(s: Stream, ret: int, freeRet: int, removeRet: int, err: ErrorValue): (r: Run<(), Result<()>>)
    ensures s.owned.ptr.Some? ==>
      r.calls == [Call("virStreamFinish", s.owned.ptr.value, ret), Call(FreeEntry, s.owned.ptr.value, freeRet)]
    ensures s.owned.ptr.None? ==> r == Crashed([])
    ensures r.Ran? ==> (r.value.Err? <==> ret == -1) && (r.value.Err? ==> r.value.error == err)
    ensures s.owned.ptr.Some? && !s.callback ==> (r.Ran? <==> freeRet != -1)
    ensures s.callback ==> r.Crashed?
  {
    Consume(s, "virStreamFinish", ret, freeRet, removeRet, err)
  }

  function Abort(s: Stream, ret: int, freeRet: int, removeRet: int, err: ErrorValue): (r: Run<(), Result<()>>)
    ensures s.owned.ptr.Some? ==>
      r.calls == [Call("virStreamAbort", s.owned.ptr.value, ret), Call(FreeEntry, s.owned.ptr.value, freeRet)]
    ensures s.owned.ptr.None? ==> r == Crashed([])
    ensures r.Ran? ==> (r.value.Err? <==> ret == -1) && (r.value.Err? ==> r.value.error == err)
    ensures s.owned.ptr.Some? && !s.callback ==> (r.Ran? <==> freeRet != -1)
    ensures s.callback ==> r.Crashed?
  {
    Consume(s, "virStreamAbort", ret, freeRet, removeRet, err)
  }

  /** `usize::try_from(ret)` on the native `int` byte count: a negative count is an
      error, any other is the count. */
  function ByteCount(ret: int32, err: ErrorValue): (r: Result<nat>)
    ensures r.Err? <==> ret < 0
    ensures r.Err? ==> r.error == err
    ensures r.Ok? ==> r.value == ret
  {
    if ret < 0 then Err(err) else Ok(ret)
  }

  /** `send`: the native call reports how many bytes it took. */
  function Send(s: Stream, ret: int32, err: ErrorValue): (r: Run<Stream, Result<nat>>)
    ensures r.Crashed? <==> s.owned.ptr.None?
    ensures r.Crashed? ==> r.calls == []
    ensures r.Ran? ==> r.state == s && r.calls == [Call("virStreamSend", s.owned.ptr.value, ret)]
    ensures r.Ran? ==> (r.value.Err? <==> ret < 0) && (r.value.Ok? ==> r.value.value == ret)
  {
    match Invoke(s.owned, "virStreamSend", ret)
    case Crashed(calls) => Crashed(calls)
    case Ran(calls, _, _) => Ran(calls, s, ByteCount(ret, err))
  }

  /** `recv`: as `send`, with `virStreamRecv`. */
  function Recv(s: Stream, ret: int32, err: ErrorValue): (r: Run<Stream, Result<nat>>)
    ensures r.Crashed? <==> s.owned.ptr.None?
    ensures r.Crashed? ==> r.calls == []
    ensures r.Ran? ==> r.state == s && r.calls == [Call("virStreamRecv", s.owned.ptr.value, ret)]
    ensures r.Ran? ==> (r.value.Err? <==> ret < 0) && (r.value.Ok? ==> r.value.value == ret)
  {
    match Invoke(s.owned, "virStreamRecv", ret)
    case Crashed(calls) => Crashed(calls)
    case Ran(calls, _, _) => Ran(calls, s, ByteCount(ret, err))
  }

  /** `event_add_callback`: the callback is stored only once the native registration
      has succeeded; on failure the stream is unchanged. */
  function EventAddCallback(s: Stream, ret: int, err: ErrorValue): (r: Run<Stream, Result<()>>)
    ensures r.Crashed? <==> s.owned.ptr.None?
    ensures r.Crashed? ==> r.calls == []
    ensures r.Ran? ==> r.calls == [Call("virStreamEventAddCallback", s.owned.ptr.value, ret)]
    ensures r.Ran? ==> r.state.owned == s.owned
    ensures r.Ran? ==> (r.value.Err? <==> ret == -1)
    ensures r.Ran? ==> r.state.callback == (s.callback || ret != -1)
  {
    match Invoke(s.owned, "virStreamEventAddCallback", ret)
    case Crashed(calls) => Crashed(calls)
    case Ran(calls, _, _) => if ret == -1 then Ran(calls, s, Err(err)) else Ran(calls, s.(callback := true), Ok(()))
  }

  /** `event_update_callback`: a plain status call. */
  function EventUpdateCallback(s: Stream, ret: int, err: ErrorValue): (r: Run<Stream, Result<()>>)
    ensures r.Crashed? <==> s.owned.ptr.None?
    ensures r.Crashed? ==> r.calls == []
    ensures r.Ran? ==> r.state == s && r.calls == [Call("virStreamEventUpdateCallback", s.owned.ptr.value, ret)]
    ensures r.Ran? ==> (r.value.Err? <==> ret == -1)
  {
    match Invoke(s.owned, "virStreamEventUpdateCallback", ret)
    case Crashed(calls) => Crashed(calls)
    case Ran(calls, _, _) => Ran(calls, s, if ret == -1 then Err(err) else Ok(()))
  }

  /** Registering a callback successfully dooms the stream's drop: even a later
      explicit removal keeps the callback stored. */
  lemma CallbackSticks(h: Handle, addRet: int, removeRet: int, freeRet: int, dropRemoveRet: int, err: ErrorValue)
    requires addRet != -1
    ensures var added := EventAddCallback(FromPtr(h), addRet, err);
      && added.Ran? && added.state.callback
      && var removed := EventRemoveCallback(added.state, removeRet, err);
      && removed.Ran? && removed.state.callback
      && Drop(removed.state, freeRet, dropRemoveRet, err).Crashed?
  {
    var added := EventAddCallback(FromPtr(h), addRet, err);
    var removed := EventRemoveCallback(added.state, removeRet, err);
    DropWithCallbackPanics(removed.state, freeRet, dropRemoveRet, err);
  }
}
