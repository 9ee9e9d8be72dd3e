/** The ownership discipline shared by the wrappers that hold `ptr: Option<virXxxPtr>`
    (Domain, StorageVol, DomainSnapshot, and the handle half of Stream): the wrapper owns
    its native object while `ptr` is `Some`, `free` releases it, `Drop` releases it if it
    is still owned, and `as_ptr` refuses (panics) once it is released.

    Every native entry point is an oracle: the model is handed the value it returned, and
    records the call it made, so statements about which native calls happen (and on which
    handle) can be proved about the binding alone. */
module Handles {
  import opened Base

  /** A native object pointer; 0 is the null pointer. */
  type Handle = uint64
  const Null: Handle := 0

  /** A native call the binding made: the entry point, the object handle passed to it,
      and the integer it returned (a returned pointer is given by its address). */
  datatype Call = Call(entry: string, handle: Handle, ret: int)

  /** How a Rust call ended: it returned the wrapper's new state and its result, or it
      panicked. `calls` are the native calls made before either. */
  datatype Run<+S, +T> = Ran(calls: seq<Call>, state: S, value: T) | Crashed(calls: seq<Call>)

  /** `Run` of the calls `cs` followed by `r`. */
  function After<S, T>(cs: seq<Call>, r: Run<S, T>): (q: Run<S, T>)
    ensures q.calls == cs + r.calls
    ensures q.Ran? <==> r.Ran?
    ensures q.Ran? ==> q.state == r.state && q.value == r.value
  {
    match r
    case Ran(calls, state, value) => Ran(cs + calls, state, value)
    case Crashed(calls) => Crashed(cs + calls)
  }

  /** The wrapper's handle field: `Some` while it owns its native object. */
  datatype Owned = Owned(ptr: Option<Handle>)

  /** `as_ptr`: `self.ptr.unwrap()`. */
  function AsPtr(o: Owned): (r: Outcome<Handle>)
    ensures r.Panicked? <==> o.ptr.None?
    ensures r.Returned? ==> o.ptr == Some(r.value)
  {
    match o.ptr
    case None => Panicked
    case Some(h) => Returned(h)
  }

  /** `new(ptr)`: the wrapper owns `h`, and `as_ptr` hands `h` back. */
  function New(h: Handle): (o: Owned)
    ensures AsPtr(o) == Returned(h)
  {
    Owned(Some(h))
  }

  /** A `&self` method that passes its handle to one native entry point: `as_ptr` first,
      so a released wrapper panics before any native call. The wrapper is unchanged. */
  function Invoke(o: Owned, entry: string, ret: int): (r: Run<Owned, int>)
    ensures r.Crashed? <==> o.ptr.None?
    ensures r.Crashed? ==> r.calls == []
    ensures r.Ran? ==> r.state == o && r.value == ret && r.calls == [Call(entry, o.ptr.value, ret)]
  {
    match AsPtr(o)
    case Panicked => Crashed([])
    case Returned(h) => Ran([Call(entry, h, ret)], o, ret)
  }

  /** `free(&mut self)`: on native success the handle is cleared and `Ok` returned; on
      -1 the error is returned and the handle kept. */
  function Free(o: Owned, entry: string, ret: int, err: ErrorValue): (r: Run<Owned, Result<()>>)
    ensures r.Crashed? <==> o.ptr.None?
    ensures r.Crashed? ==> r.calls == []
    ensures r.Ran? ==> r.calls == [Call(entry, o.ptr.value, ret)]
    ensures r.Ran? ==> (r.value.Err? <==> ret == -1)
    ensures r.Ran? && r.value.Err? ==> r.state == o && r.value.error == err
    ensures r.Ran? && r.value.Ok? ==> r.state.ptr.None?
  {
    match Invoke(o, entry, ret)
    case Crashed(calls) => Crashed(calls)
    case Ran(calls, _, _) =>
      if ret == -1 then Ran(calls, o, Err(err)) else Ran(calls, Owned(None), Ok(()))
  }

  /** `Drop`: frees only a handle still owned, and panics if that free fails. */
  function Drop(o: Owned, entry: string, ret: int, err: ErrorValue): (r: Run<Owned, ()>)
    ensures o.ptr.None? ==> r == Ran([], o, ())
    ensures o.ptr.Some? ==> r.calls == [Call(entry, o.ptr.value, ret)]
    ensures o.ptr.Some? ==> (r.Crashed? <==> ret == -1)
    ensures r.Ran? ==> r.state.ptr.None?
  {
    if o.ptr.None? then Ran([], o, ())
    else match Free(o, entry, ret, err)
      case Crashed(calls) => Crashed(calls)
      case Ran(calls, s, res) => if res.Err? then Crashed(calls) else Ran(calls, s, ())
  }

  // ---------------------------------------------------------------------------
  // Sentinel conventions of the native library

  /** A tri-state answer: -1 is an error, 1 is true, anything else is false. */
  function BoolStatus(ret: int, err: ErrorValue): (r: Result<bool>)
    ensures r.Err? <==> ret == -1
    ensures r.Err? ==> r.error == err
    ensures r.Ok? ==> (r.value <==> ret == 1)
  {
    if ret == -1 then Err(err) else Ok(ret == 1)
  }

  /** A count: -1 is an error, anything else is converted with `ret as u32`. */
  function CountStatus(ret: int, err: ErrorValue): (r: Result<uint32>)
    ensures r.Err? <==> ret == -1
    ensures r.Err? ==> r.error == err
    ensures r.Ok? ==> (r.value - ret) % 0x1_0000_0000 == 0
  {
    if ret == -1 then Err(err) else Ok(AsUInt32(ret))
  }

  /** A returned object pointer: null is an error, anything else becomes a new wrapper. */
  function PtrStatus(ptr: Handle, err: ErrorValue): (r: Result<Owned>)
    ensures r.Err? <==> ptr == Null
    ensures r.Err? ==> r.error == err
    ensures r.Ok? ==> AsPtr(r.value) == Returned(ptr)
  {
    if ptr == Null then Err(err) else Ok(New(ptr))
  }

  /** The conversions lose nothing on the values the native library reports: a count
      in 0..2^31 comes back unchanged, and a non-null pointer comes back as the wrapper's
      handle. */
  lemma StatusesFaithful(ret: int, ptr: Handle, err: ErrorValue)
    requires 0 <= ret < 0x8000_0000
    ensures CountStatus(ret, err) == Ok(ret)
    ensures ptr != Null ==> PtrStatus(ptr, err) == Ok(New(ptr))
  {
  }

  // ---------------------------------------------------------------------------
  // A wrapper's whole life

  /** What a caller does with a wrapper between creating and dropping it: call a
      method that forwards the handle, or call `free`. */
  datatype Action = Use(entry: string, ret: int) | Release(ret: int)

  /** One action on the wrapper, its result discarded. */
  function Act(o: Owned, act: Action, freeEntry: string, err: ErrorValue): (r: Run<Owned, ()>)
    ensures r.Crashed? <==> o.ptr.None?
    ensures r.Crashed? ==> r.calls == []
    ensures r.Ran? && act.Use? ==> r.state == o && r.calls == [Call(act.entry, o.ptr.value, act.ret)]
    ensures r.Ran? && act.Release? ==> r.calls == [Call(freeEntry, o.ptr.value, act.ret)]
    ensures r.Ran? && act.Release? ==> if act.ret == -1 then r.state == o else r.state.ptr.None?
  {
    match act
    case Use(entry, ret) =>
      (match Invoke(o, entry, ret)
       case Crashed(calls) => Crashed(calls)
       case Ran(calls, s, _) => Ran(calls, s, ()))
    case Release(ret) =>
      (match Free(o, freeEntry, ret, err)
       case Crashed(calls) => Crashed(calls)
       case Ran(calls, s, _) => Ran(calls, s, ()))
  }

  /** A wrapper's life: the actions in order, then `Drop` at the end of its scope. A
      panic ends the life; unwinding then drops the wrapper, which at that point is
      always released and so makes no further call. */
  function Life(o: Owned, acts: seq<Action>, freeEntry: string, dropRet: int, err: ErrorValue): (r: Run<Owned, ()>)
    decreases |acts|
  {
    if acts == [] then Drop(o, freeEntry, dropRet, err)
    else match Act(o, acts[0], freeEntry, err)
      case Crashed(calls) => Crashed(calls)
      case Ran(calls, s, _) => After(calls, Life(s, acts[1..], freeEntry, dropRet, err))
  }

  /** A call that releases the native object: the free entry point, not failing. */
  predicate Releases(c: Call, freeEntry: string) {
    c.entry == freeEntry && c.ret != -1
  }

  predicate UsesOnlyOther(acts: seq<Action>, freeEntry: string) {
    forall k | 0 <= k < |acts| :: acts[k].Use? ==> acts[k].entry != freeEntry
  }

  /** The ownership discipline over a whole life, whatever the native layer answers:
      every native call is made on the wrapper's own handle; the native object is
      released at most once, and that release is the last native call (nothing reaches
      the native layer through a released wrapper); and a life that ends without a
      panic has released it. */
  lemma {:induction false} LifeDiscipline(h: Handle, acts: seq<Action>, freeEntry: string, dropRet: int,
                                          err: ErrorValue)
    requires UsesOnlyOther(acts, freeEntry)
    ensures var r := Life(New(h), acts, freeEntry, dropRet, err);
      && (forall k | 0 <= k < |r.calls| :: r.calls[k].handle == h)
      && (forall k | 0 <= k < |r.calls| && Releases(r.calls[k], freeEntry) :: k == |r.calls| - 1)
      && (r.Ran? ==> |r.calls| > 0 && Releases(r.calls[|r.calls| - 1], freeEntry) && r.state.ptr.None?)
  {
    LifeFrom(New(h), h, acts, freeEntry, dropRet, err);
  }

  lemma {:induction false} LifeFrom(o: Owned, h: Handle, acts: seq<Action>, freeEntry: string, dropRet: int,
                                    err: ErrorValue)
    requires o.ptr == Some(h) || o.ptr == None
    requires UsesOnlyOther(acts, freeEntry)
    ensures var r := Life(o, acts, freeEntry, dropRet, err);
      && (forall k | 0 <= k < |r.calls| :: r.calls[k].handle == h)
      && (forall k | 0 <= k < |r.calls| && Releases(r.calls[k], freeEntry) :: k == |r.calls| - 1)
      && (o.ptr.None? ==> r.calls == [])
      && (r.Ran? ==> r.state.ptr.None?)
      && (r.Ran? && o.ptr.Some? ==> |r.calls| > 0 && Releases(r.calls[|r.calls| - 1], freeEntry))
    decreases |acts|
  {
    if acts != [] {
      var rest := Life(o, acts, freeEntry, dropRet, err);
      match acts[0]
      case Use(entry, ret) =>
        if o.ptr.Some? {
          LifeFrom(o, h, acts[1..], freeEntry, dropRet, err);
          var tail := Life(o, acts[1..], freeEntry, dropRet, err);
          assert rest.calls == [Call(entry, h, ret)] + tail.calls;
          assert !Releases(Call(entry, h, ret), freeEntry);
          if tail.calls == [] {
            assert !rest.Ran?;
          }
        }
      case Release(ret) =>
        if o.ptr.Some? {
          var s := Free(o, freeEntry, ret, err).state;
          LifeFrom(s, h, acts[1..], freeEntry, dropRet, err);
          var tail := Life(s, acts[1..], freeEntry, dropRet, err);
          assert rest.calls == [Call(freeEntry, h, ret)] + tail.calls;
          if ret != -1 {
            assert tail.calls == [];
          } else if tail.calls == [] {
            assert !rest.Ran?;
          }
        }
    }
  }
}
