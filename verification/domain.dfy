/** The local logic of `Domain`: the sentinel conversions of its queries, the block-info
    copy, and the hand-written typed-parameter encoders and decoders for the memory and
    NUMA tunables. Its lifecycle (`new`, `as_ptr`, `free`, `Drop`) is the shared one of
    module `Handles`, with `virDomainFree` as the release entry point.

    This file is written against an older record layout in which the value is a single
    64-bit word rather than a union. The model keeps the `Record` type: a number stored
    in the word sits in the `UL` slot, a string pointer in the `S` slot, and the casts
    `value as u64`, `value as c_int` and `value as *mut c_char` read those slots. */
module Domains {
  import opened Base
  import opened CStrings
  import opened TypedParam
  import TypedParams
  import opened Handles

  const FreeEntry := "virDomainFree"

  /** `get_id`: the native `unsigned int` result is compared with -1 after `as i32`, so
      exactly the all-ones value means "no id". */
  function GetId(d: Owned, ret: uint32): (r: Run<Owned, Option<uint32>>)
    ensures r.Crashed? <==> d.ptr.None?
    ensures r.Crashed? ==> r.calls == []
    ensures r.Ran? ==> r.state == d && r.calls == [Call("virDomainGetID", d.ptr.value, ret)]
    ensures r.Ran? ==> (r.value.None? <==> ret == 0xFFFF_FFFF)
    ensures r.Ran? && r.value.Some? ==> r.value.value == ret
  {
    match Invoke(d, "virDomainGetID", ret)
    case Crashed(calls) => Crashed(calls)
    case Ran(calls, s, _) => Ran(calls, s, if AsInt32(ret) == -1 then None else Some(ret))
  }

  /** `is_active`: -1 is an error, 1 is true, anything else false. */
  function IsActive(d: Owned, ret: int32, err: ErrorValue): (r: Run<Owned, Result<bool>>)
    ensures r.Crashed? <==> d.ptr.None?
    ensures r.Crashed? ==> r.calls == []
    ensures r.Ran? ==> r.state == d && r.calls == [Call("virDomainIsActive", d.ptr.value, ret)]
    ensures r.Ran? ==> (r.value.Err? <==> ret == -1) && (r.value.Ok? ==> (r.value.value <==> ret == 1))
  {
    match Invoke(d, "virDomainIsActive", ret)
    case Crashed(calls) => Crashed(calls)
    case Ran(calls, s, _) => Ran(calls, s, BoolStatus(ret, err))
  }

  /** `get_max_memory`: the native `unsigned long` result 0 is the error sentinel. */
  function GetMaxMemory(d: Owned, ret: uint64, err: ErrorValue): (r: Run<Owned, Result<uint64>>)
    ensures r.Crashed? <==> d.ptr.None?
    ensures r.Crashed? ==> r.calls == []
    ensures r.Ran? ==> r.state == d && r.calls == [Call("virDomainGetMaxMemory", d.ptr.value, ret)]
    ensures r.Ran? ==> (r.value.Err? <==> ret == 0) && (r.value.Ok? ==> r.value.value == ret)
  {
    match Invoke(d, "virDomainGetMaxMemory", ret)
    case Crashed(calls) => Crashed(calls)
    case Ran(calls, s, _) => Ran(calls, s, if ret == 0 then Err(err) else Ok(ret))
  }

  // ---------------------------------------------------------------------------
  // Block information

  /** The native `virDomainBlockInfo`. */
  datatype NativeBlockInfo = NativeBlockInfo(capacity: uint64, allocation: uint64, physical: uint64)

  datatype BlockInfo = BlockInfo(capacity: uint64, allocation: uint64, physical: uint64)

  /** `BlockInfo::from_ptr` as written: the native capacity is copied into all three
      fields. */
  function BlockInfoFromPtrAsWritten(n: NativeBlockInfo): (b: BlockInfo)
    ensures b.capacity == n.capacity
    ensures b.allocation == b.capacity && b.physical == b.capacity
  {
    BlockInfo(n.capacity, n.capacity, n.capacity)
  }

  /** The evident intent: each field copied from its native namesake. */
  function BlockInfoFromPtr(n: NativeBlockInfo): (b: BlockInfo)
    ensures b.capacity == n.capacity && b.allocation == n.allocation && b.physical == n.physical
  {
    BlockInfo(n.capacity, n.allocation, n.physical)
  }

  /** The copy as written loses the allocation and physical sizes: the two native
      records below differ but read back alike, and neither agrees with the intended
      copy on the second one. */
  lemma BlockInfoLosesFields()
    ensures var a := NativeBlockInfo(1, 2, 3);
            var b := NativeBlockInfo(1, 5, 7);
            && BlockInfoFromPtrAsWritten(a) == BlockInfoFromPtrAsWritten(b)
            && BlockInfoFromPtrAsWritten(a) != BlockInfoFromPtr(a)
            && BlockInfoFromPtr(a) != BlockInfoFromPtr(b)
  {
  }

  /** The intended copy loses nothing: it is a bijection between the two layouts. */
  lemma BlockInfoFromPtrInjective(a: NativeBlockInfo, b: NativeBlockInfo)
    ensures BlockInfoFromPtr(a) == BlockInfoFromPtr(b) <==> a == b
  {
  }

  // ---------------------------------------------------------------------------
  // Shared pieces of the hand-written encoders and decoders

  /** A record of this file: the name is written as a literal with its own NUL
      (`to_arr("hard_limit\0")`), padded with zeros to 80 bytes. */
  function NamedRecord(name: seq<uint8>, typed: int32, value: Value): (r: Record)
    requires |name| < FieldLength && 0 !in name
    ensures UntilNul(r.field) == name && r.typed == typed && r.value == value
  {
    var field := TypedParams.ToArr(name + [0]);
    assert field == TypedParams.ToArr(name);
    TypedParams.NameRoundTrip(name);
    Record(field, typed, value)
  }

  /** The index of the last record carrying `name`, if any: the record whose value a
      decoding loop that overwrites on every match ends up keeping. */
  function Last(vec: seq<Record>, name: seq<uint8>): (r: Option<nat>)
    ensures r.None? <==> forall k | 0 <= k < |vec| :: UntilNul(vec[k].field) != name
    ensures r.Some? ==> r.value < |vec| && UntilNul(vec[r.value].field) == name
    ensures r.Some? ==> forall j | r.value < j < |vec| :: UntilNul(vec[j].field) != name
    decreases |vec|
  {
    if vec == [] then None
    else if UntilNul(vec[|vec| - 1].field) == name then Some(|vec| - 1)
    else
      var init := vec[..|vec| - 1];
      assert forall k | 0 <= k < |init| :: init[k] == vec[k];
      Last(init, name)
  }

  /** `vec![virTypedParameter::default(); n]` after the native library has written
      `written` over its first records. */
  function Buffer(n: nat, written: seq<Record>): (r: seq<Record>)
    ensures |r| == n
    ensures forall k | 0 <= k < n :: r[k] == if k < |written| then written[k] else Default()
  {
    seq(n, k requires 0 <= k < n => if k < |written| then written[k] else Default())
  }

  // ---------------------------------------------------------------------------
  // Memory tunables

  datatype MemoryField = HardLimit | SoftLimit | MinGuarantee | SwapHardLimit

  /** The position in which the setter emits a field. */
  function MemoryRank(f: MemoryField): nat {
    match f
    case HardLimit => 0
    case SoftLimit => 1
    case MinGuarantee => 2
    case SwapHardLimit => 3
  }

  function MemoryName(f: MemoryField): (n: seq<uint8>)
    ensures 0 < |n| < FieldLength && 0 !in n
  {
    match f
    case HardLimit => [104, 97, 114, 100, 95, 108, 105, 109, 105, 116]                      // "hard_limit"
    case SoftLimit => [115, 111, 102, 116, 95, 108, 105, 109, 105, 116]                     // "soft_limit"
    case MinGuarantee => [109, 105, 110, 95, 103, 117, 97, 114, 97, 110, 116, 101, 101]     // "min_guarantee"
    case SwapHardLimit => [115, 119, 97, 112, 95, 104, 97, 114, 100, 95, 108, 105, 109, 105, 116]  // "swap_hard_limit"
  }

  /** The four names are distinct. */
  lemma MemoryNamesDistinct(f: MemoryField, g: MemoryField)
    ensures MemoryName(f) == MemoryName(g) <==> f == g
  {
    if f != g {
      // Length and first byte tell them apart.
      assert (|MemoryName(f)|, MemoryName(f)[0]) != (|MemoryName(g)|, MemoryName(g)[0]);
    }
  }

  datatype MemoryParameters = MemoryParameters(
    hardLimit: Option<uint64>,
    softLimit: Option<uint64>,
    minGuarantee: Option<uint64>,
    swapHardLimit: Option<uint64>)

  function MemoryGet(p: MemoryParameters, f: MemoryField): Option<uint64> {
    match f
    case HardLimit => p.hardLimit
    case SoftLimit => p.softLimit
    case MinGuarantee => p.minGuarantee
    case SwapHardLimit => p.swapHardLimit
  }

  /** Parameter sets that agree on every field are equal. */
  lemma MemoryExtensional(p: MemoryParameters, q: MemoryParameters)
    requires forall f :: MemoryGet(p, f) == MemoryGet(q, f)
    ensures p == q
  {
    assert MemoryGet(p, HardLimit) == MemoryGet(q, HardLimit);
    assert MemoryGet(p, SoftLimit) == MemoryGet(q, SoftLimit);
    assert MemoryGet(p, MinGuarantee) == MemoryGet(q, MinGuarantee);
    assert MemoryGet(p, SwapHardLimit) == MemoryGet(q, SwapHardLimit);
  }

  /** `MemoryParameters::new()`: nothing set. */
  function MemoryParametersNew(): (p: MemoryParameters)
    ensures forall f :: MemoryGet(p, f).None?
  {
    MemoryParameters(None, None, None, None)
  }

  /** The set fields in the order the setter emits them. */
  function MemorySetFields(p: MemoryParameters): (fs: seq<MemoryField>)
    ensures forall f :: f in fs <==> MemoryGet(p, f).Some?
    ensures forall i, j | 0 <= i < j < |fs| :: MemoryRank(fs[i]) < MemoryRank(fs[j])
  {
    (if p.hardLimit.Some? then [HardLimit] else []) +
    (if p.softLimit.Some? then [SoftLimit] else []) +
    (if p.minGuarantee.Some? then [MinGuarantee] else []) +
    (if p.swapHardLimit.Some? then [SwapHardLimit] else [])
  }

  function MemoryRecord(f: MemoryField, v: uint64): (r: Record)
    ensures UntilNul(r.field) == MemoryName(f) && r.typed == ParamULLong && ReadUL(r.value) == v
  {
    NamedRecord(MemoryName(f), ParamULLong, UL(v))
  }

  /** The records `set_memory_parameters` builds: one per set field, in the order
      hard_limit, soft_limit, min_guarantee, swap_hard_limit, all tagged ULLONG. */
  function MemoryRecords(p: MemoryParameters): (r: seq<Record>)
    ensures |r| == |MemorySetFields(p)|
    ensures forall k | 0 <= k < |r| :: var f := MemorySetFields(p)[k];
      UntilNul(r[k].field) == MemoryName(f) && r[k].typed == ParamULLong &&
      r[k].value == UL(MemoryGet(p, f).value)
  {
    var fs := MemorySetFields(p);
    seq(|fs|, k requires 0 <= k < |fs| => MemoryRecord(fs[k], MemoryGet(p, fs[k]).value))
  }

  /** A name one of the `match` arms of `from_vec` accepts. */
  predicate KnownMemoryName(name: seq<uint8>) {
    || name == MemoryName(HardLimit) || name == MemoryName(SoftLimit)
    || name == MemoryName(MinGuarantee) || name == MemoryName(SwapHardLimit)
  }

  /** The string `match` of `from_vec` on the record's name. */
  function MemoryLookup(name: seq<uint8>): (r: Option<MemoryField>)
    ensures r.None? <==> !KnownMemoryName(name)
    ensures r.Some? ==> forall f :: MemoryName(f) == name <==> f == r.value
  {
    var found :=
      if name == MemoryName(HardLimit) then Some(HardLimit)
      else if name == MemoryName(SoftLimit) then Some(SoftLimit)
      else if name == MemoryName(MinGuarantee) then Some(MinGuarantee)
      else if name == MemoryName(SwapHardLimit) then Some(SwapHardLimit)
      else None;
    if found.Some? then
      assert forall f :: MemoryName(f) == name <==> f == found.value by {
        forall f { MemoryNamesDistinct(f, found.value); }
      }
      found
    else found
  }

  /** `p` with field `f` replaced by `v`. */
  function MemorySet(p: MemoryParameters, f: MemoryField, v: Option<uint64>): (q: MemoryParameters)
    ensures forall g :: MemoryGet(q, g) == if g == f then v else MemoryGet(p, g)
  {
    match f
    case HardLimit => p.(hardLimit := v)
    case SoftLimit => p.(softLimit := v)
    case MinGuarantee => p.(minGuarantee := v)
    case SwapHardLimit => p.(swapHardLimit := v)
  }

  /** One iteration of the `from_vec` loop: the field the name selects gets the
      record's value read as `u64`; any other name panics. */
  function MemoryApply(p: MemoryParameters, rec: Record): (r: Outcome<MemoryParameters>)
    ensures r.Panicked? <==> !KnownMemoryName(UntilNul(rec.field))
    ensures r.Returned? ==> forall f :: (MemoryGet(r.value, f) ==
      if MemoryName(f) == UntilNul(rec.field) then Some(ReadUL(rec.value)) else MemoryGet(p, f))
  {
    match MemoryLookup(UntilNul(rec.field))
    case None => Panicked
    case Some(g) => Returned(MemorySet(p, g, Some(ReadUL(rec.value))))
  }

  /** The value the last record carrying `name` holds, read as `u64`. */
  function LastULong(vec: seq<Record>, name: seq<uint8>): Option<uint64> {
    match Last(vec, name)
    case None => None
    case Some(k) => Some(ReadUL(vec[k].value))
  }

  /** `MemoryParameters::from_vec`: the records in order, each setting the field it
      names; any other name panics. The loop is written here as recursion on the
      records before the last one. */
  function MemoryFromVec(vec: seq<Record>): Outcome<MemoryParameters>
    decreases |vec|
  {
    if vec == [] then Returned(MemoryParametersNew())
    else match MemoryFromVec(vec[..|vec| - 1])
      case Panicked => Panicked
      case Returned(p) => MemoryApply(p, vec[|vec| - 1])
  }

  /** What `from_vec` computes: it panics exactly when some record has an unknown
      name, and otherwise each field holds the value of the last record naming it
      (a later record overwrites an earlier one), or nothing if no record names it. */
  lemma {:induction false} MemoryFromVecSpec(vec: seq<Record>)
    ensures MemoryFromVec(vec).Panicked? <==> !AllKnownMemory(vec)
    ensures MemoryFromVec(vec).Returned? ==>
      forall f :: MemoryGet(MemoryFromVec(vec).value, f) == LastULong(vec, MemoryName(f))
  {
    MemoryFromVecPanics(vec);
    MemoryFromVecValues(vec);
  }

  /** Every record names a field `from_vec` knows. */
  predicate AllKnownMemory(vec: seq<Record>) {
    forall k | 0 <= k < |vec| :: KnownMemoryName(UntilNul(vec[k].field))
  }

  lemma AllKnownMemorySnoc(vec: seq<Record>)
    requires vec != []
    ensures AllKnownMemory(vec) <==>
      AllKnownMemory(vec[..|vec| - 1]) && KnownMemoryName(UntilNul(vec[|vec| - 1].field))
  {
    var init := vec[..|vec| - 1];
    assert forall k | 0 <= k < |init| :: init[k] == vec[k];
  }

  lemma {:induction false} MemoryFromVecPanics(vec: seq<Record>)
    ensures MemoryFromVec(vec).Panicked? <==> !AllKnownMemory(vec)
    decreases |vec|
  {
    if vec != [] {
      MemoryFromVecPanics(vec[..|vec| - 1]);
      AllKnownMemorySnoc(vec);
    }
  }

  lemma {:induction false} MemoryFromVecValues(vec: seq<Record>)
    ensures MemoryFromVec(vec).Returned? ==>
      forall f :: MemoryGet(MemoryFromVec(vec).value, f) == LastULong(vec, MemoryName(f))
    decreases |vec|
  {
    if vec != [] && MemoryFromVec(vec).Returned? {
      var init := vec[..|vec| - 1];
      var rec := vec[|vec| - 1];
      MemoryFromVecValues(init);
      var p := MemoryFromVec(init).value;
      var q := MemoryFromVec(vec).value;
      assert MemoryApply(p, rec) == Returned(q);
      forall f ensures MemoryGet(q, f) == LastULong(vec, MemoryName(f)) {
        MemoryValueStep(vec, p, q, f);
      }
    }
  }

  /** One step of the induction: the last record updates only the field it names. */
  lemma MemoryValueStep(vec: seq<Record>, p: MemoryParameters, q: MemoryParameters, f: MemoryField)
    requires vec != []
    requires MemoryApply(p, vec[|vec| - 1]) == Returned(q)
    requires MemoryGet(p, f) == LastULong(vec[..|vec| - 1], MemoryName(f))
    ensures MemoryGet(q, f) == LastULong(vec, MemoryName(f))
  {
    LastULongSnoc(vec, MemoryName(f));
  }

  lemma LastULongSnoc(vec: seq<Record>, name: seq<uint8>)
    requires vec != []
    ensures LastULong(vec, name) ==
      if UntilNul(vec[|vec| - 1].field) == name then Some(ReadUL(vec[|vec| - 1].value))
      else LastULong(vec[..|vec| - 1], name)
  {
    var init := vec[..|vec| - 1];
    LastSnoc(vec, name);
    if UntilNul(vec[|vec| - 1].field) != name {
      match Last(init, name)
      case None =>
      case Some(k) => assert init[k] == vec[k];
    }
  }

  lemma LastSnoc(vec: seq<Record>, name: seq<uint8>)
    requires vec != []
    ensures Last(vec, name) ==
      if UntilNul(vec[|vec| - 1].field) == name then Some(|vec| - 1) else Last(vec[..|vec| - 1], name)
  {
  }

  /** Decoding what the setter encodes gives back the parameters. */
  lemma MemoryRoundTrip(p: MemoryParameters)
    ensures MemoryFromVec(MemoryRecords(p)) == Returned(p)
  {
    var recs := MemoryRecords(p);
    MemoryRecordsKnown(p);
    MemoryFromVecPanics(recs);
    MemoryFromVecValues(recs);
    var q := MemoryFromVec(recs).value;
    forall f ensures MemoryGet(q, f) == MemoryGet(p, f) {
      MemoryRecordsLast(p, f);
    }
    MemoryExtensional(q, p);
  }

  /** Every record the setter builds carries a name `from_vec` knows. */
  lemma MemoryRecordsKnown(p: MemoryParameters)
    ensures AllKnownMemory(MemoryRecords(p))
  {
    var fs := MemorySetFields(p);
    var recs := MemoryRecords(p);
    forall k | 0 <= k < |recs| ensures KnownMemoryName(UntilNul(recs[k].field)) {
      assert UntilNul(recs[k].field) == MemoryName(fs[k]);
      MemoryNameKnown(fs[k]);
    }
  }

  lemma MemoryNameKnown(f: MemoryField)
    ensures KnownMemoryName(MemoryName(f))
  {
    match f
    case HardLimit =>
    case SoftLimit =>
    case MinGuarantee =>
    case SwapHardLimit =>
  }

  lemma MemoryRecordsLast(p: MemoryParameters, f: MemoryField)
    ensures var recs := MemoryRecords(p);
      MemoryGet(p, f) == LastULong(recs, MemoryName(f))
  {
    var fs := MemorySetFields(p);
    var recs := MemoryRecords(p);
    match Last(recs, MemoryName(f))
    case None =>
      forall j | 0 <= j < |fs| ensures fs[j] != f {
        assert UntilNul(recs[j].field) == MemoryName(fs[j]);
      }
    case Some(k) =>
      assert UntilNul(recs[k].field) == MemoryName(fs[k]);
      MemoryNamesDistinct(fs[k], f);
      assert recs[k].value == UL(MemoryGet(p, f).value);
  }

  /** `set_memory_parameters`: the records are built, then `as_ptr` and `&mut cparams[0]`
      are evaluated, so a released domain or an empty parameter set panics before any
      native call; otherwise the native status -1 is an error and anything else is
      returned as `u32`. */
  function SetMemoryParameters(d: Owned, p: MemoryParameters, ret: int32, err: ErrorValue)
    : (r: Run<Owned, Result<uint32>>)
    ensures r.Crashed? <==> d.ptr.None? || p == MemoryParametersNew()
    ensures r.Crashed? ==> r.calls == []
    ensures r.Ran? ==> r.state == d && r.calls == [Call("virDomainSetMemoryParameters", d.ptr.value, ret)]
    ensures r.Ran? ==> (r.value.Err? <==> ret == -1) && (r.value.Ok? && ret >= 0 ==> r.value.value == ret)
    ensures r.Ran? && r.value.Err? ==> r.value.error == err
    ensures r.Ran? && r.value.Ok? ==> (r.value.value - ret) % 0x1_0000_0000 == 0
  {
    var cparams := MemoryRecords(p);
    if d.ptr.None? then Crashed([])
    else if cparams == [] then
      assert forall f :: f !in MemorySetFields(p);
      MemoryExtensional(p, MemoryParametersNew());
      Crashed([])
    else
      assert MemorySetFields(p)[0] in MemorySetFields(p);
      match Invoke(d, "virDomainSetMemoryParameters", ret)
      case Crashed(calls) => Crashed(calls)
      case Ran(calls, s, _) => Ran(calls, s, CountStatus(ret, err))
  }

  /** `get_memory_parameters`: a first native call (asking for the count), then a second
      one into a buffer of exactly three default records, which `from_vec` decodes. The
      native library writes `written` over the start of that buffer; a slot it leaves
      untouched keeps the empty default name, which `from_vec` rejects. */
  function GetMemoryParameters(d: Owned, countRet: int32, written: seq<Record>, ret: int32, err: ErrorValue)
    : (r: Run<Owned, Result<MemoryParameters>>)
    ensures r.Crashed? ==> d.ptr.None? || (countRet != -1 && ret != -1)
    ensures d.ptr.None? ==> r == Crashed([])
    ensures d.ptr.Some? && countRet == -1 ==>
      r == Ran([Call("virDomainGetMemoryParameters", d.ptr.value, countRet)], d, Err(err))
    ensures d.ptr.Some? && countRet != -1 ==>
      r.calls == [Call("virDomainGetMemoryParameters", d.ptr.value, countRet),
                  Call("virDomainGetMemoryParameters", d.ptr.value, ret)]
    ensures d.ptr.Some? && countRet != -1 && ret == -1 ==> r.Ran? && r.value == Err(err)
    ensures d.ptr.Some? && countRet != -1 && ret != -1 ==>
      (r.Ran? <==> MemoryFromVec(Buffer(3, written)).Returned?) &&
      (r.Ran? ==> r.state == d && r.value == Ok(MemoryFromVec(Buffer(3, written)).value))
  {
    match Invoke(d, "virDomainGetMemoryParameters", countRet)
    case Crashed(calls) => Crashed(calls)
    case Ran(first, _, _) =>
      if countRet == -1 then Ran(first, d, Err(err))
      else
        var second := [Call("virDomainGetMemoryParameters", d.ptr.value, ret)];
        if ret == -1 then Ran(first + second, d, Err(err))
        else match MemoryFromVec(Buffer(3, written))
          case Panicked => Crashed(first + second)
          case Returned(p) => Ran(first + second, d, Ok(p))
  }

  /** When the native library fills fewer than three records, the getter panics: the
      untouched default record has an empty name. */
  lemma GetMemoryParametersShortPanics(d: Owned, countRet: int32, written: seq<Record>, ret: int32,
                                        err: ErrorValue)
    requires d.ptr.Some? && countRet != -1 && ret != -1
    requires |written| < 3
    ensures GetMemoryParameters(d, countRet, written, ret, err).Crashed?
  {
    var buf := Buffer(3, written);
    assert buf[2] == Default();
    assert !KnownMemoryName(UntilNul(buf[2].field)) by {
      forall f ensures MemoryName(f) != [] {}
    }
  }

  // ---------------------------------------------------------------------------
  // NUMA tunables

  const NumaNodeset: seq<uint8> := [110, 117, 109, 97, 95, 110, 111, 100, 101, 115, 101, 116]  // "numa_nodeset"
  const NumaMode: seq<uint8> := [110, 117, 109, 97, 95, 109, 111, 100, 101]                      // "numa_mode"

  /** `NUMAParameters`: a node set (a Rust `String`, kept as its bytes) and a mode. */
  datatype NumaParameters = NumaParameters(nodeSet: Option<seq<uint8>>, mode: Option<int32>)

  function NumaParametersNew(): (p: NumaParameters)
    ensures p.nodeSet.None? && p.mode.None?
  {
    NumaParameters(None, None)
  }

  /** The records `set_numa_parameters` builds: numa_nodeset (STRING, the value pointing
      at a fresh C copy of the node set) before numa_mode (INT, the mode widened with
      `as u64`), each only when set. Copying a node set holding a NUL panics. */
  function NumaRecords(p: NumaParameters): (r: Outcome<seq<Record>>)
    ensures r.Panicked? <==> p.nodeSet.Some? && 0 in p.nodeSet.value
    ensures r.Returned? ==> |r.value| == (if p.nodeSet.Some? then 1 else 0) + (if p.mode.Some? then 1 else 0)
    ensures r.Returned? && p.nodeSet.Some? ==>
      UntilNul(r.value[0].field) == NumaNodeset && r.value[0].typed == ParamString &&
      r.value[0].value == S(p.nodeSet.value)
    ensures r.Returned? && p.mode.Some? ==> var last := r.value[|r.value| - 1];
      UntilNul(last.field) == NumaMode && last.typed == ParamInt &&
      ReadUL(last.value) == AsUInt64(p.mode.value)
  {
    var first: Outcome<seq<Record>> :=
      if p.nodeSet.None? then Returned([])
      else match NewCString(p.nodeSet.value)
        case Panicked => Panicked
        case Returned(chars) => Returned([NamedRecord(NumaNodeset, ParamString, S(chars))]);
    match first
    case Panicked => Panicked
    case Returned(r1) =>
      if p.mode.Some? then Returned(r1 + [NamedRecord(NumaMode, ParamInt, UL(AsUInt64(p.mode.value)))])
      else Returned(r1)
  }

  /** One iteration of `NUMAParameters::from_vec`: numa_nodeset reads the string the
      value points at, numa_mode reads the value `as c_int`, any other name panics. */
  function NumaApply(p: NumaParameters, rec: Record): (r: Outcome<NumaParameters>)
    ensures r.Panicked? <==> UntilNul(rec.field) != NumaNodeset && UntilNul(rec.field) != NumaMode
    ensures r.Returned? && UntilNul(rec.field) == NumaNodeset ==>
      r.value == p.(nodeSet := Some(ReadS(rec.value)))
    ensures r.Returned? && UntilNul(rec.field) == NumaMode ==>
      r.value == p.(mode := Some(AsInt32(ReadUL(rec.value))))
  {
    var name := UntilNul(rec.field);
    assert NumaNodeset != NumaMode by { assert |NumaNodeset| != |NumaMode|; }
    if name == NumaNodeset then Returned(p.(nodeSet := Some(ReadS(rec.value))))
    else if name == NumaMode then Returned(p.(mode := Some(AsInt32(ReadUL(rec.value)))))
    else Panicked
  }

  /** The string the last record carrying `name` points at. */
  function LastString(vec: seq<Record>, name: seq<uint8>): Option<CChars> {
    match Last(vec, name)
    case None => None
    case Some(k) => Some(ReadS(vec[k].value))
  }

  /** The value the last record carrying `name` holds, read `as c_int`. */
  function LastInt(vec: seq<Record>, name: seq<uint8>): Option<int32> {
    match Last(vec, name)
    case None => None
    case Some(k) => Some(AsInt32(ReadUL(vec[k].value)))
  }

  /** `NUMAParameters::from_vec`: each record sets the field it names; any other
      name panics. */
  function NumaFromVec(vec: seq<Record>): Outcome<NumaParameters>
    decreases |vec|
  {
    if vec == [] then Returned(NumaParametersNew())
    else match NumaFromVec(vec[..|vec| - 1])
      case Panicked => Panicked
      case Returned(p) => NumaApply(p, vec[|vec| - 1])
  }

  /** What `from_vec` computes: it panics exactly when some record names neither
      field, and otherwise each field holds the value of the last record naming it. */
  lemma {:induction false} NumaFromVecSpec(vec: seq<Record>)
    ensures NumaFromVec(vec).Panicked? <==> exists k | 0 <= k < |vec| ::
      UntilNul(vec[k].field) != NumaNodeset && UntilNul(vec[k].field) != NumaMode
    ensures NumaFromVec(vec).Returned? ==> NumaFromVec(vec).value.nodeSet == LastString(vec, NumaNodeset)
    ensures NumaFromVec(vec).Returned? ==> NumaFromVec(vec).value.mode == LastInt(vec, NumaMode)
  {
    NumaFromVecPanics(vec);
    NumaFromVecValues(vec);
  }

  lemma {:induction false} NumaFromVecPanics(vec: seq<Record>)
    ensures NumaFromVec(vec).Panicked? <==> exists k | 0 <= k < |vec| ::
      UntilNul(vec[k].field) != NumaNodeset && UntilNul(vec[k].field) != NumaMode
    decreases |vec|
  {
    if vec != [] {
      var init := vec[..|vec| - 1];
      NumaFromVecPanics(init);
      assert forall k | 0 <= k < |init| :: init[k] == vec[k];
    }
  }

  lemma {:induction false} NumaFromVecValues(vec: seq<Record>)
    ensures NumaFromVec(vec).Returned? ==> NumaFromVec(vec).value.nodeSet == LastString(vec, NumaNodeset)
    ensures NumaFromVec(vec).Returned? ==> NumaFromVec(vec).value.mode == LastInt(vec, NumaMode)
    decreases |vec|
  {
    if vec != [] && NumaFromVec(vec).Returned? {
      var init := vec[..|vec| - 1];
      NumaFromVecValues(init);
      var p := NumaFromVec(init).value;
      assert NumaApply(p, vec[|vec| - 1]) == NumaFromVec(vec);
      NumaValueStep(vec, p, NumaFromVec(vec).value);
    }
  }

  /** One step of the induction: the last record updates only the field it names. */
  lemma NumaValueStep(vec: seq<Record>, p: NumaParameters, q: NumaParameters)
    requires vec != []
    requires NumaApply(p, vec[|vec| - 1]) == Returned(q)
    requires p.nodeSet == LastString(vec[..|vec| - 1], NumaNodeset) && p.mode == LastInt(vec[..|vec| - 1], NumaMode)
    ensures q.nodeSet == LastString(vec, NumaNodeset) && q.mode == LastInt(vec, NumaMode)
  {
    assert NumaNodeset != NumaMode by { assert |NumaNodeset| != |NumaMode|; }
    LastSnocAt(vec, NumaNodeset);
    LastSnocAt(vec, NumaMode);
  }

  /** `Last` on a non-empty vector: the last record if it carries the name, else the
      same index as in the records before it. */
  lemma LastSnocAt(vec: seq<Record>, name: seq<uint8>)
    requires vec != []
    ensures Last(vec, name) ==
      if UntilNul(vec[|vec| - 1].field) == name then Some(|vec| - 1) else Last(vec[..|vec| - 1], name)
    ensures forall k | 0 <= k < |vec| - 1 :: vec[..|vec| - 1][k] == vec[k]
  {
    LastSnoc(vec, name);
  }

  /** Widening a C `int` to 64 bits and narrowing it back gives the same `int`. */
  lemma WidenNarrow(m: int32)
    ensures AsInt32(AsUInt64(m)) == m
  {
    if m < 0 {
      assert AsUInt64(m) == m + 0x1_0000_0000_0000_0000;
      assert AsUInt64(m) % 0x1_0000_0000 == m + 0x1_0000_0000;
    }
  }

  /** Decoding what the setter encodes gives back the parameters, whenever encoding
      does not panic. */
  lemma NumaRoundTrip(p: NumaParameters)
    requires p.nodeSet.Some? ==> 0 !in p.nodeSet.value
    ensures NumaRecords(p).Returned? && NumaFromVec(NumaRecords(p).value) == Returned(p)
  {
    var recs := NumaRecords(p).value;
    assert NumaNodeset != NumaMode by { assert |NumaNodeset| != |NumaMode|; }
    if p.mode.Some? {
      WidenNarrow(p.mode.value);
    }
    NumaFromVecSpec(recs);
    var q := NumaFromVec(recs);
    assert q.Returned?;
    if p.nodeSet.Some? && p.mode.Some? {
      assert Last(recs, NumaNodeset) == Some(0);
      assert Last(recs, NumaMode) == Some(1);
    }
  }

  /** `set_numa_parameters`: the records are built first (a NUL in the node set panics),
      then `as_ptr` and `&mut cparams[0]` are evaluated, so a released domain or an
      empty parameter set panics before any native call. */
  function SetNumaParameters(d: Owned, p: NumaParameters, ret: int32, err: ErrorValue)
    : (r: Run<Owned, Result<uint32>>)
    ensures r.Crashed? <==> d.ptr.None? || p == NumaParametersNew() || NumaRecords(p).Panicked?
    ensures r.Crashed? ==> r.calls == []
    ensures r.Ran? ==> r.state == d && r.calls == [Call("virDomainSetNumaParameters", d.ptr.value, ret)]
    ensures r.Ran? ==> (r.value.Err? <==> ret == -1) && (r.value.Ok? && ret >= 0 ==> r.value.value == ret)
    ensures r.Ran? && r.value.Err? ==> r.value.error == err
    ensures r.Ran? && r.value.Ok? ==> (r.value.value - ret) % 0x1_0000_0000 == 0
  {
    match NumaRecords(p)
    case Panicked => Crashed([])
    case Returned(cparams) =>
      if d.ptr.None? || cparams == [] then Crashed([])
      else match Invoke(d, "virDomainSetNumaParameters", ret)
        case Crashed(calls) => Crashed(calls)
        case Ran(calls, s, _) => Ran(calls, s, CountStatus(ret, err))
  }

  /** `get_numa_parameters`: the first native call reports a count; a buffer of that
      many default records is handed to the second call (`&mut params[0]` panics on an
      empty buffer, and a negative count cannot be allocated); `from_vec` decodes it. */
  function GetNumaParameters(d: Owned, countRet: int32, nparams: int32, written: seq<Record>, ret: int32,
                             err: ErrorValue)
    : (r: Run<Owned, Result<NumaParameters>>)
    ensures d.ptr.None? ==> r == Crashed([])
    ensures d.ptr.Some? && countRet == -1 ==>
      r == Ran([Call("virDomainGetNumaParameters", d.ptr.value, countRet)], d, Err(err))
    ensures d.ptr.Some? && countRet != -1 && nparams <= 0 ==>
      r == Crashed([Call("virDomainGetNumaParameters", d.ptr.value, countRet)])
    ensures d.ptr.Some? && countRet != -1 && nparams > 0 ==>
      r.calls == [Call("virDomainGetNumaParameters", d.ptr.value, countRet),
                  Call("virDomainGetNumaParameters", d.ptr.value, ret)]
    ensures d.ptr.Some? && countRet != -1 && nparams > 0 && ret == -1 ==> r.Ran? && r.value == Err(err)
    ensures d.ptr.Some? && countRet != -1 && nparams > 0 && ret != -1 ==>
      (r.Ran? <==> NumaFromVec(Buffer(nparams, written)).Returned?) &&
      (r.Ran? ==> r.state == d && r.value == Ok(NumaFromVec(Buffer(nparams, written)).value))
  {
    match Invoke(d, "virDomainGetNumaParameters", countRet)
    case Crashed(calls) => Crashed(calls)
    case Ran(first, _, _) =>
      if countRet == -1 then Ran(first, d, Err(err))
      else if nparams <= 0 then Crashed(first)
      else
        var second := [Call("virDomainGetNumaParameters", d.ptr.value, ret)];
        if ret == -1 then Ran(first + second, d, Err(err))
        else match NumaFromVec(Buffer(nparams, written))
          case Panicked => Crashed(first + second)
          case Returned(p) => Ran(first + second, d, Ok(p))
  }
}
