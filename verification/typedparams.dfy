/** The typed-parameter codec: a list of named, kind-tagged optional fields is turned into
    native records (`ToParams`), and native records are read back into such a list
    (`FromParams`). A field's `Option` is the slot the caller reads or fills. */
module TypedParams {
  import opened Base
  import opened CStrings
  import opened TypedParam

  /** The kind of a field together with its current optional value
      (`ParamIn` / `ParamOut`, which have the same shape). */
  datatype Param =
    | Int32(i32: Option<int32>)
    | UInt32(u32: Option<uint32>)
    | Int64(i64: Option<int64>)
    | UInt64(u64: Option<uint64>)
    | Float64(f64: Option<Float>)
    | Bool(b: Option<bool>)
    | String(str: Option<seq<uint8>>)

  /** `FieldIn` / `FieldOut`: a name (the bytes of a Rust string) and a parameter. */
  datatype Field = Field(name: seq<uint8>, value: Param)

  predicate IsSet(p: Param) {
    match p
    case Int32(o) => o.Some?
    case UInt32(o) => o.Some?
    case Int64(o) => o.Some?
    case UInt64(o) => o.Some?
    case Float64(o) => o.Some?
    case Bool(o) => o.Some?
    case String(o) => o.Some?
  }

  /** The tag a field of this kind expects, and writes. */
  function ExpectedTag(p: Param): (t: int32)
    ensures IsKindTag(t)
  {
    match p
    case Int32(_) => ParamInt
    case UInt32(_) => ParamUInt
    case Int64(_) => ParamLLong
    case UInt64(_) => ParamULLong
    case Float64(_) => ParamDouble
    case Bool(_) => ParamBoolean
    case String(_) => ParamString
  }

  /** The same kind, with no value. */
  function Cleared(p: Param): (q: Param)
    ensures ExpectedTag(q) == ExpectedTag(p) && !IsSet(q)
    ensures !IsSet(p) ==> q == p
  {
    match p
    case Int32(_) => Int32(None)
    case UInt32(_) => UInt32(None)
    case Int64(_) => Int64(None)
    case UInt64(_) => UInt64(None)
    case Float64(_) => Float64(None)
    case Bool(_) => Bool(None)
    case String(_) => String(None)
  }

  /** Filling a field of kind `p` from the union slot its kind selects; a boolean is true
      exactly when its byte is non-zero. */
  function ReadSlot(p: Param, v: Value): (q: Param)
    ensures ExpectedTag(q) == ExpectedTag(p) && IsSet(q)
    ensures q.Bool? ==> q.b.value == (ReadB(v) != 0)
  {
    match p
    case Int32(_) => Int32(Some(ReadI(v)))
    case UInt32(_) => UInt32(Some(ReadUI(v)))
    case Int64(_) => Int64(Some(ReadL(v)))
    case UInt64(_) => UInt64(Some(ReadUL(v)))
    case Float64(_) => Float64(Some(ReadD(v)))
    case Bool(_) => Bool(Some(ReadB(v) != 0))
    case String(_) => String(Some(ReadS(v)))
  }

  // ---------------------------------------------------------------------------
  // Encoding

  /** `to_arr`: the name into the fixed 80-byte array, truncated or NUL-padded. */
  function ToArr(name: seq<uint8>): (r: FieldName)
    ensures forall k | 0 <= k < |name| && k < FieldLength :: r[k] == name[k]
    ensures forall k | |name| <= k < FieldLength :: r[k] == 0
  {
    seq(FieldLength, k requires 0 <= k < FieldLength => if k < |name| then name[k] else 0)
  }

  /** A name short enough to keep its terminating NUL and holding no NUL itself
      survives the fixed-size array. */
  lemma NameRoundTrip(name: seq<uint8>)
    requires |name| < FieldLength && 0 !in name
    ensures UntilNul(ToArr(name)) == name
  {
    var arr := ToArr(name);
    var pad := arr[|name|..];
    assert arr == name + pad;
    UntilNulOfCChars(name, pad);
  }

  /** Names that agree on their first 80 bytes cannot be told apart once encoded:
      the array silently drops the rest. */
  lemma LongNamesTruncated(a: seq<uint8>, b: seq<uint8>)
    requires |a| >= FieldLength && |b| >= FieldLength && a[..FieldLength] == b[..FieldLength]
    ensures ToArr(a) == ToArr(b)
    ensures ToArr(a) == a[..FieldLength]
  {
    assert forall k | 0 <= k < FieldLength :: a[k] == a[..FieldLength][k] == b[..FieldLength][k] == b[k];
  }

  /** A field can be encoded unless it carries a string with an interior NUL. */
  predicate Encodable(f: Field) {
    !(f.value.String? && f.value.str.Some? && 0 in f.value.str.value)
  }

  /** `rec` is the record `to_params` writes for the set field `f`: its name, the tag of
      its kind, a slot that reads back as its value, and a boolean stored as 0 or 1. */
  predicate Encodes(f: Field, rec: Record) {
    && rec.field == ToArr(f.name)
    && rec.typed == ExpectedTag(f.value)
    && SlotTag(rec.value) == rec.typed
    && ReadSlot(f.value, rec.value) == f.value
    && (f.value.Bool? && f.value.b.Some? ==> rec.value == B(if f.value.b.value then 1 else 0))
  }

  /** One field into at most one record. */
  function Encode(f: Field): (r: Outcome<Option<Record>>)
    ensures r.Returned? <==> Encodable(f)
    ensures r.Returned? ==> (r.value.Some? <==> IsSet(f.value))
    ensures r.Returned? && r.value.Some? ==> Encodes(f, r.value.value)
  {
    match f.value
    case Int32(o) =>
      Returned(if o.Some? then Some(Record(ToArr(f.name), ParamInt, I(o.value))) else None)
    case UInt32(o) =>
      Returned(if o.Some? then Some(Record(ToArr(f.name), ParamUInt, UI(o.value))) else None)
    case Int64(o) =>
      Returned(if o.Some? then Some(Record(ToArr(f.name), ParamLLong, L(o.value))) else None)
    case UInt64(o) =>
      Returned(if o.Some? then Some(Record(ToArr(f.name), ParamULLong, UL(o.value))) else None)
    case Float64(o) =>
      Returned(if o.Some? then Some(Record(ToArr(f.name), ParamDouble, D(o.value))) else None)
    case Bool(o) =>
      Returned(if o.Some? then Some(Record(ToArr(f.name), ParamBoolean, B(if o.value then 1 else 0))) else None)
    case String(o) =>
      if o.None? then Returned(None)
      else match NewCString(o.value)
        case Panicked => Panicked
        case Returned(c) => Returned(Some(Record(ToArr(f.name), ParamString, S(c))))
  }

  /** The fields that carry a value, in their original order. */
  function Present(fields: seq<Field>): (r: seq<Field>)
    ensures |r| <= |fields|
  {
    if fields == [] then []
    else (if IsSet(fields[0].value) then [fields[0]] else []) + Present(fields[1..])
  }

  /** `to_params`: one record per set field, in field order; unset fields emit nothing.
      Panics only when a set string holds a NUL. */
  function ToParams(fields: seq<Field>): (r: Outcome<seq<Record>>)
    ensures r.Returned? <==> forall i | 0 <= i < |fields| :: Encodable(fields[i])
    ensures r.Returned? ==> |r.value| == |Present(fields)|
    ensures r.Returned? ==> forall k | 0 <= k < |r.value| :: Encodes(Present(fields)[k], r.value[k])
    decreases |fields|
  {
    if fields == [] then Returned([])
    else
      match Encode(fields[0])
      case Panicked => Panicked
      case Returned(head) =>
        match ToParams(fields[1..])
        case Panicked => Panicked
        case Returned(rest) =>
          ToParamsStep(fields, head, rest);
          Returned((if head.Some? then [head.value] else []) + rest)
  }

  /** The step of `to_params`: the record of the first field, if it emits one, followed
      by the records of the rest, lines up with the present fields. */
  lemma ToParamsStep(fields: seq<Field>, head: Option<Record>, rest: seq<Record>)
    requires fields != [] && Encode(fields[0]) == Returned(head)
    requires |rest| == |Present(fields[1..])|
    requires forall k | 0 <= k < |rest| :: Encodes(Present(fields[1..])[k], rest[k])
    ensures var out := (if head.Some? then [head.value] else []) + rest;
      && |out| == |Present(fields)|
      && forall k | 0 <= k < |out| :: Encodes(Present(fields)[k], out[k])
  {
    var tail := Present(fields[1..]);
    if head.None? {
      assert Present(fields) == [] + tail == tail;
      assert [] + rest == rest;
    } else {
      assert Present(fields) == [fields[0]] + tail;
      assert Encodes(fields[0], head.value);
      forall k | 0 <= k < 1 + |rest|
        ensures Encodes(([fields[0]] + tail)[k], ([head.value] + rest)[k])
      {
        if k > 0 {
          assert Encodes(tail[k - 1], rest[k - 1]);
        }
      }
    }
  }

  // ---------------------------------------------------------------------------
  // Decoding

  /** The first field carrying `name`, if any. */
  function FirstMatch(fields: seq<Field>, name: seq<uint8>): (r: Option<nat>)
    ensures r.Some? ==> r.value < |fields| && fields[r.value].name == name
    ensures r.Some? ==> forall j | 0 <= j < r.value :: fields[j].name != name
    ensures r.None? ==> forall j | 0 <= j < |fields| :: fields[j].name != name
    decreases |fields|
  {
    if fields == [] then None
    else if fields[0].name == name then Some(0)
    else match FirstMatch(fields[1..], name)
      case None => None
      case Some(j) => Some(j + 1)
  }

  /** The field a record is decoded into. */
  function Target(fields: seq<Field>, rec: Record): Option<nat> {
    FirstMatch(fields, UntilNul(rec.field))
  }

  /** The record names a field whose kind disagrees with the record's tag. */
  predicate Mismatch(fields: seq<Field>, rec: Record) {
    var t := Target(fields, rec);
    t.Some? && rec.typed != ExpectedTag(fields[t.value].value)
  }

  /** Fields with the same names and kinds, position by position. */
  predicate SameShape(a: seq<Field>, b: seq<Field>) {
    && |a| == |b|
    && forall i | 0 <= i < |a| :: a[i].name == b[i].name && ExpectedTag(a[i].value) == ExpectedTag(b[i].value)
  }

  /** `valid_type!` followed by the slot read. */
  function Store(p: Param, rec: Record): (r: Outcome<Param>)
    ensures r.Panicked? <==> rec.typed != ExpectedTag(p)
    ensures r.Returned? ==> r.value == ReadSlot(p, rec.value)
  {
    if rec.typed != ExpectedTag(p) then Panicked else Returned(ReadSlot(p, rec.value))
  }

  /** One iteration of the outer loop of `from_params`. */
  function ApplyRecord(rec: Record, fields: seq<Field>): (r: Outcome<seq<Field>>)
    ensures r.Panicked? <==> Mismatch(fields, rec)
    ensures r.Returned? ==> SameShape(r.value, fields)
    ensures r.Returned? ==> forall i | 0 <= i < |fields| && Target(fields, rec) != Some(i) ::
      r.value[i] == fields[i]
    ensures r.Returned? && Target(fields, rec).Some? ==>
      r.value[Target(fields, rec).value].value ==
        ReadSlot(fields[Target(fields, rec).value].value, rec.value)
  {
    match Target(fields, rec)
    case None => Returned(fields)
    case Some(i) =>
      match Store(fields[i].value, rec)
      case Panicked => Panicked
      case Returned(p) => Returned(fields[i := Field(fields[i].name, p)])
  }

  /** Fields with the same names choose the same target for every record. */
  lemma SameShapeSameTarget(a: seq<Field>, b: seq<Field>, name: seq<uint8>)
    requires SameShape(a, b)
    ensures FirstMatch(a, name) == FirstMatch(b, name)
  {
    var ra, rb := FirstMatch(a, name), FirstMatch(b, name);
    if ra.Some? && rb.Some? {
      assert !(ra.value < rb.value) && !(rb.value < ra.value);
    }
  }

  /** The last record decoded into field `i`, if any. */
  function LastTarget(params: seq<Record>, fields: seq<Field>, i: nat): (r: Option<nat>)
    ensures r.Some? ==> r.value < |params| && Target(fields, params[r.value]) == Some(i)
    ensures r.Some? ==> forall k | r.value < k < |params| :: Target(fields, params[k]) != Some(i)
    ensures r.None? ==> forall k | 0 <= k < |params| :: Target(fields, params[k]) != Some(i)
    decreases |params|
  {
    if params == [] then None
    else match LastTarget(params[1..], fields, i)
      case Some(k) => Some(k + 1)
      case None => if Target(fields, params[0]) == Some(i) then Some(0) else None
  }

  /** What decoding is meant to produce: every field takes the slot of the last record
      decoded into it, read as the field's kind; every other field keeps its value. */
  function Decoded(params: seq<Record>, fields: seq<Field>): (r: seq<Field>)
    ensures |r| == |fields|
  {
    seq(|fields|, i requires 0 <= i < |fields| =>
      match LastTarget(params, fields, i)
      case None => fields[i]
      case Some(k) => Field(fields[i].name, ReadSlot(fields[i].value, params[k].value)))
  }

  /** `from_params`: the records in order, each stored into the first field with its name
      after checking the tag; a tag that disagrees with the field's kind panics. */
  function FromParams(params: seq<Record>, fields: seq<Field>): (r: Outcome<seq<Field>>)
    ensures r.Panicked? <==> exists k | 0 <= k < |params| :: Mismatch(fields, params[k])
    ensures r.Returned? ==> r.value == Decoded(params, fields)
    decreases |params|
  {
    if params == [] then Returned(fields)
    else
      var a := ApplyRecord(params[0], fields);
      if a.Panicked? then Panicked
      else
        var r := FromParams(params[1..], a.value);
        FromParamsStep(params, fields, a.value);
        r
  }

  /** Fields of the same shape see the same last record for every position. */
  lemma {:induction false} LastTargetSameShape(params: seq<Record>, a: seq<Field>, b: seq<Field>, i: nat)
    requires SameShape(a, b)
    ensures LastTarget(params, a, i) == LastTarget(params, b, i)
    decreases |params|
  {
    if params != [] {
      LastTargetSameShape(params[1..], a, b, i);
      SameShapeSameTarget(a, b, UntilNul(params[0].field));
    }
  }

  /** The inductive step behind `FromParams`'s contract: once the first record is applied,
      decoding the rest yields what decoding all of them promises. */
  lemma FromParamsStep(params: seq<Record>, fields: seq<Field>, mid: seq<Field>)
    requires params != []
    requires ApplyRecord(params[0], fields) == Returned(mid)
    ensures (exists k | 0 <= k < |params| :: Mismatch(fields, params[k])) <==>
            (exists k | 0 <= k < |params[1..]| :: Mismatch(mid, params[1..][k]))
    ensures Decoded(params[1..], mid) == Decoded(params, fields)
  {
    MismatchStep(params, fields, mid);
    forall i | 0 <= i < |fields|
      ensures Decoded(params[1..], mid)[i] == Decoded(params, fields)[i]
    {
      DecodedStepAt(params, fields, mid, i);
    }
  }

  lemma MismatchStep(params: seq<Record>, fields: seq<Field>, mid: seq<Field>)
    requires params != []
    requires ApplyRecord(params[0], fields) == Returned(mid)
    ensures (exists k | 0 <= k < |params| :: Mismatch(fields, params[k])) <==>
            (exists k | 0 <= k < |params[1..]| :: Mismatch(mid, params[1..][k]))
  {
    var rest := params[1..];
    assert !Mismatch(fields, params[0]);
    if exists k | 0 <= k < |params| :: Mismatch(fields, params[k]) {
      var k :| 0 <= k < |params| && Mismatch(fields, params[k]);
      SameShapeSameTarget(mid, fields, UntilNul(params[k].field));
      assert k > 0 && rest[k - 1] == params[k];
      assert Mismatch(mid, rest[k - 1]);
    }
    if exists k | 0 <= k < |rest| :: Mismatch(mid, rest[k]) {
      var k :| 0 <= k < |rest| && Mismatch(mid, rest[k]);
      SameShapeSameTarget(mid, fields, UntilNul(rest[k].field));
      assert params[k + 1] == rest[k];
      assert Mismatch(fields, params[k + 1]);
    }
  }

  lemma DecodedStepAt(params: seq<Record>, fields: seq<Field>, mid: seq<Field>, i: nat)
    requires params != [] && i < |fields|
    requires ApplyRecord(params[0], fields) == Returned(mid)
    ensures Decoded(params[1..], mid)[i] == Decoded(params, fields)[i]
  {
    var rest := params[1..];
    LastTargetSameShape(rest, mid, fields, i);
    match LastTarget(rest, fields, i)
    case Some(k) =>
      ReadSlotDependsOnKind(mid[i].value, fields[i].value, rest[k].value);
    case None =>
  }

  /** Only the kind of a field decides what a slot read yields. */
  lemma ReadSlotDependsOnKind(p: Param, q: Param, v: Value)
    requires ExpectedTag(p) == ExpectedTag(q)
    ensures ReadSlot(p, v) == ReadSlot(q, v)
  {
  }

  // ---------------------------------------------------------------------------
  // Round trip

  /** Every field's name fits the array with its NUL and holds no NUL; names are distinct;
      strings hold no NUL. */
  predicate RoundTrippable(fields: seq<Field>) {
    && (forall i | 0 <= i < |fields| :: |fields[i].name| < FieldLength && 0 !in fields[i].name)
    && (forall i, j | 0 <= i < j < |fields| :: fields[i].name != fields[j].name)
    && (forall i | 0 <= i < |fields| :: Encodable(fields[i]))
  }

  function ClearedAll(fields: seq<Field>): (r: seq<Field>)
    ensures |r| == |fields|
    ensures forall i | 0 <= i < |fields| :: r[i] == Field(fields[i].name, Cleared(fields[i].value))
  {
    seq(|fields|, i requires 0 <= i < |fields| => Field(fields[i].name, Cleared(fields[i].value)))
  }

  /** Decoding the records of `to_params(out)` into unset fields of the same names and
      kinds gives back `out`, whether it was fully or partly set. */
  lemma {:induction false} RoundTrip(out: seq<Field>)
    requires RoundTrippable(out)
    ensures ToParams(out).Returned?
    ensures FromParams(ToParams(out).value, ClearedAll(out)) == Returned(out)
  {
    assert Partial(out, 0) == ClearedAll(out);
    RoundTripFrom(out, 0);
    assert out[0..] == out;
  }

  /** The record `to_params` emits for the set field `out[k]` lands in field `k` of a
      state whose names are those of `out`. */
  lemma ApplyEncoded(out: seq<Field>, k: nat, state: seq<Field>, rec: Record)
    requires RoundTrippable(out) && k < |out|
    requires Encode(out[k]) == Returned(Some(rec))
    requires |state| == |out| && forall j | 0 <= j < |out| :: state[j].name == out[j].name
    requires state[k].value == Cleared(out[k].value)
    ensures ApplyRecord(rec, state) == Returned(state[k := out[k]])
  {
    NameRoundTrip(out[k].name);
    var t := FirstMatch(state, out[k].name);
    assert t.Some? ==> t.value == k;
    assert Target(state, rec) == Some(k);
    ReadSlotDependsOnKind(state[k].value, out[k].value, rec.value);
  }

  /** `FromParams` consumes its records front to back. */
  lemma FromParamsCons(rec: Record, rest: seq<Record>, state: seq<Field>, mid: seq<Field>)
    requires ApplyRecord(rec, state) == Returned(mid)
    ensures FromParams([rec] + rest, state) == FromParams(rest, mid)
  {
    assert ([rec] + rest)[0] == rec && ([rec] + rest)[1..] == rest;
  }

  /** The records of `out[k..]` after the one for `out[k]`. */
  lemma ToParamsCons(out: seq<Field>, k: nat)
    requires k < |out| && Encode(out[k]).Returned? && ToParams(out[k + 1..]).Returned?
    ensures ToParams(out[k..]).Returned?
    ensures ToParams(out[k..]).value ==
      (if Encode(out[k]).value.Some? then [Encode(out[k]).value.value] else []) + ToParams(out[k + 1..]).value
  {
    var tail := out[k..];
    assert tail[0] == out[k] && tail[1..] == out[k + 1..];
  }

  /** The decoding state after the records of `out[..k]`: fields before `k` already
      hold their values, the others are still unset. */
  function Partial(out: seq<Field>, k: nat): (state: seq<Field>)
    requires k <= |out|
    ensures |state| == |out|
    ensures forall j | 0 <= j < |out| :: state[j].name == out[j].name
    ensures forall j | 0 <= j < |out| :: state[j].value == if j < k then out[j].value else Cleared(out[j].value)
  {
    out[..k] + ClearedAll(out)[k..]
  }

  lemma PartialStep(out: seq<Field>, k: nat)
    requires k < |out|
    ensures Partial(out, k + 1) == Partial(out, k)[k := out[k]]
    ensures !IsSet(out[k].value) ==> Partial(out, k + 1) == Partial(out, k)
  {
  }

  lemma {:induction false} RoundTripFrom(out: seq<Field>, k: nat)
    requires RoundTrippable(out) && k <= |out|
    ensures ToParams(out[k..]).Returned?
    ensures FromParams(ToParams(out[k..]).value, Partial(out, k)) == Returned(out)
    decreases |out| - k
  {
    if k == |out| {
      assert Partial(out, k) == out;
    } else {
      RoundTripFrom(out, k + 1);
      PartialStep(out, k);
      assert Encodable(out[k]);
      ToParamsCons(out, k);
      var head := Encode(out[k]);
      if head.value.Some? {
        var rec := head.value.value;
        ApplyEncoded(out, k, Partial(out, k), rec);
        FromParamsCons(rec, ToParams(out[k + 1..]).value, Partial(out, k), Partial(out, k + 1));
      } else {
        assert [] + ToParams(out[k + 1..]).value == ToParams(out[k + 1..]).value;
      }
    }
  }

  // ---------------------------------------------------------------------------
  // The decoder as the source writes it

  /** The inner loop of `from_params`: the fields are scanned in order and the scan
      stops at the first one carrying `name`. */
  method FindField(fields: seq<Field>, name: seq<uint8>) returns (r: Option<nat>)
    ensures r == FirstMatch(fields, name)
  {
    var j := 0;
    while j < |fields|
      invariant 0 <= j <= |fields|
      invariant forall jj | 0 <= jj < j :: fields[jj].name != name
    {
      if fields[j].name == name {
        return Some(j);
      }
      j := j + 1;
    }
    return None;
  }

  /** `from_params` with its two loops: each record is matched against the fields with
      the inner scan, checked against the matched field's kind, and stored. */
  method DecodeInPlace(params: seq<Record>, fields: seq<Field>) returns (panicked: bool, result: seq<Field>)
    ensures panicked <==> FromParams(params, fields).Panicked?
    ensures !panicked ==> FromParams(params, fields) == Returned(result)
  {
    result := fields;
    var i := 0;
    while i < |params|
      invariant 0 <= i <= |params|
      invariant FromParams(params[i..], result) == FromParams(params, fields)
    {
      var rec := params[i];
      assert params[i..][0] == rec && params[i..][1..] == params[i + 1..];
      var t := FindField(result, UntilNul(rec.field));
      if t.Some? {
        if rec.typed != ExpectedTag(result[t.value].value) {
          assert ApplyRecord(rec, result).Panicked?;
          return true, [];
        }
        result := result[t.value := Field(result[t.value].name, ReadSlot(result[t.value].value, rec.value))];
      }
      i := i + 1;
    }
    assert params[i..] == [];
    return false, result;
  }

  // ---------------------------------------------------------------------------
  // The unit test of the source, as an instance of the round trip

  /** The names of the seven demo fields, as bytes. */
  const DemoNames: seq<seq<uint8>> := [
    [105, 110, 116, 51, 50],           // "int32"
    [117, 105, 110, 116, 51, 50],      // "uint32"
    [105, 110, 116, 54, 52],           // "int64"
    [117, 105, 110, 116, 54, 52],      // "uint64"
    [102, 108, 111, 97, 116, 54, 52],  // "float64"
    [98, 111, 111, 108],               // "bool"
    [115, 116, 114, 105, 110, 103]]    // "string"

  /** The seven demo fields, one per kind, holding the given values. */
  function DemoFields(vi32: Option<int32>, vu32: Option<uint32>, vi64: Option<int64>, vu64: Option<uint64>,
                      vf64: Option<Float>, vbool: Option<bool>, vstring: Option<seq<uint8>>): seq<Field>
  {
    [ Field(DemoNames[0], Int32(vi32)),
      Field(DemoNames[1], UInt32(vu32)),
      Field(DemoNames[2], Int64(vi64)),
      Field(DemoNames[3], UInt64(vu64)),
      Field(DemoNames[4], Float64(vf64)),
      Field(DemoNames[5], Bool(vbool)),
      Field(DemoNames[6], String(vstring)) ]
  }

  lemma DemoNamesShort()
    ensures forall i | 0 <= i < |DemoNames| :: |DemoNames[i]| < FieldLength && 0 !in DemoNames[i]
  {
    forall i | 0 <= i < |DemoNames|
      ensures |DemoNames[i]| < FieldLength && 0 !in DemoNames[i]
    {
      assert forall k | 0 <= k < |DemoNames[i]| :: DemoNames[i][k] >= 48;
    }
  }

  lemma DemoNamesDistinct()
    ensures forall i, j | 0 <= i < j < |DemoNames| :: DemoNames[i] != DemoNames[j]
  {
    forall i, j | 0 <= i < j < |DemoNames|
      ensures DemoNames[i] != DemoNames[j]
    {
      // The length, the first and the last byte tell the seven names apart.
      var a, b := DemoNames[i], DemoNames[j];
      assert |a| != |b| || a[0] != b[0] || a[|a| - 1] != b[|b| - 1];
    }
  }

  lemma DemoRoundTrippable(vi32: Option<int32>, vu32: Option<uint32>, vi64: Option<int64>, vu64: Option<uint64>,
                            vf64: Option<Float>, vbool: Option<bool>, vstring: Option<seq<uint8>>)
    requires vstring.Some? ==> 0 !in vstring.value
    ensures RoundTrippable(DemoFields(vi32, vu32, vi64, vu64, vf64, vbool, vstring))
  {
    var fs := DemoFields(vi32, vu32, vi64, vu64, vf64, vbool, vstring);
    assert forall i | 0 <= i < |fs| :: fs[i].name == DemoNames[i];
    DemoNamesShort();
    DemoNamesDistinct();
  }

  /** The source's unit test, for every choice of values: the seven demo fields, each
      set or unset, come back unchanged after encoding and decoding into cleared fields. */
  lemma DemoRoundTrips(vi32: Option<int32>, vu32: Option<uint32>, vi64: Option<int64>, vu64: Option<uint64>,
                       vf64: Option<Float>, vbool: Option<bool>, vstring: Option<seq<uint8>>)
    requires vstring.Some? ==> 0 !in vstring.value
    ensures var fs := DemoFields(vi32, vu32, vi64, vu64, vf64, vbool, vstring);
            ToParams(fs).Returned? && FromParams(ToParams(fs).value, ClearedAll(fs)) == Returned(fs)
  {
    var fs := DemoFields(vi32, vu32, vi64, vu64, vf64, vbool, vstring);
    DemoRoundTrippable(vi32, vu32, vi64, vu64, vf64, vbool, vstring);
    RoundTrip(fs);
  }
}
