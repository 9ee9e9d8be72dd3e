/** The native `virTypedParameter` record: an 80-byte NUL-padded name, a kind tag and a
    value union, together with the seven kind tags. */
module TypedParam {
  import opened Base
  import opened CStrings

  /** Width of the record's name array. */
  const FieldLength := 80

  type FieldName = s: seq<uint8> | |s| == FieldLength witness seq(FieldLength, _ => 0)

  /** The kind tags. */
  const ParamInt: int32 := 1
  const ParamUInt: int32 := 2
  const ParamLLong: int32 := 3
  const ParamULLong: int32 := 4
  const ParamDouble: int32 := 5
  const ParamBoolean: int32 := 6
  const ParamString: int32 := 7

  predicate IsKindTag(t: int) {
    ParamInt <= t <= ParamString
  }

  /** A `double` is carried as its 64-bit pattern; the model never computes with it. */
  type Float = uint64

  /** The value union, one slot per kind. `S` is a pointer to a NUL-terminated string;
      the model keeps the characters it points to. */
  datatype Value =
    | I(i: int32)
    | UI(ui: uint32)
    | L(l: int64)
    | UL(ul: uint64)
    | D(d: Float)
    | B(b: int8)
    | S(s: CChars)

  /** The kind tag that names the slot a value occupies. */
  function SlotTag(v: Value): (t: int32)
    ensures IsKindTag(t)
  {
    match v
    case I(_) => ParamInt
    case UI(_) => ParamUInt
    case L(_) => ParamLLong
    case UL(_) => ParamULLong
    case D(_) => ParamDouble
    case B(_) => ParamBoolean
    case S(_) => ParamString
  }

  /* Reading one slot of the union. A slot other than the one last written is
     reinterpreted memory in C; the model reads it as zero (or the empty string). */
  function ReadI(v: Value): int32 { if v.I? then v.i else 0 }
  function ReadUI(v: Value): uint32 { if v.UI? then v.ui else 0 }
  function ReadL(v: Value): int64 { if v.L? then v.l else 0 }
  function ReadUL(v: Value): uint64 { if v.UL? then v.ul else 0 }
  function ReadD(v: Value): Float { if v.D? then v.d else 0 }
  function ReadB(v: Value): int8 { if v.B? then v.b else 0 }
  function ReadS(v: Value): CChars { if v.S? then v.s else [] }

  datatype Record = Record(field: FieldName, typed: int32, value: Value)

  /** `virTypedParameter::default()`: all-zero memory. Every slot of the union reads 0,
      which the model represents by the `int` slot holding 0. */
  function Default(): (r: Record)
    ensures UntilNul(r.field) == []
    ensures forall k | 0 <= k < FieldLength :: r.field[k] == 0
    ensures !IsKindTag(r.typed)
    ensures r.typed == 0
    ensures ReadI(r.value) == 0 && ReadUI(r.value) == 0 && ReadL(r.value) == 0
    ensures ReadUL(r.value) == 0 && ReadD(r.value) == 0 && ReadB(r.value) == 0 && ReadS(r.value) == []
  {
    Record(seq(FieldLength, _ => 0), 0, I(0))
  }

  /** The tag of a slot identifies the slot: no two slots share a tag. */
  lemma SlotTagIdentifiesSlot(v: Value, w: Value)
    ensures SlotTag(v) == SlotTag(w) <==>
      (v.I? && w.I?) || (v.UI? && w.UI?) || (v.L? && w.L?) || (v.UL? && w.UL?) ||
      (v.D? && w.D?) || (v.B? && w.B?) || (v.S? && w.S?)
  {
  }
}
