/** The C-string conversions the binding performs through its marshalling macros:
    reading a NUL-terminated buffer, and building a NUL-terminated copy of a Rust string. */
module CStrings {
  import opened Base

  /** The characters of a C string: a byte string holding no NUL. */
  type CChars = s: seq<uint8> | 0 !in s

  /** `CStr::from_ptr` on a buffer: the bytes before the first NUL. A buffer with no NUL
      at all would be read past its end by the source; the model stops at the end. */
  function UntilNul(buf: seq<uint8>): (r: CChars)
    ensures |r| <= |buf| && r == buf[..|r|]
    ensures |r| < |buf| ==> buf[|r|] == 0
    decreases |buf|
  {
    if buf == [] || buf[0] == 0 then [] else [buf[0]] + UntilNul(buf[1..])
  }

  /** `CString::new(v).unwrap()`: panics when `v` holds an interior NUL, otherwise
      the copy carries exactly the bytes of `v`. */
  function NewCString(v: seq<uint8>): (r: Outcome<CChars>)
    ensures r.Returned? <==> 0 !in v
    ensures r.Returned? ==> r.value == v
  {
    if 0 in v then Panicked else Returned(v)
  }

  /** Reading back what `NewCString` built gives the original bytes. */
  lemma {:induction false} UntilNulOfCChars(s: CChars, pad: seq<uint8>)
    requires forall i | 0 <= i < |pad| :: pad[i] == 0
    ensures UntilNul(s + pad) == s
    decreases |s|
  {
    if s == [] {
      assert pad == [] || (s + pad)[0] == 0;
    } else {
      assert (s + pad)[0] == s[0];
      assert (s + pad)[1..] == s[1..] + pad;
      UntilNulOfCChars(s[1..], pad);
    }
  }
}
