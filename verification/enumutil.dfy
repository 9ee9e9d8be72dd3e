/** The conversions `impl_enum!` generates between a C enum constant and a Rust enum:
    `from_raw`, `to_raw` and a lower-case `Display`. An instance of the macro is a list
    of `RAW => Variant` arms followed by one catch-all arm, written either `_ => V`
    (no constant of its own) or `_ => V => RAW` (a variant that `to_raw` maps to RAW). */
module EnumUtil {
  import opened Base

  /** An explicitly listed arm `RAW => Variant`. */
  datatype Arm<V> = Arm(raw: int, variant: V)

  /** One use of the macro. `fallbackRaw` is `Some(RAW)` for the `_ => V => RAW` form
      and `None` for the plain `_ => V` form. */
  datatype Table<V> = Table(arms: seq<Arm<V>>, fallback: V, fallbackRaw: Option<int>)

  /** The position of the first occurrence of `x` in `xs`, if any. */
  function Position<X(==)>(xs: seq<X>, x: X): (r: Option<nat>)
    ensures r.Some? ==> r.value < |xs| && xs[r.value] == x && x !in xs[..r.value]
    ensures r.None? <==> x !in xs
    decreases |xs|
  {
    if xs == [] then None
    else if xs[0] == x then Some(0)
    else match Position(xs[1..], x)
      case None => None
      case Some(k) => assert xs[..k + 1] == [xs[0]] + xs[1..][..k]; Some(k + 1)
  }

  function Raws<V>(arms: seq<Arm<V>>): (r: seq<int>)
    ensures |r| == |arms| && forall k | 0 <= k < |arms| :: r[k] == arms[k].raw
  {
    seq(|arms|, k requires 0 <= k < |arms| => arms[k].raw)
  }

  function Variants<V>(arms: seq<Arm<V>>): (r: seq<V>)
    ensures |r| == |arms| && forall k | 0 <= k < |arms| :: r[k] == arms[k].variant
  {
    seq(|arms|, k requires 0 <= k < |arms| => arms[k].variant)
  }

  /** `from_raw`: the `match` on the constant takes the first listed arm carrying it,
      and every other constant falls through to the catch-all variant. */
  function FromRaw<V(==)>(t: Table<V>, raw: int): (v: V)
    ensures raw !in Raws(t.arms) ==> v == t.fallback
    ensures forall k | 0 <= k < |t.arms| && t.arms[k].raw == raw && raw !in Raws(t.arms)[..k] ::
      v == t.arms[k].variant
  {
    match Position(Raws(t.arms), raw)
    case None => t.fallback
    case Some(k) => t.arms[k].variant
  }

  /** The variants `to_raw` and `Display` are defined for: the `match` on the variant
      has one arm per listed arm, plus the catch-all variant in the `_ => V => RAW` form.
      Rust refuses a non-exhaustive match, so in a compiled program every variant of the
      enum satisfies this. */
  predicate Covers<V(==)>(t: Table<V>, v: V) {
    v in Variants(t.arms) || (t.fallbackRaw.Some? && v == t.fallback)
  }

  /** `to_raw`: the first listed arm naming the variant, else the catch-all's constant. */
  function ToRaw<V(==)>(t: Table<V>, v: V): (raw: int)
    requires Covers(t, v)
    ensures v in Variants(t.arms) ==>
      exists k | 0 <= k < |t.arms| :: t.arms[k].variant == v && raw == t.arms[k].raw
    ensures forall k | 0 <= k < |t.arms| && t.arms[k].variant == v && v !in Variants(t.arms)[..k] ::
      raw == t.arms[k].raw
    ensures v !in Variants(t.arms) ==> t.fallbackRaw.Some? && raw == t.fallbackRaw.value
  {
    match Position(Variants(t.arms), v)
    case Some(k) => t.arms[k].raw
    case None => t.fallbackRaw.value
  }

  /** `stringify!(Variant).to_lowercase()` on an identifier: ASCII upper-case letters
      are lowered, every other character is kept. */
  function Lower(s: string): (r: string)
    ensures |r| == |s|
    ensures forall i | 0 <= i < |s| :: if 'A' <= s[i] <= 'Z' then r[i] as int == s[i] as int + 32 else r[i] == s[i]
  {
    seq(|s|, i requires 0 <= i < |s| => if 'A' <= s[i] <= 'Z' then (s[i] as int + 32) as char else s[i])
  }

  /** `Display`: the lower-cased name of the variant, for every variant the generated
      `match` covers, the catch-all included. `nameOf` gives each variant's identifier. */
  function Display<V(==)>(t: Table<V>, v: V, nameOf: V -> string): (r: string)
    requires Covers(t, v)
    ensures |r| == |nameOf(v)|
    ensures forall i | 0 <= i < |r| :: 'A' <= r[i] <= 'Z' ==> !('A' <= nameOf(v)[i] <= 'Z')
    ensures forall i | 0 <= i < |r| :: ('a' <= r[i] <= 'z') <==> ('a' <= nameOf(v)[i] <= 'z' || 'A' <= nameOf(v)[i] <= 'Z')
    ensures forall i | 0 <= i < |r| ::
      if 'A' <= nameOf(v)[i] <= 'Z' then r[i] as int == nameOf(v)[i] as int + 32 else r[i] == nameOf(v)[i]
  {
    Lower(nameOf(v))
  }

  predicate DistinctRaws<V>(t: Table<V>) {
    forall i, j | 0 <= i < j < |t.arms| :: t.arms[i].raw != t.arms[j].raw
  }

  predicate DistinctVariants<V(==)>(t: Table<V>) {
    forall i, j | 0 <= i < j < |t.arms| :: t.arms[i].variant != t.arms[j].variant
  }

  /** With distinct constants, `from_raw` maps each listed constant to its listed variant. */
  lemma FromRawListed<V>(t: Table<V>, k: nat)
    requires DistinctRaws(t)
    requires k < |t.arms|
    ensures FromRaw(t, t.arms[k].raw) == t.arms[k].variant
  {
    assert Raws(t.arms)[k] == t.arms[k].raw;
  }

  /** The catch-all's constant in the `_ => V => RAW` form: `to_raw(V) == RAW` whenever
      V has no listed arm of its own. */
  lemma ToRawFallback<V>(t: Table<V>)
    requires t.fallbackRaw.Some?
    requires t.fallback !in Variants(t.arms)
    ensures Covers(t, t.fallback) && ToRaw(t, t.fallback) == t.fallbackRaw.value
  {
  }

  /** Every listed variant survives `to_raw` then `from_raw`, provided the listed
      constants are distinct. */
  lemma RoundTripListed<V>(t: Table<V>, v: V)
    requires DistinctRaws(t)
    requires v in Variants(t.arms)
    ensures Covers(t, v) && FromRaw(t, ToRaw(t, v)) == v
  {
    var k :| 0 <= k < |t.arms| && t.arms[k].variant == v && ToRaw(t, v) == t.arms[k].raw;
    FromRawListed(t, k);
  }

  /** Every listed constant survives `from_raw` then `to_raw`, provided both the listed
      constants and the listed variants are distinct. */
  lemma RawRoundTripListed<V>(t: Table<V>, k: nat)
    requires DistinctRaws(t) && DistinctVariants(t)
    requires k < |t.arms|
    ensures Covers(t, FromRaw(t, t.arms[k].raw)) && ToRaw(t, FromRaw(t, t.arms[k].raw)) == t.arms[k].raw
  {
    FromRawListed(t, k);
    var v := t.arms[k].variant;
    assert Variants(t.arms)[k] == v;
    var j :| 0 <= j < |t.arms| && t.arms[j].variant == v && ToRaw(t, v) == t.arms[j].raw;
    assert j == k;
  }

  // ---------------------------------------------------------------------------
  // The two instances exercised by the source's unit tests

  const FOO := 0
  const BAR := 1
  const BAZ := 2

  datatype WithoutLast = WFoo | WBar | WBaz
  datatype WithLast = Foo | Bar | Baz | Last

  /** `FOO => Foo, BAR => Bar, BAZ => Baz, _ => Foo`. */
  function WithoutLastTable(): Table<WithoutLast> {
    Table([Arm(FOO, WFoo), Arm(BAR, WBar), Arm(BAZ, WBaz)], WFoo, None)
  }

  /** `FOO => Foo, BAR => Bar, BAZ => Baz, _ => Last => FOO`. */
  function WithLastTable(): Table<WithLast> {
    Table([Arm(FOO, Foo), Arm(BAR, Bar), Arm(BAZ, Baz)], Last, Some(FOO))
  }

  function WithoutLastName(v: WithoutLast): string {
    match v
    case WFoo => "Foo"
    case WBar => "Bar"
    case WBaz => "Baz"
  }

  function WithLastName(v: WithLast): string {
    match v
    case Foo => "Foo"
    case Bar => "Bar"
    case Baz => "Baz"
    case Last => "Last"
  }

  /** Both generated `match`es are exhaustive: every variant is covered. */
  lemma InstancesCover(v: WithoutLast, w: WithLast)
    ensures Covers(WithoutLastTable(), v) && Covers(WithLastTable(), w)
  {
    assert Variants(WithoutLastTable().arms) == [WFoo, WBar, WBaz];
    assert Variants(WithLastTable().arms) == [Foo, Bar, Baz];
  }

  /** The unit tests' expectations for the plain form: listed constants map to their
      variants and 10 falls through to `Foo`. */
  lemma WithoutLastBehaves()
    ensures FromRaw(WithoutLastTable(), FOO) == WFoo
    ensures FromRaw(WithoutLastTable(), BAR) == WBar
    ensures FromRaw(WithoutLastTable(), BAZ) == WBaz
    ensures FromRaw(WithoutLastTable(), 10) == WFoo
  {
    assert Raws(WithoutLastTable().arms) == [FOO, BAR, BAZ];
  }

  /** In the plain form every variant is listed, so every variant round-trips. */
  lemma WithoutLastRoundTrips(v: WithoutLast)
    ensures Covers(WithoutLastTable(), v) && FromRaw(WithoutLastTable(), ToRaw(WithoutLastTable(), v)) == v
  {
    var t := WithoutLastTable();
    assert Raws(t.arms) == [FOO, BAR, BAZ];
    InstancesCover(v, Foo);
    RoundTripListed(t, v);
  }

  /** The plain form displays its variants in lower case. */
  lemma WithoutLastDisplays()
    ensures Covers(WithoutLastTable(), WFoo) && Covers(WithoutLastTable(), WBar) && Covers(WithoutLastTable(), WBaz)
    ensures Display(WithoutLastTable(), WFoo, WithoutLastName) == "foo"
    ensures Display(WithoutLastTable(), WBar, WithoutLastName) == "bar"
    ensures Display(WithoutLastTable(), WBaz, WithoutLastName) == "baz"
  {
    InstancesCover(WFoo, Foo);
    InstancesCover(WBar, Foo);
    InstancesCover(WBaz, Foo);
  }

  /** The unit tests' expectations for the `_ => Last => FOO` form: 10 maps to `Last`
      and `to_raw(Last)` is FOO -- so `Last` is the one variant that does not survive
      `to_raw` then `from_raw`: it comes back as `Foo`. */
  lemma WithLastBehaves()
    ensures FromRaw(WithLastTable(), FOO) == Foo
    ensures FromRaw(WithLastTable(), BAR) == Bar
    ensures FromRaw(WithLastTable(), BAZ) == Baz
    ensures FromRaw(WithLastTable(), 10) == Last
    ensures Covers(WithLastTable(), Last) && ToRaw(WithLastTable(), Last) == FOO
    ensures FromRaw(WithLastTable(), ToRaw(WithLastTable(), Last)) == Foo != Last
  {
    var t := WithLastTable();
    assert Raws(t.arms) == [FOO, BAR, BAZ];
    assert Variants(t.arms) == [Foo, Bar, Baz];
  }

  /** The catch-all variant is displayed like any other: `Last` as "last". */
  lemma WithLastDisplays()
    ensures Covers(WithLastTable(), Last) && Covers(WithLastTable(), Foo)
    ensures Display(WithLastTable(), Last, WithLastName) == "last"
    ensures Display(WithLastTable(), Foo, WithLastName) == "foo"
  {
    InstancesCover(WFoo, Last);
    InstancesCover(WFoo, Foo);
  }
}
