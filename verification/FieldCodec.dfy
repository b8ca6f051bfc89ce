/** Structures as sequences of field elements: the derived encoders and decoders over their primitives. */
module FieldCodec {
  import opened Bytes
  import opened Options

  /** The scalar field of BLS12-381. */
  const MODULUS: int := 0x73EDA753_299D7D48_3339D808_09A1D805_53BDA402_FFFE5BFE_FFFFFFFF_00000001

  type Fr = x: int | 0 <= x < MODULUS

  /** Values that 31 bytes can hold. */
  const BYTES31: int := 0x1_000000_00000000_00000000_00000000_00000000_00000000_00000000_00000000

  datatype Width = W8 | W16 | W32 | W64 | W128
  {
    function Bound(): int {
      match this
      case W8 => 0x100
      case W16 => 0x10000
      case W32 => 0x1_0000_0000
      case W64 => 0x1_0000_0000_0000_0000
      case W128 => 0x1_0000_0000_0000_0000_0000_0000_0000_0000
    }
  }

  datatype Prim = Bool | Unsigned(w: Width) | Signed(w: Width) | Field | Bytes32

  /** The shape of a structure: a primitive, or the fields of a struct in order. */
  datatype Schema = Leaf(prim: Prim) | Struct(fields: seq<Schema>)

  datatype Value = BoolV(b: bool) | IntV(n: int) | FieldV(f: Fr) | BytesV(h: Hash) | StructV(fields: seq<Value>)

  // ----- Primitives -----

  predicate PrimConforms(p: Prim, v: Value) {
    match p
    case Bool => v.BoolV?
    case Unsigned(w) => v.IntV? && 0 <= v.n < w.Bound()
    case Signed(w) => v.IntV? && -w.Bound() <= 2 * v.n < w.Bound()
    case Field => v.FieldV?
    case Bytes32 => v.BytesV?
  }

  function PrimSize(p: Prim): nat { if p.Bytes32? then 2 else 1 }

  function IntToField(n: int): Fr
    requires -W128.Bound() < n < W128.Bound()
  {
    if n < 0 then MODULUS + n else n
  }

  /** The stray last byte first, then the other 31. */
  function HashToFields(h: Hash): seq<Fr> {
    HashFits(h);
    [h[31], FromLe(h[..31])]
  }

  lemma HashFits(h: Hash)
    ensures FromLe(h[..31]) < BYTES31 < MODULUS
  {
    FromLeBound(h[..31]);
    Pow256Values();
  }

  function EncodePrim(p: Prim, v: Value): (r: seq<Fr>)
    requires PrimConforms(p, v)
    ensures |r| == PrimSize(p)
  {
    match p
    case Bool => [if v.b then 1 else 0]
    case Unsigned(w) => [IntToField(v.n)]
    case Signed(w) => [IntToField(v.n)]
    case Field => [v.f]
    case Bytes32 => HashToFields(v.h)
  }

  /** Conversion to `u128`, and from there to the narrower widths. */
  function FieldToUnsigned(f: Fr, w: Width): Option<int> { if f < w.Bound() then Some(f) else None }

  /** Conversion to `i128`: the element itself if small, else its negation; then to the narrower widths. */
  function FieldToSigned(f: Fr, w: Width): Option<int> {
    var half := W128.Bound() / 2;
    var wide := if f < half then Some(f as int) else if MODULUS - f <= half then Some(f - MODULUS) else None;
    if wide.Some? && -w.Bound() <= 2 * wide.value < w.Bound() then wide else None
  }

  function FieldsToHash(repr: seq<Fr>): Option<Hash>
    requires |repr| == 2
  {
    if repr[0] < 256 && repr[1] < BYTES31 then Some(ToLe(repr[1], 31) + [repr[0]]) else None
  }

  function DecodePrim(p: Prim, repr: seq<Fr>): Option<Value> {
    if |repr| != PrimSize(p) then None
    else match p
      case Bool => if repr[0] == 0 then Some(BoolV(false)) else if repr[0] == 1 then Some(BoolV(true)) else None
      case Unsigned(w) => (match FieldToUnsigned(repr[0], w) case None => None case Some(n) => Some(IntV(n)))
      case Signed(w) => (match FieldToSigned(repr[0], w) case None => None case Some(n) => Some(IntV(n)))
      case Field => Some(FieldV(repr[0]))
      case Bytes32 => (match FieldsToHash(repr) case None => None case Some(h) => Some(BytesV(h)))
  }

  lemma HashRoundTrip(h: Hash)
    ensures FieldsToHash(HashToFields(h)) == Some(h)
  {
    HashFits(h);
    ToFromLe(h[..31]);
    assert h == h[..31] + [h[31]];
  }

  lemma FieldsRoundTrip(repr: seq<Fr>)
    requires |repr| == 2 && FieldsToHash(repr).Some?
    ensures HashToFields(FieldsToHash(repr).value) == repr
  {
    Pow256Values();
    FromToLe(repr[1], 31);
    var h := FieldsToHash(repr).value;
    assert h[..31] == ToLe(repr[1], 31);
  }

  /** A primitive decodes to exactly the values that encode to the input. */
  lemma PrimCodec(p: Prim, repr: seq<Fr>, v: Value)
    ensures DecodePrim(p, repr) == Some(v) <==> PrimConforms(p, v) && EncodePrim(p, v) == repr
  {
    if p.Bytes32? {
      if v.BytesV? { HashRoundTrip(v.h); }
      if |repr| == 2 && FieldsToHash(repr).Some? { FieldsRoundTrip(repr); }
    }
  }

  lemma HashMeaning(h: Hash)
    ensures HashToFields(h)[0] < 256 && HashToFields(h)[1] < BYTES31
    ensures FromLe(h) == HashToFields(h)[1] + BYTES31 * HashToFields(h)[0]
  {
    HashFits(h);
    Pow256Values();
    FromLeConcat(h[..31], [h[31]]);
    assert h == h[..31] + [h[31]];
    assert FromLe([h[31]]) == h[31] + 256 * FromLe([]);
  }

  /** What the elements of a primitive are worth: truth values one or zero, integers themselves up to a multiple of the
      modulus, and 32 bytes as a little-endian number split after 31 of them. */
  lemma PrimMeaning(p: Prim, v: Value)
    requires PrimConforms(p, v)
    ensures var r := EncodePrim(p, v);
            match p
            case Bool => r == [if v.b then 1 else 0]
            case Unsigned(_) => r == [v.n]
            case Signed(_) => |r| == 1 && (r[0] == v.n || r[0] == v.n + MODULUS)
            case Field => r == [v.f]
            case Bytes32 => |r| == 2 && r[0] < 256 && r[1] < BYTES31 && FromLe(v.h) == r[1] + BYTES31 * r[0]
  {
    if p.Bytes32? { HashMeaning(v.h); }
  }

  // ----- Structures -----

  predicate Conforms(s: Schema, v: Value)
    decreases s, 1
  {
    match s
    case Leaf(p) => PrimConforms(p, v)
    case Struct(fs) => v.StructV? && AllConform(fs, v.fields)
  }

  predicate AllConform(fs: seq<Schema>, vs: seq<Value>)
    decreases fs, 0
  {
    |fs| == |vs| && (fs != [] ==> Conforms(fs[0], vs[0]) && AllConform(fs[1..], vs[1..]))
  }

  /** `FIELD_SIZE`: the summed sizes of the fields. */
  function Size(s: Schema): nat
    decreases s, 1
  {
    match s
    case Leaf(p) => PrimSize(p)
    case Struct(fs) => SizeAll(fs)
  }

  function SizeAll(fs: seq<Schema>): nat
    decreases fs, 0
  {
    if fs == [] then 0 else Size(fs[0]) + SizeAll(fs[1..])
  }

  function Encode(s: Schema, v: Value): (r: seq<Fr>)
    requires Conforms(s, v)
    ensures |r| == Size(s)
    decreases s, 1
  {
    match s
    case Leaf(p) => EncodePrim(p, v)
    case Struct(fs) => EncodeAll(fs, v.fields)
  }

  function EncodeAll(fs: seq<Schema>, vs: seq<Value>): (r: seq<Fr>)
    requires AllConform(fs, vs)
    ensures |r| == SizeAll(fs)
    decreases fs, 0
  {
    if fs == [] then [] else Encode(fs[0], vs[0]) + EncodeAll(fs[1..], vs[1..])
  }

  lemma ConformsAt(fs: seq<Schema>, vs: seq<Value>, i: nat)
    requires AllConform(fs, vs) && i < |fs|
    ensures |fs| == |vs| && Conforms(fs[i], vs[i])
  {
    if i > 0 { ConformsAt(fs[1..], vs[1..], i - 1); }
  }

  lemma {:induction false} OffsetFits(fs: seq<Schema>, i: nat)
    requires i < |fs|
    ensures SizeAll(fs[..i]) + Size(fs[i]) <= SizeAll(fs)
    ensures i > 0 ==> SizeAll(fs[..i]) == Size(fs[0]) + SizeAll(fs[1..][..i - 1])
  {
    if i > 0 {
      OffsetFits(fs[1..], i - 1);
      assert fs[..i][1..] == fs[1..][..i - 1];
    }
  }

  /** Every field of a structure is encoded where the sizes of the fields before it add up to. */
  lemma {:induction false} FieldAt(fs: seq<Schema>, vs: seq<Value>, i: nat)
    requires AllConform(fs, vs) && i < |fs|
    ensures SizeAll(fs[..i]) + Size(fs[i]) <= SizeAll(fs) && i < |vs| && Conforms(fs[i], vs[i])
    ensures EncodeAll(fs, vs)[SizeAll(fs[..i])..][..Size(fs[i])] == Encode(fs[i], vs[i])
  {
    ConformsAt(fs, vs, i);
    OffsetFits(fs, i);
    var first, rest := Encode(fs[0], vs[0]), EncodeAll(fs[1..], vs[1..]);
    if i == 0 {
      assert fs[..0] == [] && (first + rest)[..Size(fs[0])] == first;
      assert EncodeAll(fs, vs)[0..] == EncodeAll(fs, vs);
    } else {
      FieldAt(fs[1..], vs[1..], i - 1);
      assert (first + rest)[Size(fs[0]) + SizeAll(fs[1..][..i - 1])..] == rest[SizeAll(fs[1..][..i - 1])..];
    }
  }

  function Decode(s: Schema, repr: seq<Fr>): Option<Value>
    decreases s, 1
  {
    match s
    case Leaf(p) => DecodePrim(p, repr)
    case Struct(fs) => (match DecodeAll(fs, repr) case None => None case Some(vs) => Some(StructV(vs)))
  }

  /** Each field takes its size off the front; anything left over is an error. */
  function DecodeAll(fs: seq<Schema>, repr: seq<Fr>): Option<seq<Value>>
    decreases fs, 0
  {
    if fs == [] then if repr == [] then Some([]) else None
    else if Size(fs[0]) > |repr| then None
    else match Decode(fs[0], repr[..Size(fs[0])])
      case None => None
      case Some(v) => match DecodeAll(fs[1..], repr[Size(fs[0])..])
        case None => None
        case Some(vs) => Some([v] + vs)
  }

  /** The generated encoder: every field is written to the same buffer in turn. */
  method Write(s: Schema, v: Value, buffer: seq<Fr>) returns (written: seq<Fr>)
    requires Conforms(s, v)
    ensures written == buffer + Encode(s, v)
    decreases s
  {
    match s {
      case Leaf(p) => written := buffer + EncodePrim(p, v);
      case Struct(fs) =>
        written := buffer;
        for i := 0 to |fs|
          invariant AllConform(fs[i..], v.fields[i..]) && |fs| == |v.fields|
          invariant written + EncodeAll(fs[i..], v.fields[i..]) == buffer + Encode(s, v)
        {
          assert fs[i..][1..] == fs[i + 1..] && v.fields[i..][1..] == v.fields[i + 1..];
          ghost var before := written;
          written := Write(fs[i], v.fields[i], written);
          assert written + EncodeAll(fs[i + 1..], v.fields[i + 1..]) == before + EncodeAll(fs[i..], v.fields[i..]);
        }
    }
  }

  /** What is decoded so far, in front of the result of decoding the rest. */
  function Prefixed(done: seq<Value>, rest: Option<seq<Value>>): Option<seq<Value>> {
    match rest case None => None case Some(vs) => Some(done + vs)
  }

  lemma PrefixedNothing(rest: Option<seq<Value>>)
    ensures Prefixed([], rest) == rest
  {
    if rest.Some? { assert [] + rest.value == rest.value; }
  }

  /** The generated decoder: the input slice shrinks field by field, with an early return on any failure. */
  method Read(s: Schema, repr: seq<Fr>) returns (r: Option<Value>)
    ensures r == Decode(s, repr)
    decreases s
  {
    match s {
      case Leaf(p) => r := DecodePrim(p, repr);
      case Struct(fs) =>
        var input, values: seq<Value> := repr, [];
        PrefixedNothing(DecodeAll(fs, repr));
        assert fs[0..] == fs;
        for i := 0 to |fs|
          invariant Prefixed(values, DecodeAll(fs[i..], input)) == DecodeAll(fs, repr)
        {
          assert fs[i..][1..] == fs[i + 1..];
          var size := Size(fs[i]);
          if size > |input| { return None; }
          var field := Read(fs[i], input[..size]);
          if field.None? { return None; }
          ghost var rest := DecodeAll(fs[i + 1..], input[size..]);
          assert rest.Some? ==> values + ([field.value] + rest.value) == (values + [field.value]) + rest.value;
          input, values := input[size..], values + [field.value];
        }
        assert fs[|fs|..] == [] && values + [] == values;
        r := if input == [] then Some(StructV(values)) else None;
    }
  }

  /** Decoding is the exact inverse of encoding: an input decodes to a value exactly when the value conforms to the
      schema and encodes to that input. */
  lemma {:induction false} Codec(s: Schema, repr: seq<Fr>, v: Value)
    ensures Decode(s, repr) == Some(v) <==> Conforms(s, v) && Encode(s, v) == repr
    decreases s, 1
  {
    match s {
      case Leaf(p) => PrimCodec(p, repr, v);
      case Struct(fs) => if v.StructV? { CodecAll(fs, repr, v.fields); }
    }
  }

  lemma {:induction false} CodecAll(fs: seq<Schema>, repr: seq<Fr>, vs: seq<Value>)
    ensures DecodeAll(fs, repr) == Some(vs) <==> AllConform(fs, vs) && EncodeAll(fs, vs) == repr
    decreases fs, 0
  {
    if fs != [] && vs != [] {
      var n := Size(fs[0]);
      assert vs == [vs[0]] + vs[1..];
      if n <= |repr| {
        Codec(fs[0], repr[..n], vs[0]);
        CodecAll(fs[1..], repr[n..], vs[1..]);
        assert repr == repr[..n] + repr[n..];
      }
    }
  }

  /** Every input of the wrong length is rejected. */
  lemma WrongLengthRejected(s: Schema, repr: seq<Fr>)
    requires |repr| != Size(s)
    ensures Decode(s, repr) == None
  {
    if Decode(s, repr).Some? { Codec(s, repr, Decode(s, repr).value); }
  }
}
