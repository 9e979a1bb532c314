/** The dclog value encoding: the bytes of a value, the decoder, and what the decoder accepts. */
module Wire {
  import opened Bytes

  /** The fixed-width scalar kinds. A scalar is held as the bit pattern its `to_le_bytes` writes. */
  datatype NumKind = I8 | I16 | I32 | I64 | U8 | U16 | U32 | U64 | F32 | F64

  datatype Value =
    | Num(kind: NumKind, bits: nat)
    | Bool(b: bool)
    | Null
    | Bytes(data: seq<byte>)
    | Text(text: seq<byte>)
    | Array(items: seq<Value>)
    | Struct(schemaId: nat, fields: seq<Field>)
    | Shared(id: nat, payload: Value)
    | Ref(refId: nat)
    | Weak(target: Option<nat>)

  datatype Field = Field(name: seq<byte>, value: Value)

  datatype WireError = UnexpectedEof | UnknownTag(tag: byte) | InvalidUtf8

  /** A decoded item and the bytes that follow it. */
  datatype Decoded<+T> = Ok(value: T, rest: seq<byte>) | Err(error: WireError) {
    predicate IsFailure() { Err? }
    function PropagateFailure<U>(): Decoded<U>
      requires Err?
    { Err(error) }
    function Extract(): (T, seq<byte>)
      requires Ok?
    { (value, rest) }
  }

  const TAG_BOOL: byte := 0x0B
  const TAG_NULL: byte := 0x0C
  const TAG_BYTES: byte := 0x0D
  const TAG_STRING: byte := 0x0E
  const TAG_ARRAY: byte := 0x0F
  const TAG_STRUCT: byte := 0x10
  const TAG_SHARED: byte := 0x20
  const TAG_REF: byte := 0x21
  const TAG_WEAK: byte := 0x22

  function Tag(k: NumKind): byte {
    match k
    case I8 => 0x01 case I16 => 0x02 case I32 => 0x03 case I64 => 0x04
    case U8 => 0x05 case U16 => 0x06 case U32 => 0x07 case U64 => 0x08
    case F32 => 0x09 case F64 => 0x0A
  }

  function Width(k: NumKind): (w: nat) {
    match k
    case I8 => 1 case U8 => 1
    case I16 => 2 case U16 => 2
    case I32 => 4 case U32 => 4 case F32 => 4
    case I64 => 8 case U64 => 8 case F64 => 8
  }

  const KINDS: seq<NumKind> := [I8, I16, I32, I64, U8, U16, U32, U64, F32, F64]

  /** The scalar kind a tag byte selects. */
  function KindOf(tag: byte): (k: Option<NumKind>)
    ensures k.Some? ==> Tag(k.value) == tag
    ensures k.None? ==> forall j :: Tag(j) != tag
  {
    if 1 <= tag <= 10 then Some(KINDS[tag - 1]) else None
  }

  lemma {:induction false} KindOfTag(k: NumKind)
    ensures KindOf(Tag(k)) == Some(k)
  {
  }

  // ----- encoding

  function EncodeName(s: seq<byte>): seq<byte> {
    Le(|s|, 4) + s
  }

  function Encode(v: Value): (s: seq<byte>)
    ensures |s| >= 1
    decreases v, 1
  {
    match v
    case Num(k, bits) => [Tag(k)] + Le(bits, Width(k))
    case Bool(b) => [TAG_BOOL, if b then 1 else 0]
    case Null => [TAG_NULL]
    case Bytes(d) => [TAG_BYTES] + EncodeName(d)
    case Text(t) => [TAG_STRING] + EncodeName(t)
    case Array(items) => [TAG_ARRAY] + Le(|items|, 4) + EncodeItems(items)
    case Struct(id, fields) => [TAG_STRUCT] + Le(id, 4) + Le(|fields|, 4) + EncodeFields(fields)
    case Shared(id, payload) => [TAG_SHARED] + Le(id, 4) + Encode(payload)
    case Ref(id) => [TAG_REF] + Le(id, 4)
    case Weak(None) => [TAG_WEAK, 0]
    case Weak(Some(id)) => [TAG_WEAK, 1] + Le(id, 4)
  }

  function EncodeItems(items: seq<Value>): seq<byte>
    decreases items, 0
  {
    if items == [] then [] else Encode(items[0]) + EncodeItems(items[1..])
  }

  function EncodeField(f: Field): seq<byte>
    decreases f, 2
  {
    EncodeName(f.name) + Encode(f.value)
  }

  function EncodeFields(fields: seq<Field>): seq<byte>
    decreases fields, 0
  {
    if fields == [] then [] else EncodeField(fields[0]) + EncodeFields(fields[1..])
  }

  // ----- decoding

  function TakeBytes(s: seq<byte>, n: nat): (r: Decoded<seq<byte>>) {
    if |s| < n then Err(UnexpectedEof) else Ok(s[..n], s[n..])
  }

  function TakeLe(s: seq<byte>, k: nat): Decoded<nat> {
    var (b, r) :- TakeBytes(s, k);
    Ok(FromLe(b), r)
  }

  function TakeName(s: seq<byte>): (r: Decoded<seq<byte>>)
    ensures r.Ok? ==> |r.rest| < |s|
  {
    var (n, r) :- TakeLe(s, 4);
    var (t, r2) :- TakeBytes(r, n);
    if ValidUtf8(t) then Ok(t, r2) else Err(InvalidUtf8)
  }

  function DecodeNum(k: NumKind, s: seq<byte>): (r: Decoded<Value>)
    ensures r.Ok? ==> |r.rest| <= |s|
  {
    var (bits, r) :- TakeLe(s, Width(k));
    Ok(Num(k, bits), r)
  }

  predicate LeafTag(tag: byte) {
    tag in {TAG_BOOL, TAG_NULL, TAG_BYTES, TAG_STRING, TAG_REF, TAG_WEAK}
  }

  /** The values without parts, after their tag. */
  function DecodeLeaf(tag: byte, s: seq<byte>): (r: Decoded<Value>)
    requires LeafTag(tag)
    ensures r.Ok? ==> |r.rest| <= |s|
  {
    if tag == TAG_BOOL then
      var (b, r) :- TakeLe(s, 1);
      Ok(Bool(b != 0), r)
    else if tag == TAG_NULL then Ok(Null, s)
    else if tag == TAG_BYTES then
      var (n, r) :- TakeLe(s, 4);
      var (d, r2) :- TakeBytes(r, n);
      Ok(Bytes(d), r2)
    else if tag == TAG_STRING then
      var (t, r) :- TakeName(s);
      Ok(Text(t), r)
    else if tag == TAG_REF then
      var (id, r) :- TakeLe(s, 4);
      Ok(Ref(id), r)
    else
      var (b, r) :- TakeBytes(s, 1);
      if b[0] == 0 then Ok(Weak(None), r)
      else if b[0] == 1 then
        var (id, r2) :- TakeLe(r, 4);
        Ok(Weak(Some(id)), r2)
      else Err(UnknownTag(b[0]))
  }

  function DecodeValue(s: seq<byte>): (r: Decoded<Value>)
    ensures r.Ok? ==> |r.rest| < |s|
    decreases |s|, 0
  {
    if s == [] then Err(UnexpectedEof) else
    var tag, s1 := s[0], s[1..];
    if KindOf(tag).Some? then DecodeNum(KindOf(tag).value, s1)
    else if LeafTag(tag) then DecodeLeaf(tag, s1)
    else if tag == TAG_ARRAY then
      var (n, r) :- TakeLe(s1, 4);
      var (items, r2) :- DecodeItems(n, r);
      Ok(Array(items), r2)
    else if tag == TAG_STRUCT then
      var (id, r) :- TakeLe(s1, 4);
      var (n, r2) :- TakeLe(r, 4);
      var (fields, r3) :- DecodeFields(n, r2);
      Ok(Struct(id, fields), r3)
    else if tag == TAG_SHARED then
      var (id, r) :- TakeLe(s1, 4);
      var (p, r2) :- DecodeValue(r);
      Ok(Shared(id, p), r2)
    else Err(UnknownTag(tag))
  }

  function DecodeItems(n: nat, s: seq<byte>): (r: Decoded<seq<Value>>)
    ensures r.Ok? ==> |r.rest| <= |s|
    decreases |s|, 1
  {
    if n == 0 then Ok([], s) else
    var (v, r) :- DecodeValue(s);
    var (vs, r2) :- DecodeItems(n - 1, r);
    Ok([v] + vs, r2)
  }

  function DecodeFields(n: nat, s: seq<byte>): (r: Decoded<seq<Field>>)
    ensures r.Ok? ==> |r.rest| <= |s|
    decreases |s|, 1
  {
    if n == 0 then Ok([], s) else
    var (name, r) :- TakeName(s);
    var (v, r2) :- DecodeValue(r);
    var (fs, r3) :- DecodeFields(n - 1, r2);
    Ok([Field(name, v)] + fs, r3)
  }

  // ----- the values the format can carry

  predicate NameFits(s: seq<byte>) {
    |s| < TWO32 && ValidUtf8(s)
  }

  predicate Fits(v: Value)
    decreases v, 1
  {
    match v
    case Num(k, bits) => bits < Pow256(Width(k))
    case Bool(_) => true
    case Null => true
    case Bytes(d) => |d| < TWO32
    case Text(t) => NameFits(t)
    case Array(items) => |items| < TWO32 && ItemsFit(items)
    case Struct(id, fields) => id < TWO32 && |fields| < TWO32 && FieldsFit(fields)
    case Shared(id, payload) => id < TWO32 && Fits(payload)
    case Ref(id) => id < TWO32
    case Weak(None) => true
    case Weak(Some(id)) => id < TWO32
  }

  predicate ItemsFit(items: seq<Value>)
    decreases items, 0
  {
    items == [] || (Fits(items[0]) && ItemsFit(items[1..]))
  }

  predicate FieldsFit(fields: seq<Field>)
    decreases fields, 0
  {
    fields == [] || (NameFits(fields[0].name) && Fits(fields[0].value) && FieldsFit(fields[1..]))
  }

  /** Values and field entries in a tree. */
  function Nodes(v: Value): nat
    decreases v, 1
  {
    match v
    case Array(items) => 1 + ItemNodes(items)
    case Struct(_, fields) => 1 + FieldNodes(fields)
    case Shared(_, payload) => 1 + Nodes(payload)
    case _ => 1
  }

  function ItemNodes(items: seq<Value>): nat
    decreases items, 0
  {
    if items == [] then 0 else Nodes(items[0]) + ItemNodes(items[1..])
  }

  function FieldNodes(fields: seq<Field>): nat
    decreases fields, 0
  {
    if fields == [] then 0 else Nodes(fields[0].value) + FieldNodes(fields[1..])
  }

  // ----- the spellings of a value: the decoder reads a bool byte as zero or not zero

  /** How the decoder reads one byte of an encoding. */
  datatype Reading = Exact | NonZero | TwoBits

  function Normal(m: Reading, b: byte): byte {
    match m
    case Exact => b
    case NonZero => if b != 0 then 1 else 0
    case TwoBits => b % 4
  }

  /** `c` is a spelling of the encoding `e`: the same bytes once each is read its way. */
  predicate Spells(c: seq<byte>, m: seq<Reading>, e: seq<byte>) {
    |c| == |m| == |e| && forall i :: 0 <= i < |c| ==> Normal(m[i], c[i]) == e[i]
  }

  function Exacts(n: nat): seq<Reading> {
    seq(n, _ => Exact)
  }

  function Mask(v: Value): (m: seq<Reading>)
    decreases v, 1
  {
    match v
    case Bool(_) => [Exact, NonZero]
    case Array(items) => Exacts(5) + ItemsMask(items)
    case Struct(_, fields) => Exacts(9) + FieldsMask(fields)
    case Shared(_, payload) => Exacts(5) + Mask(payload)
    case _ => Exacts(|Encode(v)|)
  }

  function ItemsMask(items: seq<Value>): seq<Reading>
    decreases items, 0
  {
    if items == [] then [] else Mask(items[0]) + ItemsMask(items[1..])
  }

  function FieldsMask(fields: seq<Field>): seq<Reading>
    decreases fields, 0
  {
    if fields == [] then []
    else Exacts(|EncodeName(fields[0].name)|) + Mask(fields[0].value) + FieldsMask(fields[1..])
  }
}
