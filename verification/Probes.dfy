/** Probe operations, the bytes each feeds to the running hash, and the unique decodability of
    that byte stream. */
module Probes {
  import opened Bytes

  type Name = seq<byte>

  datatype Scalar =
    | UInt(u: u64)
    | SInt(i: i64)
    | Flag(b: bool)
    | Single(bits32: u32)
    | Double(bits64: u64)

  datatype Arg = Plain(scalar: Scalar) | Blob(data: seq<byte>)

  datatype NamedArg = NamedArg(name: Name, value: Arg)

  /** One probe operation on the input or the output of a call. */
  datatype Op =
    | Probe(name: Option<Name>, arg: Arg)
    | Quant(bits: u32, quantum: u32, level: i64)
    | FieldProbe(field: Name, value: Scalar)
    | StructProbe(typeName: Name, fields: seq<NamedArg>)

  const HASH_U: byte := 0x55
  const HASH_B: byte := 0x42
  const HASH_F: byte := 0x46
  const HASH_D: byte := 0x44
  const HASH_Q: byte := 0x51
  const HASH_Y: byte := 0x59
  const HASH_G: byte := 0x47
  const HASH_V: byte := 0x56

  // ----- the bytes fed to the hash

  function StrBytes(s: seq<byte>): seq<byte> {
    Le(|s|, 8) + s
  }

  function ScalarBytes(s: Scalar): seq<byte> {
    match s
    case UInt(u) => [HASH_U] + Le(u, 8)
    case SInt(i) => [HASH_U] + Le(AsU64(i), 8)
    case Flag(b) => [HASH_B, if b then 1 else 0]
    case Single(bits) => [HASH_F] + Le(bits, 4)
    case Double(bits) => [HASH_D] + Le(bits, 8)
  }

  function ArgBytes(a: Arg): seq<byte> {
    match a
    case Plain(s) => ScalarBytes(s)
    case Blob(d) => [HASH_Y] + StrBytes(d)
  }

  function StructFieldsBytes(fields: seq<NamedArg>): seq<byte> {
    if fields == [] then []
    else StrBytes(fields[0].name) + ArgBytes(fields[0].value) + StructFieldsBytes(fields[1..])
  }

  function OpBytes(op: Op): seq<byte> {
    match op
    case Probe(_, a) => ArgBytes(a)
    case Quant(_, quantum, level) => [HASH_Q] + Le(quantum, 4) + Le(AsU64(level), 8)
    case FieldProbe(field, value) => [HASH_G] + StrBytes(field) + ScalarBytes(value)
    case StructProbe(t, fields) => [HASH_V] + StrBytes(t) + StructFieldsBytes(fields)
  }

  function OpsBytes(ops: seq<Op>): seq<byte> {
    if ops == [] then [] else OpBytes(ops[0]) + OpsBytes(ops[1..])
  }

  /** Everything one side of a call feeds to its hash. */
  function CallBytes(function_: Name, ops: seq<Op>): seq<byte> {
    StrBytes(function_) + OpsBytes(ops)
  }

  // ----- what the stream remembers

  /** An integer is remembered as its 64-bit pattern, so a signed and an unsigned probe of the same
      pattern are one. */
  function EraseScalar(s: Scalar): Scalar {
    if s.SInt? then UInt(AsU64(s.i)) else s
  }

  function EraseArg(a: Arg): Arg {
    if a.Plain? then Plain(EraseScalar(a.scalar)) else a
  }

  function EraseFields(fields: seq<NamedArg>): (r: seq<NamedArg>)
    ensures |r| == |fields|
  {
    if fields == [] then [] else [NamedArg(fields[0].name, EraseArg(fields[0].value))] + EraseFields(fields[1..])
  }

  /** What the stream keeps of an operation: not the log name, not the signedness, and of a
      quantised float only the quantum and the level. */
  function Erase(op: Op): Op {
    match op
    case Probe(_, a) => Probe(None, EraseArg(a))
    case Quant(_, quantum, level) => Quant(0, quantum, level)
    case FieldProbe(field, value) => FieldProbe(field, EraseScalar(value))
    case StructProbe(t, fields) => StructProbe(t, EraseFields(fields))
  }

  function EraseAll(ops: seq<Op>): (r: seq<Op>)
    ensures |r| == |ops|
  {
    if ops == [] then [] else [Erase(ops[0])] + EraseAll(ops[1..])
  }

  /** Lengths fit the eight length bytes. */
  predicate ArgFits(a: Arg) {
    a.Blob? ==> |a.data| < TWO64
  }

  predicate OpFits(op: Op) {
    match op
    case Probe(_, a) => ArgFits(a)
    case Quant(_, _, _) => true
    case FieldProbe(field, _) => |field| < TWO64
    case StructProbe(t, fields) =>
      |t| < TWO64 && forall i :: 0 <= i < |fields| ==> |fields[i].name| < TWO64 && ArgFits(fields[i].value)
  }

  /** No field of a struct probe is a byte string. */
  predicate NoBytes(fields: seq<NamedArg>) {
    forall i :: 0 <= i < |fields| ==> fields[i].value.Plain?
  }

  lemma {:induction false} OpsPush(ops: seq<Op>, op: Op)
    ensures OpsBytes(ops + [op]) == OpsBytes(ops) + OpBytes(op)
  {
    if ops == [] {
      assert [op][1..] == [] && OpBytes(op) + [] == OpBytes(op) && [] + [op] == [op];
    } else {
      assert (ops + [op])[1..] == ops[1..] + [op];
      OpsPush(ops[1..], op);
      CatAssoc(OpBytes(ops[0]), OpsBytes(ops[1..]), OpBytes(op));
    }
  }

  // ----- operations that carry their own extent: all but struct probes

  lemma {:induction false} SplitEqual(a: seq<byte>, s: seq<byte>, b: seq<byte>, t: seq<byte>)
    requires |a| == |b| && a + s == b + t
    ensures a == b && s == t
  {
    assert a == (a + s)[..|a|] && b == (b + t)[..|b|];
    assert s == (a + s)[|a|..] && t == (b + t)[|b|..];
  }

  lemma {:induction false} LePrefixFree(m: nat, n: nat, k: nat, s: seq<byte>, t: seq<byte>)
    requires m < Pow256(k) && n < Pow256(k) && Le(m, k) + s == Le(n, k) + t
    ensures m == n && s == t
  {
    SplitEqual(Le(m, k), s, Le(n, k), t);
    FromLeOfLe(m, k);
    FromLeOfLe(n, k);
  }

  lemma {:induction false} StrPrefixFree(a: seq<byte>, b: seq<byte>, s: seq<byte>, t: seq<byte>)
    requires |a| < TWO64 && |b| < TWO64 && StrBytes(a) + s == StrBytes(b) + t
    ensures a == b && s == t
  {
    Widths();
    CatAssoc(Le(|a|, 8), a, s);
    CatAssoc(Le(|b|, 8), b, t);
    LePrefixFree(|a|, |b|, 8, a + s, b + t);
    SplitEqual(a, s, b, t);
  }

  lemma {:induction false} AsU64Injective(x: i64, y: i64)
    ensures AsU64(x) < TWO64 && (AsU64(x) == AsU64(y) ==> x == y)
  {
  }

  /** The erased scalar is what the bytes are made of. */
  lemma {:induction false} ErasedBytes(s: Scalar)
    ensures ScalarBytes(EraseScalar(s)) == ScalarBytes(s)
  {
  }

  lemma {:induction false} TagPrefix(tag: byte, body: seq<byte>, s: seq<byte>)
    ensures ([tag] + body + s)[0] == tag && ([tag] + body + s)[1..] == body + s
  {
  }

  lemma {:induction false} ScalarPrefixFree(x: Scalar, y: Scalar, s: seq<byte>, t: seq<byte>)
    requires ScalarBytes(x) + s == ScalarBytes(y) + t
    ensures EraseScalar(x) == EraseScalar(y) && s == t
  {
    ErasedBytes(x);
    ErasedBytes(y);
    var a, b := EraseScalar(x), EraseScalar(y);
    var p, q := ScalarBytes(a), ScalarBytes(b);
    assert p[0] == (p + s)[0] && q[0] == (q + t)[0];
    Widths();
    match a {
      case UInt(u) =>
        TagPrefix(HASH_U, Le(u, 8), s);
        TagPrefix(HASH_U, Le(b.u, 8), t);
        LePrefixFree(u, b.u, 8, s, t);
      case Flag(f) =>
        SplitEqual(p, s, q, t);
        assert p[1] == q[1];
      case Single(bits) =>
        TagPrefix(HASH_F, Le(bits, 4), s);
        TagPrefix(HASH_F, Le(b.bits32, 4), t);
        LePrefixFree(bits, b.bits32, 4, s, t);
      case Double(bits) =>
        TagPrefix(HASH_D, Le(bits, 8), s);
        TagPrefix(HASH_D, Le(b.bits64, 8), t);
        LePrefixFree(bits, b.bits64, 8, s, t);
    }
  }

  lemma {:induction false} ArgPrefixFree(x: Arg, y: Arg, s: seq<byte>, t: seq<byte>)
    requires ArgFits(x) && ArgFits(y) && ArgBytes(x) + s == ArgBytes(y) + t
    ensures EraseArg(x) == EraseArg(y) && s == t
  {
    var p, q := ArgBytes(x), ArgBytes(y);
    assert p[0] == (p + s)[0] && q[0] == (q + t)[0];
    if x.Plain? {
      ScalarPrefixFree(x.scalar, y.scalar, s, t);
    } else {
      TagPrefix(HASH_Y, StrBytes(x.data), s);
      TagPrefix(HASH_Y, StrBytes(y.data), t);
      StrPrefixFree(x.data, y.data, s, t);
    }
  }

  /** No operation other than a struct probe continues another one. */
  lemma {:induction false} OpPrefixFree(x: Op, y: Op, s: seq<byte>, t: seq<byte>)
    requires OpFits(x) && OpFits(y) && !x.StructProbe? && OpBytes(x) + s == OpBytes(y) + t
    ensures Erase(x) == Erase(y) && s == t
  {
    var p, q := OpBytes(x), OpBytes(y);
    assert p[0] == (p + s)[0] && q[0] == (q + t)[0];
    if x.Probe? {
      ArgPrefixFree(x.arg, y.arg, s, t);
    } else if x.Quant? {
      QuantPrefixFree(x, y, s, t);
    } else {
      FieldPrefixFree(x, y, s, t);
    }
  }

  lemma {:induction false} Cons3(tag: byte, a: seq<byte>, b: seq<byte>, s: seq<byte>)
    ensures ([tag] + a + b + s)[1..] == a + (b + s)
  {
  }

  lemma {:induction false} QuantPrefixFree(x: Op, y: Op, s: seq<byte>, t: seq<byte>)
    requires x.Quant? && y.Quant? && OpBytes(x) + s == OpBytes(y) + t
    ensures Erase(x) == Erase(y) && s == t
  {
    Widths();
    var a, b := AsU64(x.level), AsU64(y.level);
    AsU64Injective(x.level, y.level);
    AsU64Injective(y.level, x.level);
    Cons3(HASH_Q, Le(x.quantum, 4), Le(a, 8), s);
    Cons3(HASH_Q, Le(y.quantum, 4), Le(b, 8), t);
    LePrefixFree(x.quantum, y.quantum, 4, Le(a, 8) + s, Le(b, 8) + t);
    LePrefixFree(a, b, 8, s, t);
  }

  lemma {:induction false} FieldPrefixFree(x: Op, y: Op, s: seq<byte>, t: seq<byte>)
    requires x.FieldProbe? && y.FieldProbe? && |x.field| < TWO64 && |y.field| < TWO64
    requires OpBytes(x) + s == OpBytes(y) + t
    ensures Erase(x) == Erase(y) && s == t
  {
    var a, b := ScalarBytes(x.value), ScalarBytes(y.value);
    Cons3(HASH_G, StrBytes(x.field), a, s);
    Cons3(HASH_G, StrBytes(y.field), b, t);
    StrPrefixFree(x.field, y.field, a + s, b + t);
    ScalarPrefixFree(x.value, y.value, s, t);
  }

  // ----- the stream, operation by operation

  /** The bytes of a scalar: a letter, and the value in little-endian order; a signed integer is fed as the unsigned one
      that differs by a multiple of 2^64. */
  ghost predicate IsScalarBytes(b: seq<byte>, s: Scalar) {
    match s
    case UInt(u) => b == ['U' as int] + Le(u, 8)
    case SInt(x) => exists u: u64 :: (x - u) % 0x1_0000_0000_0000_0000 == 0 && b == ['U' as int] + Le(u, 8)
    case Flag(f) => b == ['B' as int, if f then 1 else 0]
    case Single(bits) => b == ['F' as int] + Le(bits, 4)
    case Double(bits) => b == ['D' as int] + Le(bits, 8)
  }

  lemma {:induction false} ScalarIs(s: Scalar)
    ensures IsScalarBytes(ScalarBytes(s), s)
  {
    if s.SInt? {
      var u := AsU64(s.i);
      AsU64Is(s.i, u);
      assert ScalarBytes(s) == ['U' as int] + Le(u, 8);
    }
  }

  /** The bytes that each operation feeds to the hash, letter, lengths and values. */
  lemma {:induction false} OpIs(op: Op)
    ensures match op
            case Probe(_, Plain(s)) => IsScalarBytes(OpBytes(op), s)
            case Probe(_, Blob(data)) => OpBytes(op) == ['Y' as int] + (Le(|data|, 8) + data)
            case Quant(_, quantum, level) =>
              exists u: u64 :: (level - u) % 0x1_0000_0000_0000_0000 == 0
                               && OpBytes(op) == ['Q' as int] + Le(quantum, 4) + Le(u, 8)
            case FieldProbe(field, value) =>
              exists b :: IsScalarBytes(b, value) && OpBytes(op) == ['G' as int] + (Le(|field|, 8) + field) + b
            case StructProbe(name, fields) =>
              OpBytes(op) == ['V' as int] + (Le(|name|, 8) + name) + StructFieldsBytes(fields)
  {
    match op {
      case Probe(_, Plain(s)) => ScalarIs(s);
      case Quant(_, quantum, level) =>
        var u := AsU64(level);
        AsU64Is(level, u);
        assert OpBytes(op) == ['Q' as int] + Le(quantum, 4) + Le(u, 8);
      case FieldProbe(field, value) =>
        var b := ScalarBytes(value);
        ScalarIs(value);
        assert OpBytes(op) == ['G' as int] + (Le(|field|, 8) + field) + b;
      case _ =>
    }
  }

  // ----- which operations feed the same bytes

  /** A signed integer feeds the bytes of the unsigned one that differs by a multiple of 2^64. */
  lemma {:induction false} SignedBytes(x: i64, u: u64)
    ensures ScalarBytes(SInt(x)) == ScalarBytes(UInt(u)) <==> (x - u) % 0x1_0000_0000_0000_0000 == 0
  {
    Widths();
    AsU64Is(x, u);
    if Le(AsU64(x), 8) == Le(u, 8) {
      LePrefixFree(AsU64(x), u, 8, [], []);
    }
    SplitTag(HASH_U, Le(AsU64(x), 8), Le(u, 8));
  }

  lemma {:induction false} SplitTag(tag: byte, a: seq<byte>, b: seq<byte>)
    ensures [tag] + a == [tag] + b <==> a == b
  {
    assert ([tag] + a)[1..] == a && ([tag] + b)[1..] == b;
  }

  /** Equal but for the sign of a 64-bit integer. */
  predicate AlikeScalar(x: Scalar, y: Scalar) {
    match (x, y)
    case (UInt(a), SInt(b)) => (b - a) % 0x1_0000_0000_0000_0000 == 0
    case (SInt(a), UInt(b)) => (a - b) % 0x1_0000_0000_0000_0000 == 0
    case _ => x == y
  }

  predicate AlikeArg(x: Arg, y: Arg) {
    if x.Plain? && y.Plain? then AlikeScalar(x.scalar, y.scalar) else x == y
  }

  predicate AlikeFields(x: seq<NamedArg>, y: seq<NamedArg>) {
    |x| == |y| && forall i :: 0 <= i < |x| ==> x[i].name == y[i].name && AlikeArg(x[i].value, y[i].value)
  }

  /** Equal but for log names, the raw bits of a quantised float, and the sign of 64-bit integers. */
  predicate Alike(x: Op, y: Op) {
    match (x, y)
    case (Probe(_, a), Probe(_, b)) => AlikeArg(a, b)
    case (Quant(_, q, l), Quant(_, r, m)) => q == r && l == m
    case (FieldProbe(f, a), FieldProbe(g, b)) => f == g && AlikeScalar(a, b)
    case (StructProbe(t, fields), StructProbe(u, others)) => t == u && AlikeFields(fields, others)
    case _ => false
  }

  predicate AllAlike(x: seq<Op>, y: seq<Op>) {
    |x| == |y| && forall i :: 0 <= i < |x| ==> Alike(x[i], y[i])
  }

  lemma {:induction false} ScalarsAlike(x: Scalar, y: Scalar)
    ensures EraseScalar(x) == EraseScalar(y) <==> AlikeScalar(x, y)
  {
    if x.SInt? && y.UInt? {
      AsU64Is(x.i, y.u);
    } else if x.UInt? && y.SInt? {
      AsU64Is(y.i, x.u);
    } else if x.SInt? && y.SInt? {
      AsU64Injective(x.i, y.i);
    }
  }

  lemma {:induction false} ArgsAlike(x: Arg, y: Arg)
    ensures EraseArg(x) == EraseArg(y) <==> AlikeArg(x, y)
  {
    if x.Plain? && y.Plain? {
      ScalarsAlike(x.scalar, y.scalar);
    }
  }

  lemma {:induction false} FieldsAlike(x: seq<NamedArg>, y: seq<NamedArg>)
    ensures EraseFields(x) == EraseFields(y) <==> AlikeFields(x, y)
  {
    if x != [] && y != [] {
      ArgsAlike(x[0].value, y[0].value);
      FieldsAlike(x[1..], y[1..]);
      var a, b := NamedArg(x[0].name, EraseArg(x[0].value)), NamedArg(y[0].name, EraseArg(y[0].value));
      SameCons(a, EraseFields(x[1..]), b, EraseFields(y[1..]));
      FirstFieldsAlike(x, y);
    }
  }

  lemma {:induction false} FirstFieldsAlike(x: seq<NamedArg>, y: seq<NamedArg>)
    requires x != [] && y != []
    ensures AlikeFields(x, y) <==>
            x[0].name == y[0].name && AlikeArg(x[0].value, y[0].value) && AlikeFields(x[1..], y[1..])
  {
    assert forall i :: 0 < i < |x| ==> x[i] == x[1..][i - 1];
    assert forall i :: 0 < i < |y| ==> y[i] == y[1..][i - 1];
    assert forall i :: 0 <= i < |x| - 1 ==> x[1..][i] == x[i + 1];
    assert forall i :: 0 <= i < |y| - 1 ==> y[1..][i] == y[i + 1];
  }

  lemma {:induction false} SameCons<T>(a: T, s: seq<T>, b: T, t: seq<T>)
    ensures [a] + s == [b] + t <==> a == b && s == t
  {
    assert ([a] + s)[0] == a && ([a] + s)[1..] == s && ([b] + t)[0] == b && ([b] + t)[1..] == t;
  }

  lemma {:induction false} OpsAlike(x: Op, y: Op)
    ensures Erase(x) == Erase(y) <==> Alike(x, y)
  {
    if x.Probe? && y.Probe? {
      ArgsAlike(x.arg, y.arg);
    } else if x.FieldProbe? && y.FieldProbe? {
      ScalarsAlike(x.value, y.value);
    } else if x.StructProbe? && y.StructProbe? {
      FieldsAlike(x.fields, y.fields);
    }
  }

  /** Erasing what the stream does not keep leaves the same exactly of operations that are alike. */
  lemma {:induction false} EraseIffAlike(x: seq<Op>, y: seq<Op>)
    ensures EraseAll(x) == EraseAll(y) <==> AllAlike(x, y)
  {
    if x != [] && y != [] {
      OpsAlike(x[0], y[0]);
      EraseIffAlike(x[1..], y[1..]);
      SameCons(Erase(x[0]), EraseAll(x[1..]), Erase(y[0]), EraseAll(y[1..]));
      FirstOpsAlike(x, y);
    }
  }

  lemma {:induction false} FirstOpsAlike(x: seq<Op>, y: seq<Op>)
    requires x != [] && y != []
    ensures AllAlike(x, y) <==> Alike(x[0], y[0]) && AllAlike(x[1..], y[1..])
  {
    assert forall i :: 0 < i < |x| ==> x[i] == x[1..][i - 1];
    assert forall i :: 0 < i < |y| ==> y[i] == y[1..][i - 1];
    assert forall i :: 0 <= i < |x| - 1 ==> x[1..][i] == x[i + 1];
    assert forall i :: 0 <= i < |y| - 1 ==> y[1..][i] == y[i + 1];
  }
}
