/** When the byte stream of a call determines its operations. Struct probes carry no field count, so what matters is
    whether the length of a field name can be read as the start of further operations. */
module Decodability {
  import opened Bytes
  import opened Probes

  /** Some run of operations can begin with these bytes. Six tags announce bytes of any value; a bool takes a byte of
      0 or 1, and a 32-bit float takes four bytes, before the next tag. */
  predicate Spellable(bs: seq<byte>) {
    if bs == [] then true
    else if bs[0] == HASH_B then |bs| == 1 || (bs[1] <= 1 && Spellable(bs[2..]))
    else if bs[0] == HASH_F then |bs| <= 5 || Spellable(bs[5..])
    else bs[0] in {HASH_U, HASH_D, HASH_Q, HASH_G, HASH_V, HASH_Y}
  }

  /** The length prefix of a field name of this length can be read as operations. */
  predicate Confusable(n: nat) {
    Spellable(Le(n, 8))
  }

  /** No field name of a struct probe has a confusable length. */
  predicate Clear(op: Op) {
    OpFits(op) && (op.StructProbe? ==> forall i :: 0 <= i < |op.fields| ==> !Confusable(|op.fields[i].name|))
  }

  predicate AllClear(ops: seq<Op>) {
    forall i :: 0 <= i < |ops| ==> Clear(ops[i])
  }

  /** Below 2^16 bytes a name length is confusable exactly when its low byte is one of six tags; the shortest such
      name has 68 bytes. */
  lemma {:induction false} ConfusableLengths(n: nat)
    requires n < 0x1_0000
    ensures Confusable(n) <==> n % 256 in {HASH_U, HASH_D, HASH_Q, HASH_G, HASH_V, HASH_Y}
    ensures Confusable(n) ==> n >= 68
  {
    var bs := Le(n, 8);
    LeOfSmall(n / 256, 7);
    assert bs == [n % 256] + ([n / 256] + Zeros(6));
    SpellableStart(bs);
  }

  /** With nothing but zeros from the third byte on, the first byte decides. */
  lemma {:induction false} SpellableStart(bs: seq<byte>)
    requires |bs| == 8 && bs[2] == 0 && bs[5] == 0
    ensures Spellable(bs) <==> bs[0] in {HASH_U, HASH_D, HASH_Q, HASH_G, HASH_V, HASH_Y}
  {
    assert bs[2..][0] == 0 && bs[5..][0] == 0;
    assert !Spellable(bs[2..]) && !Spellable(bs[5..]);
  }

  lemma {:induction false} LeOfSmall(n: nat, k: nat)
    requires n < 256 && k >= 1
    ensures Le(n, k) == [n] + Zeros(k - 1)
  {
    LeOfZero(k - 1);
  }

  function Zeros(n: nat): (s: seq<byte>)
    ensures |s| == n
  {
    seq(n, _ => 0)
  }

  lemma {:induction false} LeOfZero(k: nat)
    ensures Le(0, k) == Zeros(k)
  {
    if k > 0 {
      LeOfZero(k - 1);
      assert [0] + Zeros(k - 1) == Zeros(k);
    }
  }

  // ----- clear operations are told from the stream

  /** What the bytes of an operation begin with. */
  predicate OpHead(p: seq<byte>) {
    p != [] &&
    if p[0] == HASH_B then |p| == 2 && p[1] <= 1
    else if p[0] == HASH_F then |p| == 5
    else p[0] in {HASH_U, HASH_D, HASH_Q, HASH_G, HASH_V, HASH_Y}
  }

  lemma {:induction false} OpBytesHead(op: Op)
    ensures OpHead(OpBytes(op))
  {
  }

  /** Spellable bytes behind the bytes of an operation that ends before them. */
  lemma {:induction false} SpellableBehind(bs: seq<byte>, p: seq<byte>, rest: seq<byte>, w: seq<byte>)
    requires OpHead(p) && p + rest == bs + w && bs != []
    requires |p| <= |bs| ==> Spellable(bs[|p|..])
    ensures Spellable(bs)
  {
    assert bs[0] == (bs + w)[0] == (p + rest)[0] == p[0];
    if |bs| > 1 && |p| > 1 {
      assert bs[1] == (bs + w)[1] == (p + rest)[1] == p[1];
    }
  }

  /** Whatever a run of operations begins with is spellable. */
  lemma {:induction false} StartIsSpellable(ops: seq<Op>, bs: seq<byte>, w: seq<byte>)
    requires OpsBytes(ops) == bs + w
    ensures Spellable(bs)
    decreases |bs|
  {
    if bs != [] {
      var p, rest := OpBytes(ops[0]), OpsBytes(ops[1..]);
      OpBytesHead(ops[0]);
      if |p| <= |bs| {
        Behind(p, rest, bs, w);
        StartIsSpellable(ops[1..], bs[|p|..], w);
      }
      SpellableBehind(bs, p, rest, w);
    }
  }

  lemma {:induction false} Behind(p: seq<byte>, rest: seq<byte>, bs: seq<byte>, w: seq<byte>)
    requires p + rest == bs + w && |p| <= |bs|
    ensures rest == bs[|p|..] + w
  {
    assert (p + rest)[|p|..] == rest && (bs + w)[|p|..] == bs[|p|..] + w;
  }

  /** Where one struct has another field, the other stream cannot go on with operations. */
  lemma {:induction false} NoOpsAtField(ops: seq<Op>, name: Name, w: seq<byte>)
    requires !Confusable(|name|)
    ensures OpsBytes(ops) != StrBytes(name) + w
  {
    CatAssoc(Le(|name|, 8), name, w);
    if OpsBytes(ops) == Le(|name|, 8) + (name + w) {
      StartIsSpellable(ops, Le(|name|, 8), name + w);
    }
  }

  predicate FieldsClear(fields: seq<NamedArg>) {
    forall i :: 0 <= i < |fields| ==>
      |fields[i].name| < TWO64 && ArgFits(fields[i].value) && !Confusable(|fields[i].name|)
  }

  lemma {:induction false} FieldsCons(fields: seq<NamedArg>, s: seq<byte>)
    requires fields != []
    ensures StructFieldsBytes(fields) + s
         == StrBytes(fields[0].name) + (ArgBytes(fields[0].value) + (StructFieldsBytes(fields[1..]) + s))
  {
    var a, b, c := StrBytes(fields[0].name), ArgBytes(fields[0].value), StructFieldsBytes(fields[1..]);
    CatAssoc(a + b, c, s);
    CatAssoc(a, b, c + s);
  }

  lemma {:induction false} FieldsDecodable(a: seq<NamedArg>, b: seq<NamedArg>, x: seq<Op>, y: seq<Op>)
    requires FieldsClear(a) && FieldsClear(b)
    requires StructFieldsBytes(a) + OpsBytes(x) == StructFieldsBytes(b) + OpsBytes(y)
    ensures EraseFields(a) == EraseFields(b) && OpsBytes(x) == OpsBytes(y)
    decreases |a|
  {
    assert [] + OpsBytes(x) == OpsBytes(x) && [] + OpsBytes(y) == OpsBytes(y);
    if a != [] {
      FieldsCons(a, OpsBytes(x));
      if b == [] {
        NoOpsAtField(y, a[0].name, ArgBytes(a[0].value) + (StructFieldsBytes(a[1..]) + OpsBytes(x)));
      } else {
        FieldsCons(b, OpsBytes(y));
        var s, t := StructFieldsBytes(a[1..]) + OpsBytes(x), StructFieldsBytes(b[1..]) + OpsBytes(y);
        StrPrefixFree(a[0].name, b[0].name, ArgBytes(a[0].value) + s, ArgBytes(b[0].value) + t);
        ArgPrefixFree(a[0].value, b[0].value, s, t);
        FieldsDecodable(a[1..], b[1..], x, y);
      }
    } else if b != [] {
      FieldsCons(b, OpsBytes(y));
      NoOpsAtField(x, b[0].name, ArgBytes(b[0].value) + (StructFieldsBytes(b[1..]) + OpsBytes(y)));
    }
  }

  /** The first operations of equal streams are one, and what follows them is equal. */
  lemma {:induction false} FirstOp(x: seq<Op>, y: seq<Op>)
    requires x != [] && y != [] && Clear(x[0]) && Clear(y[0]) && OpsBytes(x) == OpsBytes(y)
    ensures Erase(x[0]) == Erase(y[0]) && OpsBytes(x[1..]) == OpsBytes(y[1..])
  {
    var s, t := OpsBytes(x[1..]), OpsBytes(y[1..]);
    var p, q := OpBytes(x[0]), OpBytes(y[0]);
    assert p[0] == (p + s)[0] && q[0] == (q + t)[0];
    if !x[0].StructProbe? {
      OpPrefixFree(x[0], y[0], s, t);
    } else {
      var a, b := StructFieldsBytes(x[0].fields), StructFieldsBytes(y[0].fields);
      Cons3(HASH_V, StrBytes(x[0].typeName), a, s);
      Cons3(HASH_V, StrBytes(y[0].typeName), b, t);
      StrPrefixFree(x[0].typeName, y[0].typeName, a + s, b + t);
      FieldsDecodable(x[0].fields, y[0].fields, x[1..], y[1..]);
    }
  }

  lemma {:induction false} OpsDecodable(x: seq<Op>, y: seq<Op>)
    requires AllClear(x) && AllClear(y) && OpsBytes(x) == OpsBytes(y)
    ensures EraseAll(x) == EraseAll(y)
  {
    if x != [] && y != [] {
      FirstOp(x, y);
      OpsDecodable(x[1..], y[1..]);
    }
  }

  // ----- equal operations feed equal bytes

  lemma {:induction false} ErasedFieldsBytes(a: seq<NamedArg>, b: seq<NamedArg>)
    requires EraseFields(a) == EraseFields(b)
    ensures StructFieldsBytes(a) == StructFieldsBytes(b)
  {
    if a != [] {
      assert EraseFields(a)[0] == EraseFields(b)[0] && EraseFields(a)[1..] == EraseFields(b)[1..];
      assert b != [];
      ErasedArgBytes(a[0].value, b[0].value);
      ErasedFieldsBytes(a[1..], b[1..]);
    }
  }

  lemma {:induction false} ErasedArgBytes(x: Arg, y: Arg)
    requires EraseArg(x) == EraseArg(y)
    ensures ArgBytes(x) == ArgBytes(y)
  {
    if x.Plain? && y.Plain? {
      ErasedBytes(x.scalar);
      ErasedBytes(y.scalar);
    }
  }

  lemma {:induction false} OpErasedBytes(x: Op, y: Op)
    requires Erase(x) == Erase(y)
    ensures OpBytes(x) == OpBytes(y)
  {
    if x.Probe? {
      ErasedArgBytes(x.arg, y.arg);
    } else if x.FieldProbe? {
      ErasedBytes(x.value);
      ErasedBytes(y.value);
    } else if x.StructProbe? {
      ErasedFieldsBytes(x.fields, y.fields);
    }
  }

  lemma {:induction false} ErasedOpsBytes(x: seq<Op>, y: seq<Op>)
    requires EraseAll(x) == EraseAll(y)
    ensures OpsBytes(x) == OpsBytes(y)
  {
    if x != [] {
      assert EraseAll(x)[0] == EraseAll(y)[0] && EraseAll(x)[1..] == EraseAll(y)[1..];
      assert y != [];
      OpErasedBytes(x[0], y[0]);
      ErasedOpsBytes(x[1..], y[1..]);
    }
  }

  /** Two calls feed the same bytes exactly when they name the same function and do the same operations, struct probes
      included, up to log names, the raw bits of quantised floats, and the sign of 64-bit integers. */
  lemma {:induction false} UniquelyDecodable(f: Name, x: seq<Op>, g: Name, y: seq<Op>)
    requires |f| < TWO64 && |g| < TWO64 && AllClear(x) && AllClear(y)
    ensures CallBytes(f, x) == CallBytes(g, y) <==> f == g && AllAlike(x, y)
  {
    EraseIffAlike(x, y);
    if CallBytes(f, x) == CallBytes(g, y) {
      StrPrefixFree(f, g, OpsBytes(x), OpsBytes(y));
      OpsDecodable(x, y);
    }
    if f == g && EraseAll(x) == EraseAll(y) {
      ErasedOpsBytes(x, y);
    }
  }

  // ----- a confusable length does break it

  lemma {:induction false} OpsCons(op: Op, ops: seq<Op>)
    ensures OpsBytes([op] + ops) == OpBytes(op) + OpsBytes(ops)
  {
    assert ([op] + ops)[1..] == ops;
  }

  /** One operation of exactly `k` bytes. */
  function Filler(k: nat): (op: Op)
    requires k >= 9
    ensures |OpBytes(op)| == k
  {
    Probe(None, Blob(Zeros(k - 9)))
  }

  /** Every name of a struct probe is clear but for names of one length. */
  predicate ClearBut(op: Op, n: nat) {
    OpFits(op) && (op.StructProbe? ==>
      forall i :: 0 <= i < |op.fields| ==> |op.fields[i].name| == n || !Confusable(|op.fields[i].name|))
  }

  predicate AllClearBut(ops: seq<Op>, n: nat) {
    forall i :: 0 <= i < |ops| ==> ClearBut(ops[i], n)
  }

  predicate NoFields(ops: seq<Op>) {
    forall i :: 0 <= i < |ops| ==> OpFits(ops[i]) && (ops[i].StructProbe? ==> ops[i].fields == [])
  }

  /** An operation that begins with `bs`, filled up to `m` bytes behind it. */
  lemma {:induction false} Finish(bs: seq<byte>, op: Op, z: seq<byte>, m: nat) returns (ops: seq<Op>, w: seq<byte>)
    requires OpBytes(op) == bs + z && |z| + 9 <= m < TWO64 && NoFields([op])
    ensures OpsBytes(ops) == bs + w && |w| == m && NoFields(ops)
  {
    var filler := Filler(m - |z|);
    ops, w := [op] + ([filler] + []), z + OpBytes(filler);
    OpsCons(filler, []);
    OpsCons(op, [filler] + []);
    assert OpBytes(filler) + [] == OpBytes(filler);
    CatAssoc(bs, z, OpBytes(filler));
    assert [op][0] == op;
  }

  /** A length of `k` bytes whose first ones are given. */
  lemma {:induction false} Padded(bs: seq<byte>, k: nat) returns (v: nat, z: seq<byte>)
    requires |bs| <= k
    ensures v == FromLe(bs) && z == Zeros(k - |bs|) && Le(v, k) == bs + z && v < Pow256(k)
  {
    z := Zeros(k - |bs|);
    v := FromLe(bs + z);
    LeOfFromLe(bs + z);
    ZerosAddNothing(bs, k - |bs|);
  }

  lemma {:induction false} ZerosAddNothing(bs: seq<byte>, k: nat)
    ensures FromLe(bs + Zeros(k)) == FromLe(bs)
  {
    if bs != [] {
      ZerosAddNothing(bs[1..], k);
      assert (bs + Zeros(k))[1..] == bs[1..] + Zeros(k);
    } else if k > 0 {
      ZerosAddNothing(bs, k - 1);
      assert (bs + Zeros(k))[1..] == bs + Zeros(k - 1);
    }
  }

  /** Spellable bytes are the start of operations with exactly `m` more bytes, if what they announce fits in `m`. */
  lemma {:induction false} Spell(bs: seq<byte>, m: nat) returns (ops: seq<Op>, w: seq<byte>)
    requires Spellable(bs) && |bs| <= 8 && FromLe(bs) <= m && 66 <= m < TWO64
    ensures OpsBytes(ops) == bs + w && |w| == m && NoFields(ops)
    decreases |bs|
  {
    if bs == [] {
      w := OpBytes(Filler(m));
      ops := [Filler(m)] + [];
      OpsCons(Filler(m), []);
      assert bs + w == w && w + [] == w;
    } else if bs[0] == HASH_B {
      ops, w := SpellFlag(bs, m);
    } else if bs[0] == HASH_F {
      ops, w := SpellSingle(bs, m);
    } else if bs[0] == HASH_Q {
      ops, w := SpellQuant(bs, m);
    } else {
      var v, z := Padded(bs[1..], 8);
      Widths();
      assert v <= m / 256;
      var op, more := SpellLong(bs[0], v);
      assert [bs[0]] + (bs[1..] + z) == bs + z;
      assert OpBytes(op) == bs + (z + more) by {
        CatAssoc([bs[0]], Le(v, 8), more);
        CatAssoc(bs, z, more);
      }
      ops, w := Finish(bs, op, z + more, m);
    }
  }

  /** The operation that a tag and eight bytes announce. */
  lemma {:induction false} SpellLong(tag: byte, v: nat) returns (op: Op, more: seq<byte>)
    requires tag in {HASH_U, HASH_D, HASH_G, HASH_V, HASH_Y} && v < TWO64
    ensures OpBytes(op) == [tag] + Le(v, 8) + more && |more| <= v + 2 && NoFields([op])
  {
    more := if tag == HASH_U || tag == HASH_D then [] else Zeros(v);
    if tag == HASH_U {
      op := Probe(None, Plain(UInt(v)));
      assert OpBytes(op) + [] == OpBytes(op);
    } else if tag == HASH_D {
      op := Probe(None, Plain(Double(v)));
      assert OpBytes(op) + [] == OpBytes(op);
    } else if tag == HASH_G {
      op := FieldProbe(Zeros(v), Flag(false));
      more := Zeros(v) + [HASH_B, 0];
      assert [HASH_G] + StrBytes(Zeros(v)) + [HASH_B, 0] == [HASH_G] + Le(v, 8) + more;
    } else if tag == HASH_V {
      op := StructProbe(Zeros(v), []);
      assert [HASH_V] + StrBytes(Zeros(v)) + [] == [HASH_V] + Le(v, 8) + more;
    } else {
      op := Probe(None, Blob(Zeros(v)));
      assert [HASH_Y] + StrBytes(Zeros(v)) == [HASH_Y] + Le(v, 8) + more;
    }
    assert [op][0] == op;
  }

  lemma {:induction false} OneBefore(op: Op, ops: seq<Op>, bs: seq<byte>, k: nat, w: seq<byte>)
    requires k <= |bs| && OpBytes(op) == bs[..k] && OpsBytes(ops) == bs[k..] + w && NoFields([op]) && NoFields(ops)
    ensures OpsBytes([op] + ops) == bs + w && NoFields([op] + ops)
  {
    OpsCons(op, ops);
    CatAssoc(bs[..k], bs[k..], w);
    assert bs[..k] + bs[k..] == bs;
    BothNoFields(op, ops);
  }

  lemma {:induction false} BothNoFields(op: Op, ops: seq<Op>)
    requires NoFields([op]) && NoFields(ops)
    ensures NoFields([op] + ops)
  {
    assert [op][0] == op;
  }

  lemma {:induction false} SpellFlag(bs: seq<byte>, m: nat) returns (ops: seq<Op>, w: seq<byte>)
    requires bs != [] && bs[0] == HASH_B && Spellable(bs) && |bs| <= 8 && FromLe(bs) <= m && 66 <= m < TWO64
    ensures OpsBytes(ops) == bs + w && |w| == m && NoFields(ops)
    decreases |bs|, 0
  {
    if |bs| == 1 {
      assert bs + [0] == [HASH_B, 0];
      ops, w := Finish(bs, Probe(None, Plain(Flag(false))), [0], m);
    } else {
      var op := Probe(None, Plain(Flag(bs[1] == 1)));
      assert OpBytes(op) == bs[..2];
      FromLeDrops(bs, 2);
      ops, w := Spell(bs[2..], m);
      OneBefore(op, ops, bs, 2, w);
      ops := [op] + ops;
    }
  }

  lemma {:induction false} SpellSingle(bs: seq<byte>, m: nat) returns (ops: seq<Op>, w: seq<byte>)
    requires bs != [] && bs[0] == HASH_F && Spellable(bs) && |bs| <= 8 && FromLe(bs) <= m && 66 <= m < TWO64
    ensures OpsBytes(ops) == bs + w && |w| == m && NoFields(ops)
    decreases |bs|, 0
  {
    Widths();
    if |bs| <= 5 {
      var v, z := Padded(bs[1..], 4);
      assert [HASH_F] + (bs[1..] + z) == bs + z;
      ops, w := Finish(bs, Probe(None, Plain(Single(v))), z, m);
    } else {
      var v, z := Padded(bs[1..5], 4);
      var op := Probe(None, Plain(Single(v)));
      assert OpBytes(op) == bs[..5];
      FromLeDrops(bs, 5);
      ops, w := Spell(bs[5..], m);
      OneBefore(op, ops, bs, 5, w);
      ops := [op] + ops;
    }
  }

  lemma {:induction false} FromLeDrops(bs: seq<byte>, k: nat)
    requires k <= |bs|
    ensures FromLe(bs[k..]) <= FromLe(bs)
  {
    if k > 0 {
      FromLeDrops(bs[1..], k - 1);
      assert bs[1..][k - 1..] == bs[k..];
    } else {
      assert bs[0..] == bs;
    }
  }

  lemma {:induction false} SpellQuant(bs: seq<byte>, m: nat) returns (ops: seq<Op>, w: seq<byte>)
    requires bs != [] && bs[0] == HASH_Q && |bs| <= 8 && 66 <= m < TWO64
    ensures OpsBytes(ops) == bs + w && |w| == m && NoFields(ops)
  {
    Widths();
    var z := Zeros(13 - |bs|);
    var p := bs[1..] + z;
    LeOfFromLe(p[..4]);
    LeOfFromLe(p[4..]);
    var quantum, level := FromLe(p[..4]), FromLe(p[4..]);
    var op := Quant(0, quantum, if level < 0x8000_0000_0000_0000 then level else level - TWO64);
    assert [HASH_Q] + p[..4] + p[4..] == bs + z;
    ops, w := Finish(bs, op, z, m);
  }

  lemma {:induction false} FieldOfName(name: Name)
    ensures StructFieldsBytes([NamedArg(name, Plain(Flag(false)))]) == StrBytes(name) + [HASH_B, 0]
  {
    var fields := [NamedArg(name, Plain(Flag(false)))];
    assert fields[1..] == [] && StructFieldsBytes([]) == [];
    assert StrBytes(name) + [HASH_B, 0] + [] == StrBytes(name) + [HASH_B, 0];
  }

  /** For every confusable length there is a field name of that length that spells other operations. */
  lemma {:induction false} ConfusableNameExists(n: nat) returns (x: seq<Op>, y: seq<Op>)
    requires n < TWO64 && Confusable(n)
    ensures AllClearBut(x, n) && AllClearBut(y, n) && OpsBytes(x) == OpsBytes(y) && !AllAlike(x, y)
  {
    Widths();
    FromLeOfLe(n, 8);
    assert n % 256 == Le(n, 8)[0];
    var ops, name := Spell(Le(n, 8), n);
    var open, flag := StructProbe([], []), Probe(None, Plain(Flag(false)));
    var whole := StructProbe([], [NamedArg(name, Plain(Flag(false)))]);
    x, y := [whole] + [], [open] + (ops + [flag]);
    OpsCons(whole, []);
    OpsCons(open, ops + [flag]);
    OpsPush(ops, flag);
    FieldOfName(name);
    assert OpBytes(open) == [HASH_V] + StrBytes([]);
    CatAssoc(OpBytes(open), StrBytes(name), [HASH_B, 0]);
    assert OpsBytes(x) == OpBytes(whole);
    assert x[0] == whole && y[0] == open;
  }

  /** Which name lengths matter: streams that allow field names of one more length are still uniquely decodable exactly
      when that length is not confusable. */
  lemma {:induction false} NameLengthMatters(n: nat)
    requires n < TWO64
    ensures Confusable(n)
       <==> exists x, y :: AllClearBut(x, n) && AllClearBut(y, n) && OpsBytes(x) == OpsBytes(y) && !AllAlike(x, y)
  {
    if Confusable(n) {
      var x, y := ConfusableNameExists(n);
    } else {
      forall x, y | AllClearBut(x, n) && AllClearBut(y, n) && OpsBytes(x) == OpsBytes(y)
        ensures AllAlike(x, y)
      {
        StillClear(x, n);
        StillClear(y, n);
        OpsDecodable(x, y);
        EraseIffAlike(x, y);
      }
    }
  }

  lemma {:induction false} StillClear(ops: seq<Op>, n: nat)
    requires AllClearBut(ops, n) && !Confusable(n)
    ensures AllClear(ops)
  {
    forall i | 0 <= i < |ops| ensures Clear(ops[i]) {
      assert ClearBut(ops[i], n);
    }
  }

  /** The name that spells an integer probe of zero and a bytes probe of `data`. */
  function PunName(data: seq<byte>): Name {
    [0] + ([HASH_Y] + StrBytes(data))
  }

  lemma {:induction false} PunNameBytes(data: seq<byte>)
    requires |data| == 75
    ensures StrBytes(PunName(data)) == [HASH_U] + Le(0, 8) + ([HASH_Y] + StrBytes(data))
  {
    LeOfSmall(85, 8);
    LeOfZero(8);
    assert Zeros(7) + [0] == Zeros(8);
    CatAssoc([HASH_U] + Zeros(7), [0], [HASH_Y] + StrBytes(data));
  }

  /** A field whose 85-byte name spells two probes: one operation has the bytes of four. */
  lemma {:induction false} StructProbesAmbiguous(data: seq<byte>) returns (x: seq<Op>, y: seq<Op>)
    requires |data| == 75
    ensures |x| == 1 && |y| == 4 && OpsBytes(x) == OpsBytes(y)
  {
    var field := NamedArg(PunName(data), Plain(Flag(false)));
    var open, zero, blob, flag :=
      StructProbe([], []), Probe(None, Plain(UInt(0))), Probe(None, Blob(data)), Probe(None, Plain(Flag(false)));
    x := [StructProbe([], [field])] + [];
    y := [open] + ([zero] + ([blob] + ([flag] + [])));
    OpsCons(StructProbe([], [field]), []);
    OpsCons(flag, []);
    OpsCons(blob, [flag] + []);
    OpsCons(zero, [blob] + ([flag] + []));
    OpsCons(open, [zero] + ([blob] + ([flag] + [])));
    PunNameBytes(data);
    FieldOfName(field.name);
    var rest := OpBytes(flag);
    assert OpsBytes([zero] + ([blob] + ([flag] + []))) == StrBytes(field.name) + rest;
    assert OpBytes(open) == [HASH_V] + StrBytes([]);
  }
}
