/** What the decoder accepts, exactly: a byte string decodes to a value and a tail if and only
    if it is a spelling of that value followed by that tail. */
module WireProofs {
  import opened Bytes
  import opened Wire

  // ----- spellings compose

  lemma {:induction false} SpellsConcat(c: seq<byte>, m: seq<Reading>, e: seq<byte>,
                     c2: seq<byte>, m2: seq<Reading>, e2: seq<byte>)
    requires Spells(c, m, e) && Spells(c2, m2, e2)
    ensures Spells(c + c2, m + m2, e + e2)
  {
  }

  lemma {:induction false} SpellsSplit(c: seq<byte>, m: seq<Reading>, e: seq<byte>, m2: seq<Reading>, e2: seq<byte>)
    requires |m| == |e| && Spells(c, m + m2, e + e2)
    ensures |m| <= |c|
    ensures Spells(c[..|m|], m, e) && Spells(c[|m|..], m2, e2)
    ensures c == c[..|m|] + c[|m|..]
  {
    forall i | 0 <= i < |m2| ensures Normal(m2[i], c[|m|..][i]) == e2[i] {
      assert (m + m2)[|m| + i] == m2[i] && (e + e2)[|m| + i] == e2[i];
    }
    forall i | 0 <= i < |m| ensures Normal(m[i], c[..|m|][i]) == e[i] {
      assert (m + m2)[i] == m[i] && (e + e2)[i] == e[i];
    }
  }

  lemma {:induction false} SpellsExact(c: seq<byte>, e: seq<byte>)
    ensures Spells(c, Exacts(|e|), e) <==> c == e
  {
  }

  /** An exactly read head followed by a spelled part. */
  lemma {:induction false} SpellsHead(head: seq<byte>, c: seq<byte>, m: seq<Reading>, e: seq<byte>)
    requires Spells(c, m, e)
    ensures Spells(head + c, Exacts(|head|) + m, head + e)
  {
    SpellsConcat(head, Exacts(|head|), head, c, m, e);
  }

  lemma {:induction false} SpellsHeadSplit(c: seq<byte>, head: seq<byte>, m: seq<Reading>, e: seq<byte>)
    requires Spells(c, Exacts(|head|) + m, head + e)
    ensures |head| <= |c| && c == head + c[|head|..] && Spells(c[|head|..], m, e)
  {
    SpellsSplit(c, Exacts(|head|), head, m, e);
    SpellsExact(c[..|head|], head);
  }

  // ----- the fixed parts

  lemma {:induction false} TakeLeSound(s: seq<byte>, k: nat)
    requires TakeLe(s, k).Ok?
    ensures s == Le(TakeLe(s, k).value, k) + TakeLe(s, k).rest
    ensures TakeLe(s, k).value < Pow256(k)
  {
    LeOfFromLe(s[..k]);
  }

  lemma {:induction false} TakeLeComplete(n: nat, k: nat, tail: seq<byte>)
    requires n < Pow256(k)
    ensures TakeLe(Le(n, k) + tail, k) == Ok(n, tail)
  {
    FromLeOfLe(n, k);
    assert (Le(n, k) + tail)[..k] == Le(n, k);
  }

  lemma {:induction false} TakeBlobSound(s: seq<byte>)
    requires TakeLe(s, 4).Ok? && TakeBytes(TakeLe(s, 4).rest, TakeLe(s, 4).value).Ok?
    ensures var b := TakeBytes(TakeLe(s, 4).rest, TakeLe(s, 4).value);
            s == EncodeName(b.value) + b.rest && |b.value| < TWO32
  {
    Widths();
    TakeLeSound(s, 4);
  }

  lemma {:induction false} TakeBlobComplete(d: seq<byte>, tail: seq<byte>)
    requires |d| < TWO32
    ensures TakeLe(EncodeName(d) + tail, 4) == Ok(|d|, d + tail)
    ensures TakeBytes(d + tail, |d|) == Ok(d, tail)
  {
    Widths();
    TakeLeComplete(|d|, 4, d + tail);
    assert EncodeName(d) + tail == Le(|d|, 4) + (d + tail);
  }

  // ----- soundness

  predicate IsTree(v: Value) {
    v.Array? || v.Struct? || v.Shared?
  }

  /** The bytes an accepted item was read from. */
  function Consumed(s: seq<byte>, rest: seq<byte>): seq<byte>
    requires |rest| <= |s|
  {
    s[..|s| - |rest|]
  }

  lemma {:induction false} ConsumedIs(s: seq<byte>, c: seq<byte>, rest: seq<byte>)
    requires s == c + rest
    ensures Consumed(s, rest) == c
  {
  }

  /** What acceptance of `v` with `rest` left over says about the input. */
  predicate ReadFrom(s: seq<byte>, rest: seq<byte>, m: seq<Reading>, e: seq<byte>, nodes: nat) {
    && |rest| <= |s|
    && s == Consumed(s, rest) + rest
    && Spells(Consumed(s, rest), m, e)
    && nodes <= |Consumed(s, rest)|
  }

  lemma {:induction false} ReadFromIntro(s: seq<byte>, c: seq<byte>, rest: seq<byte>, m: seq<Reading>, e: seq<byte>, nodes: nat)
    requires s == c + rest && Spells(c, m, e) && nodes <= |c|
    ensures ReadFrom(s, rest, m, e, nodes)
  {
    ConsumedIs(s, c, rest);
  }

  /** Reading an exact head and then a part reads the whole. */
  lemma {:induction false} ReadFromHead(s: seq<byte>, head: seq<byte>, s2: seq<byte>, rest: seq<byte>,
                     m: seq<Reading>, e: seq<byte>, nodes: nat)
    requires s == head + s2 && head != [] && ReadFrom(s2, rest, m, e, nodes)
    ensures ReadFrom(s, rest, Exacts(|head|) + m, head + e, 1 + nodes)
  {
    var c := Consumed(s2, rest);
    SpellsHead(head, c, m, e);
    assert s == (head + c) + rest;
    ReadFromIntro(s, head + c, rest, Exacts(|head|) + m, head + e, 1 + nodes);
  }

  lemma {:induction false} ReadFromThen(s: seq<byte>, mid: seq<byte>, rest: seq<byte>, m: seq<Reading>, e: seq<byte>, nodes: nat,
                     m2: seq<Reading>, e2: seq<byte>, nodes2: nat)
    requires ReadFrom(s, mid, m, e, nodes) && ReadFrom(mid, rest, m2, e2, nodes2)
    ensures ReadFrom(s, rest, m + m2, e + e2, nodes + nodes2)
  {
    var c, c2 := Consumed(s, mid), Consumed(mid, rest);
    SpellsConcat(c, m, e, c2, m2, e2);
    assert s == (c + c2) + rest;
    ReadFromIntro(s, c + c2, rest, m + m2, e + e2, nodes + nodes2);
  }

  /** A value that is read exactly, without parts. */
  lemma {:induction false} ReadFromExact(s: seq<byte>, e: seq<byte>, rest: seq<byte>)
    requires s == e + rest && e != []
    ensures ReadFrom(s, rest, Exacts(|e|), e, 1)
  {
    SpellsExact(e, e);
    ReadFromIntro(s, e, rest, Exacts(|e|), e, 1);
  }

  lemma {:induction false} NumSound(k: NumKind, s: seq<byte>)
    requires DecodeNum(k, s).Ok?
    ensures var d := DecodeNum(k, s);
            Fits(d.value) && ReadFrom([Tag(k)] + s, d.rest, Mask(d.value), Encode(d.value), Nodes(d.value))
  {
    var d := DecodeNum(k, s);
    TakeLeSound(s, Width(k));
    assert [Tag(k)] + s == Encode(d.value) + d.rest;
    ReadFromExact([Tag(k)] + s, Encode(d.value), d.rest);
  }

  lemma {:induction false} BoolSound(s: seq<byte>)
    requires DecodeLeaf(TAG_BOOL, s).Ok?
    ensures var d := DecodeLeaf(TAG_BOOL, s);
            ReadFrom([TAG_BOOL] + s, d.rest, Mask(d.value), Encode(d.value), 1)
  {
    var d := DecodeLeaf(TAG_BOOL, s);
    assert s[..1] == [s[0]] && FromLe([s[0]]) == s[0];
    assert [TAG_BOOL] + s == [TAG_BOOL, s[0]] + d.rest;
    ReadFromIntro([TAG_BOOL] + s, [TAG_BOOL, s[0]], d.rest, Mask(d.value), Encode(d.value), 1);
  }

  lemma {:induction false} BlobSound(tag: byte, s: seq<byte>)
    requires tag == TAG_BYTES || tag == TAG_STRING
    requires DecodeLeaf(tag, s).Ok?
    ensures var d := DecodeLeaf(tag, s);
            Fits(d.value) && !d.value.Bool? && !IsTree(d.value) && [tag] + s == Encode(d.value) + d.rest
  {
    TakeBlobSound(s);
    var d := DecodeLeaf(tag, s);
    var data := if tag == TAG_BYTES then d.value.data else d.value.text;
    assert s == EncodeName(data) + d.rest;
    CatAssoc([tag], EncodeName(data), d.rest);
  }

  lemma {:induction false} WeakSound(s: seq<byte>)
    requires DecodeLeaf(TAG_WEAK, s).Ok?
    ensures var d := DecodeLeaf(TAG_WEAK, s);
            Fits(d.value) && d.value.Weak? && [TAG_WEAK] + s == Encode(d.value) + d.rest
  {
    Widths();
    if s[0] == 1 {
      TakeLeSound(s[1..], 4);
    }
  }

  lemma {:induction false} LeafSound(tag: byte, s: seq<byte>)
    requires LeafTag(tag) && DecodeLeaf(tag, s).Ok?
    ensures var d := DecodeLeaf(tag, s);
            Fits(d.value) && ReadFrom([tag] + s, d.rest, Mask(d.value), Encode(d.value), Nodes(d.value))
  {
    if tag == TAG_BOOL {
      BoolSound(s);
    } else {
      if tag == TAG_BYTES || tag == TAG_STRING {
        BlobSound(tag, s);
      } else if tag == TAG_WEAK {
        WeakSound(s);
      } else if tag == TAG_REF {
        Widths();
        TakeLeSound(s, 4);
      }
      var d := DecodeLeaf(tag, s);
      assert [tag] + s == Encode(d.value) + d.rest;
      ReadFromExact([tag] + s, Encode(d.value), d.rest);
    }
  }

  lemma {:induction false} ArrayRead(items: seq<Value>, r: seq<byte>, rest: seq<byte>)
    requires ReadFrom(r, rest, ItemsMask(items), EncodeItems(items), ItemNodes(items))
    ensures var v := Array(items);
            ReadFrom([TAG_ARRAY] + Le(|items|, 4) + r, rest, Mask(v), Encode(v), Nodes(v))
  {
    var head := [TAG_ARRAY] + Le(|items|, 4);
    ReadFromHead(head + r, head, r, rest, ItemsMask(items), EncodeItems(items), ItemNodes(items));
  }

  lemma {:induction false} StructRead(id: nat, fields: seq<Field>, r: seq<byte>, rest: seq<byte>)
    requires ReadFrom(r, rest, FieldsMask(fields), EncodeFields(fields), FieldNodes(fields))
    ensures var v := Struct(id, fields);
            ReadFrom([TAG_STRUCT] + Le(id, 4) + Le(|fields|, 4) + r, rest, Mask(v), Encode(v), Nodes(v))
  {
    var head := [TAG_STRUCT] + Le(id, 4) + Le(|fields|, 4);
    ReadFromHead(head + r, head, r, rest, FieldsMask(fields), EncodeFields(fields), FieldNodes(fields));
  }

  lemma {:induction false} SharedRead(id: nat, p: Value, r: seq<byte>, rest: seq<byte>)
    requires ReadFrom(r, rest, Mask(p), Encode(p), Nodes(p))
    ensures var v := Shared(id, p);
            ReadFrom([TAG_SHARED] + Le(id, 4) + r, rest, Mask(v), Encode(v), Nodes(v))
  {
    var head := [TAG_SHARED] + Le(id, 4);
    ReadFromHead(head + r, head, r, rest, Mask(p), Encode(p), Nodes(p));
  }

  /** Whatever the decoder accepts is a value that fits, spelled by the bytes consumed, with no
      more nodes than bytes. */
  lemma {:induction false} DecodeSound(s: seq<byte>)
    requires DecodeValue(s).Ok?
    ensures var d := DecodeValue(s);
            Fits(d.value) && ReadFrom(s, d.rest, Mask(d.value), Encode(d.value), Nodes(d.value))
    decreases |s|, 0
  {
    var tag, s1 := s[0], s[1..];
    assert s == [tag] + s1;
    if KindOf(tag).Some? {
      NumSound(KindOf(tag).value, s1);
    } else if LeafTag(tag) {
      LeafSound(tag, s1);
    } else {
      TreeSound(s);
    }
  }

  lemma {:induction false} TreeSound(s: seq<byte>)
    requires DecodeValue(s).Ok? && !LeafTag(s[0]) && KindOf(s[0]).None?
    ensures var d := DecodeValue(s);
            Fits(d.value) && ReadFrom(s, d.rest, Mask(d.value), Encode(d.value), Nodes(d.value))
    decreases |s|, 0, 0
  {
    var tag, s1 := s[0], s[1..];
    var d := DecodeValue(s);
    Widths();
    TakeLeSound(s1, 4);
    var n, r := TakeLe(s1, 4).value, TakeLe(s1, 4).rest;
    assert s == [tag] + Le(n, 4) + r;
    if tag == TAG_ARRAY {
      DecodeItemsSound(n, r, d.value.items, d.rest);
      ArrayRead(d.value.items, r, d.rest);
    } else if tag == TAG_SHARED {
      DecodeSound(r);
      SharedRead(n, d.value.payload, r, d.rest);
    } else {
      TakeLeSound(r, 4);
      var k, r2 := TakeLe(r, 4).value, TakeLe(r, 4).rest;
      assert s == [tag] + Le(n, 4) + Le(k, 4) + r2;
      DecodeFieldsSound(k, r2, d.value.fields, d.rest);
      StructRead(n, d.value.fields, r2, d.rest);
    }
  }

  /** What it means that a list of items has been read from the front of some bytes. */
  predicate ItemsFrom(n: nat, s: seq<byte>, items: seq<Value>, rest: seq<byte>) {
    && |items| == n && ItemsFit(items)
    && ReadFrom(s, rest, ItemsMask(items), EncodeItems(items), ItemNodes(items))
  }

  lemma {:induction false} DecodeItemsSound(n: nat, s: seq<byte>, items: seq<Value>, rest: seq<byte>)
    requires DecodeItems(n, s) == Ok(items, rest)
    ensures ItemsFrom(n, s, items, rest)
    decreases |s|, 1
  {
    if n == 0 {
      ReadFromIntro(s, [], s, [], [], 0);
    } else {
      var m, v, vs, r := ItemsParts(n, s, items, rest);
      DecodeSound(s);
      DecodeItemsSound(m, r, vs, rest);
      ItemThenRest(m, s, v, vs, r, rest, items);
    }
  }

  /** The first item and the rest, as the decoder reads them. */
  lemma {:induction false} ItemsParts(n: nat, s: seq<byte>, items: seq<Value>, rest: seq<byte>)
    returns (m: nat, v: Value, vs: seq<Value>, r: seq<byte>)
    requires n > 0 && DecodeItems(n, s) == Ok(items, rest)
    ensures DecodeValue(s) == Ok(v, r) && DecodeItems(m, r) == Ok(vs, rest) && items == [v] + vs && m == n - 1
    ensures |r| < |s|
  {
    m, v, r := n - 1, DecodeValue(s).value, DecodeValue(s).rest;
    vs := DecodeItems(m, r).value;
  }

  lemma {:induction false} ItemThenRest(m: nat, s: seq<byte>, v: Value, vs: seq<Value>, mid: seq<byte>, rest: seq<byte>,
                                        all: seq<Value>)
    requires ReadFrom(s, mid, Mask(v), Encode(v), Nodes(v)) && Fits(v) && ItemsFrom(m, mid, vs, rest) && all == [v] + vs
    ensures ItemsFrom(m + 1, s, all, rest)
  {
    assert ([v] + vs)[1..] == vs;
    ReadFromThen(s, mid, rest, Mask(v), Encode(v), Nodes(v), ItemsMask(vs), EncodeItems(vs), ItemNodes(vs));
  }

  lemma {:induction false} HeadThenRest(s: seq<byte>, head: seq<byte>, r: seq<byte>, mid: seq<byte>, rest: seq<byte>,
                                        m: seq<Reading>, e: seq<byte>, nodes: nat,
                                        m2: seq<Reading>, e2: seq<byte>, nodes2: nat)
    requires s == head + r && head != [] && ReadFrom(r, mid, m, e, nodes) && ReadFrom(mid, rest, m2, e2, nodes2)
    ensures ReadFrom(s, rest, Exacts(|head|) + m + m2, head + e + e2, 1 + nodes + nodes2)
  {
    ReadFromHead(s, head, r, mid, m, e, nodes);
    ReadFromThen(s, mid, rest, Exacts(|head|) + m, head + e, 1 + nodes, m2, e2, nodes2);
  }

  /** What it means that a list of fields has been read from the front of some bytes. */
  predicate FieldsFrom(n: nat, s: seq<byte>, fields: seq<Field>, rest: seq<byte>) {
    && |fields| == n && FieldsFit(fields)
    && ReadFrom(s, rest, FieldsMask(fields), EncodeFields(fields), FieldNodes(fields))
  }

  lemma {:induction false} DecodeFieldsSound(n: nat, s: seq<byte>, fields: seq<Field>, rest: seq<byte>)
    requires DecodeFields(n, s) == Ok(fields, rest)
    ensures FieldsFrom(n, s, fields, rest)
    decreases |s|, 1
  {
    if n == 0 {
      ReadFromIntro(s, [], s, [], [], 0);
    } else {
      var m, f, fs, r, r2 := FieldsParts(n, s, fields, rest);
      DecodeSound(r);
      DecodeFieldsSound(m, r2, fs, rest);
      FieldThenRest(m, s, f, fs, r, r2, rest, fields);
    }
  }

  lemma {:induction false} NameSound(s: seq<byte>, name: seq<byte>, r: seq<byte>)
    requires TakeName(s) == Ok(name, r)
    ensures s == EncodeName(name) + r && NameFits(name)
  {
    TakeBlobSound(s);
  }

  /** The first field and the rest, as the decoder reads them. */
  lemma {:induction false} FieldsParts(n: nat, s: seq<byte>, fields: seq<Field>, rest: seq<byte>)
    returns (m: nat, f: Field, fs: seq<Field>, r: seq<byte>, r2: seq<byte>)
    requires n > 0 && DecodeFields(n, s) == Ok(fields, rest)
    ensures s == EncodeName(f.name) + r && NameFits(f.name) && DecodeValue(r) == Ok(f.value, r2)
    ensures DecodeFields(m, r2) == Ok(fs, rest) && fields == [f] + fs && m == n - 1
    ensures |r| < |s| && |r2| < |s|
  {
    m, r := n - 1, TakeName(s).rest;
    r2 := DecodeValue(r).rest;
    f := Field(TakeName(s).value, DecodeValue(r).value);
    fs := DecodeFields(m, r2).value;
    NameSound(s, f.name, r);
  }

  lemma {:induction false} FieldThenRest(m: nat, s: seq<byte>, f: Field, fs: seq<Field>, r: seq<byte>, mid: seq<byte>,
                                         rest: seq<byte>, all: seq<Field>)
    requires s == EncodeName(f.name) + r && ReadFrom(r, mid, Mask(f.value), Encode(f.value), Nodes(f.value))
    requires FieldsFrom(m, mid, fs, rest) && NameFits(f.name) && Fits(f.value) && all == [f] + fs
    ensures FieldsFrom(m + 1, s, all, rest)
  {
    assert ([f] + fs)[1..] == fs;
    HeadThenRest(s, EncodeName(f.name), r, mid, rest, Mask(f.value), Encode(f.value), Nodes(f.value),
                 FieldsMask(fs), EncodeFields(fs), FieldNodes(fs));
  }

  // ----- completeness

  lemma {:induction false} MaskLength(v: Value)
    ensures |Mask(v)| == |Encode(v)|
    decreases v, 1
  {
    match v {
      case Array(items) => ItemsMaskLength(items);
      case Struct(_, fields) => FieldsMaskLength(fields);
      case Shared(_, payload) => MaskLength(payload);
      case _ =>
    }
  }

  lemma {:induction false} ItemsMaskLength(items: seq<Value>)
    ensures |ItemsMask(items)| == |EncodeItems(items)|
    decreases items, 0
  {
    if items != [] {
      MaskLength(items[0]);
      ItemsMaskLength(items[1..]);
    }
  }

  lemma {:induction false} FieldsMaskLength(fields: seq<Field>)
    ensures |FieldsMask(fields)| == |EncodeFields(fields)|
    decreases fields, 0
  {
    if fields != [] {
      MaskLength(fields[0].value);
      FieldsMaskLength(fields[1..]);
    }
  }

  lemma {:induction false} BoolComplete(v: Value, c: seq<byte>, tail: seq<byte>)
    requires v.Bool? && Spells(c, Mask(v), Encode(v))
    ensures c != [] && c[0] == TAG_BOOL && DecodeLeaf(TAG_BOOL, c[1..] + tail) == Ok(v, tail)
  {
    assert Normal(Mask(v)[0], c[0]) == Encode(v)[0];
    assert Normal(Mask(v)[1], c[1]) == Encode(v)[1];
    assert (c[1..] + tail)[..1] == [c[1]] && (c[1..] + tail)[1..] == tail;
    assert FromLe([c[1]]) == c[1];
  }

  lemma {:induction false} BlobComplete(v: Value, tail: seq<byte>)
    requires Fits(v) && (v.Bytes? || v.Text?)
    ensures DecodeLeaf(Encode(v)[0], Encode(v)[1..] + tail) == Ok(v, tail)
  {
    var d := if v.Bytes? then v.data else v.text;
    assert Encode(v)[1..] == EncodeName(d);
    TakeBlobComplete(d, tail);
  }

  lemma {:induction false} IdComplete(v: Value, tail: seq<byte>)
    requires Fits(v) && (v.Ref? || v.Weak?)
    ensures DecodeLeaf(Encode(v)[0], Encode(v)[1..] + tail) == Ok(v, tail)
  {
    Widths();
    if v.Ref? {
      assert Encode(v)[1..] == Le(v.refId, 4);
      TakeLeComplete(v.refId, 4, tail);
    } else if v.target.Some? {
      assert Encode(v)[1..] + tail == [1] + (Le(v.target.value, 4) + tail);
      TakeLeComplete(v.target.value, 4, tail);
    }
  }

  lemma {:induction false} LeafComplete(v: Value, c: seq<byte>, tail: seq<byte>)
    requires Fits(v) && !IsTree(v) && !v.Num? && Spells(c, Mask(v), Encode(v))
    ensures c != [] && c[0] == Encode(v)[0] && LeafTag(c[0]) && KindOf(c[0]) == None
    ensures DecodeLeaf(c[0], c[1..] + tail) == Ok(v, tail)
  {
    if v.Bool? {
      BoolComplete(v, c, tail);
    } else {
      SpellsExact(c, Encode(v));
      if v.Bytes? || v.Text? {
        BlobComplete(v, tail);
      } else if v.Ref? || v.Weak? {
        IdComplete(v, tail);
      } else {
        assert c[1..] + tail == tail;
      }
    }
  }

  /** Every spelling of a value that fits, followed by anything, decodes to the value and leaves
      exactly what followed. */
  lemma {:induction false} DecodeComplete(v: Value, c: seq<byte>, tail: seq<byte>)
    requires Fits(v) && Spells(c, Mask(v), Encode(v))
    ensures DecodeValue(c + tail) == Ok(v, tail)
    decreases v, 1
  {
    if c != [] {
      assert (c + tail)[1..] == c[1..] + tail;
    }
    if v.Num? {
      SpellsExact(c, Encode(v));
      KindOfTag(v.kind);
      assert c[1..] == Le(v.bits, Width(v.kind));
      TakeLeComplete(v.bits, Width(v.kind), tail);
    } else if !IsTree(v) {
      LeafComplete(v, c, tail);
    } else {
      TreeComplete(v, c, tail);
    }
  }

  lemma {:induction false} TreeComplete(v: Value, c: seq<byte>, tail: seq<byte>)
    requires Fits(v) && IsTree(v) && Spells(c, Mask(v), Encode(v))
    ensures DecodeValue(c + tail) == Ok(v, tail)
    decreases v, 0
  {
    match v {
      case Array(items) =>
        SpellsHeadSplit(c, [TAG_ARRAY] + Le(|items|, 4), ItemsMask(items), EncodeItems(items));
        DecodeItemsComplete(items, c[5..], tail);
        ArrayReads(items, c[5..] + tail, tail);
        CatAssoc([TAG_ARRAY] + Le(|items|, 4), c[5..], tail);
      case Struct(id, fields) =>
        var head := [TAG_STRUCT] + Le(id, 4) + Le(|fields|, 4);
        SpellsHeadSplit(c, head, FieldsMask(fields), EncodeFields(fields));
        DecodeFieldsComplete(fields, c[9..], tail);
        StructReads(id, fields, c[9..] + tail, tail);
        CatAssoc(head, c[9..], tail);
      case Shared(id, payload) =>
        SpellsHeadSplit(c, [TAG_SHARED] + Le(id, 4), Mask(payload), Encode(payload));
        DecodeComplete(payload, c[5..], tail);
        SharedReads(id, payload, c[5..] + tail, tail);
        CatAssoc([TAG_SHARED] + Le(id, 4), c[5..], tail);
    }
  }

  lemma {:induction false} AfterTag(tag: byte, n: nat, tail: seq<byte>)
    requires n < TWO32
    ensures TakeLe(([tag] + Le(n, 4) + tail)[1..], 4) == Ok(n, tail)
  {
    Widths();
    assert ([tag] + Le(n, 4) + tail)[1..] == Le(n, 4) + tail;
    TakeLeComplete(n, 4, tail);
  }

  lemma {:induction false} ArrayReads(items: seq<Value>, s: seq<byte>, tail: seq<byte>)
    requires |items| < TWO32 && DecodeItems(|items|, s) == Ok(items, tail)
    ensures DecodeValue([TAG_ARRAY] + Le(|items|, 4) + s) == Ok(Array(items), tail)
  {
    AfterTag(TAG_ARRAY, |items|, s);
  }

  lemma {:induction false} StructReads(id: nat, fields: seq<Field>, s: seq<byte>, tail: seq<byte>)
    requires id < TWO32 && |fields| < TWO32 && DecodeFields(|fields|, s) == Ok(fields, tail)
    ensures DecodeValue([TAG_STRUCT] + Le(id, 4) + Le(|fields|, 4) + s) == Ok(Struct(id, fields), tail)
  {
    Widths();
    AfterTag(TAG_STRUCT, id, Le(|fields|, 4) + s);
    TakeLeComplete(|fields|, 4, s);
    assert [TAG_STRUCT] + Le(id, 4) + (Le(|fields|, 4) + s) == [TAG_STRUCT] + Le(id, 4) + Le(|fields|, 4) + s;
  }

  lemma {:induction false} SharedReads(id: nat, p: Value, s: seq<byte>, tail: seq<byte>)
    requires id < TWO32 && DecodeValue(s) == Ok(p, tail)
    ensures DecodeValue([TAG_SHARED] + Le(id, 4) + s) == Ok(Shared(id, p), tail)
  {
    AfterTag(TAG_SHARED, id, s);
  }

  lemma {:induction false} DecodeItemsComplete(items: seq<Value>, c: seq<byte>, tail: seq<byte>)
    requires ItemsFit(items) && Spells(c, ItemsMask(items), EncodeItems(items))
    ensures DecodeItems(|items|, c + tail) == Ok(items, tail)
    decreases items, 0
  {
    if items == [] {
      assert c + tail == tail;
    } else {
      var v, vs := items[0], items[1..];
      MaskLength(v);
      SpellsSplit(c, Mask(v), Encode(v), ItemsMask(vs), EncodeItems(vs));
      var c1, c2 := c[..|Mask(v)|], c[|Mask(v)|..];
      assert c + tail == c1 + (c2 + tail);
      DecodeComplete(v, c1, c2 + tail);
      DecodeItemsComplete(vs, c2, tail);
      ItemsRead(items, v, vs, c + tail, c2 + tail, tail);
    }
  }

  lemma {:induction false} ItemsRead(items: seq<Value>, v: Value, vs: seq<Value>, s: seq<byte>, s2: seq<byte>, tail: seq<byte>)
    requires items == [v] + vs && DecodeValue(s) == Ok(v, s2) && DecodeItems(|vs|, s2) == Ok(vs, tail)
    ensures DecodeItems(|items|, s) == Ok(items, tail)
  {
    var m := |items| - 1;
    assert DecodeItems(m, s2) == Ok(vs, tail);
  }

  lemma {:induction false} DecodeFieldsComplete(fields: seq<Field>, c: seq<byte>, tail: seq<byte>)
    requires FieldsFit(fields) && Spells(c, FieldsMask(fields), EncodeFields(fields))
    ensures DecodeFields(|fields|, c + tail) == Ok(fields, tail)
    decreases fields, 0
  {
    if fields == [] {
      assert c + tail == tail;
    } else {
      var f, fs := fields[0], fields[1..];
      var c2, c3 := FieldPartsBefore(fields, c, tail);
      DecodeComplete(f.value, c2, c3 + tail);
      DecodeFieldsComplete(fs, c3, tail);
      FieldsRead(fields, f, fs, c + tail, c2 + (c3 + tail), c3 + tail, tail);
    }
  }

  lemma {:induction false} CatFour(a: seq<byte>, b: seq<byte>, c: seq<byte>, d: seq<byte>)
    ensures a + b + c + d == a + (b + (c + d))
  {
  }

  lemma {:induction false} FieldsRead(fields: seq<Field>, f: Field, fs: seq<Field>, whole: seq<byte>, s: seq<byte>,
                                      s2: seq<byte>, tail: seq<byte>)
    requires fields == [f] + fs && whole == EncodeName(f.name) + s && NameFits(f.name)
    requires DecodeValue(s) == Ok(f.value, s2) && DecodeFields(|fs|, s2) == Ok(fs, tail)
    ensures DecodeFields(|fields|, whole) == Ok(fields, tail)
  {
    TakeBlobComplete(f.name, s);
    var m := |fields| - 1;
    assert DecodeFields(m, s2) == Ok(fs, tail);
  }

  lemma {:induction false} FieldParts(fields: seq<Field>, c: seq<byte>) returns (c1: seq<byte>, c2: seq<byte>, c3: seq<byte>)
    requires fields != [] && Spells(c, FieldsMask(fields), EncodeFields(fields))
    ensures c == c1 + c2 + c3 && c1 == EncodeName(fields[0].name)
    ensures Spells(c2, Mask(fields[0].value), Encode(fields[0].value))
    ensures Spells(c3, FieldsMask(fields[1..]), EncodeFields(fields[1..]))
  {
    var f, fs := fields[0], fields[1..];
    var head, m, e := EncodeName(f.name), Mask(f.value), Encode(f.value);
    MaskLength(f.value);
    FieldsCons(fields);
    c1, c2, c3 := ThreeParts(c, head, m, e, FieldsMask(fs), EncodeFields(fs));
  }

  lemma {:induction false} FieldPartsBefore(fields: seq<Field>, c: seq<byte>, tail: seq<byte>)
    returns (c2: seq<byte>, c3: seq<byte>)
    requires fields != [] && Spells(c, FieldsMask(fields), EncodeFields(fields))
    ensures c + tail == EncodeName(fields[0].name) + (c2 + (c3 + tail))
    ensures Spells(c2, Mask(fields[0].value), Encode(fields[0].value))
    ensures Spells(c3, FieldsMask(fields[1..]), EncodeFields(fields[1..]))
  {
    var c1;
    c1, c2, c3 := FieldParts(fields, c);
    CatFour(c1, c2, c3, tail);
  }

  lemma {:induction false} FieldsCons(fields: seq<Field>)
    requires fields != []
    ensures var f, fs := fields[0], fields[1..];
            && EncodeFields(fields) == EncodeName(f.name) + (Encode(f.value) + EncodeFields(fs))
            && FieldsMask(fields) == Exacts(|EncodeName(f.name)|) + (Mask(f.value) + FieldsMask(fs))
  {
    var f, fs := fields[0], fields[1..];
    CatAssoc(EncodeName(f.name), Encode(f.value), EncodeFields(fs));
    MaskAssoc(Exacts(|EncodeName(f.name)|), Mask(f.value), FieldsMask(fs));
  }

  lemma {:induction false} MaskAssoc(a: seq<Reading>, b: seq<Reading>, c: seq<Reading>)
    ensures a + b + c == a + (b + c)
  {
  }

  lemma {:induction false} ThreeParts(c: seq<byte>, head: seq<byte>, m: seq<Reading>, e: seq<byte>,
                                      m2: seq<Reading>, e2: seq<byte>)
    returns (c1: seq<byte>, c2: seq<byte>, c3: seq<byte>)
    requires |m| == |e| && Spells(c, Exacts(|head|) + (m + m2), head + (e + e2))
    ensures c == c1 + c2 + c3 && c1 == head && Spells(c2, m, e) && Spells(c3, m2, e2)
  {
    SpellsHeadSplit(c, head, m + m2, e + e2);
    var rest := c[|head|..];
    SpellsSplit(rest, m, e, m2, e2);
    c1, c2, c3 := head, rest[..|m|], rest[|m|..];
    CatAssoc(c1, c2, c3);
  }

  // ----- the exact language, round trips, prefix-freeness

  /** The decoder accepts exactly the spellings of the values that fit. */
  lemma {:induction false} AcceptsExactly(s: seq<byte>, v: Value, rest: seq<byte>)
    ensures DecodeValue(s) == Ok(v, rest)
       <==> Fits(v) && exists c :: s == c + rest && Spells(c, Mask(v), Encode(v))
  {
    if DecodeValue(s) == Ok(v, rest) {
      DecodeSound(s);
      assert s == Consumed(s, rest) + rest && Spells(Consumed(s, rest), Mask(v), Encode(v));
    }
    if Fits(v) && exists c :: s == c + rest && Spells(c, Mask(v), Encode(v)) {
      var c :| s == c + rest && Spells(c, Mask(v), Encode(v));
      DecodeComplete(v, c, rest);
    }
  }

  lemma {:induction false} SpellsItself(v: Value)
    ensures Spells(Encode(v), Mask(v), Encode(v))
    decreases v, 1
  {
    match v {
      case Bool(_) =>
      case Array(items) =>
        ItemsSpellThemselves(items);
        SpellsHead([TAG_ARRAY] + Le(|items|, 4), EncodeItems(items), ItemsMask(items), EncodeItems(items));
      case Struct(id, fields) =>
        FieldsSpellThemselves(fields);
        SpellsHead([TAG_STRUCT] + Le(id, 4) + Le(|fields|, 4),
                   EncodeFields(fields), FieldsMask(fields), EncodeFields(fields));
      case Shared(id, payload) =>
        SpellsItself(payload);
        SpellsHead([TAG_SHARED] + Le(id, 4), Encode(payload), Mask(payload), Encode(payload));
      case _ =>
        SpellsExact(Encode(v), Encode(v));
    }
  }

  lemma {:induction false} ItemsSpellThemselves(items: seq<Value>)
    ensures Spells(EncodeItems(items), ItemsMask(items), EncodeItems(items))
    decreases items, 0
  {
    if items != [] {
      var v, vs := items[0], items[1..];
      SpellsItself(v);
      ItemsSpellThemselves(vs);
      SpellsConcat(Encode(v), Mask(v), Encode(v), EncodeItems(vs), ItemsMask(vs), EncodeItems(vs));
    }
  }

  lemma {:induction false} FieldsSpellThemselves(fields: seq<Field>)
    ensures Spells(EncodeFields(fields), FieldsMask(fields), EncodeFields(fields))
    decreases fields, 0
  {
    if fields != [] {
      var f, fs := fields[0], fields[1..];
      var name, e, m := EncodeName(f.name), Encode(f.value), Mask(f.value);
      SpellsItself(f.value);
      FieldsSpellThemselves(fs);
      SpellsHead(name, e, m, e);
      SpellsConcat(name + e, Exacts(|name|) + m, name + e, EncodeFields(fs), FieldsMask(fs), EncodeFields(fs));
    }
  }

  lemma {:induction false} RoundTrip(v: Value, tail: seq<byte>)
    requires Fits(v)
    ensures DecodeValue(Encode(v) + tail) == Ok(v, tail)
  {
    SpellsItself(v);
    DecodeComplete(v, Encode(v), tail);
  }

  lemma {:induction false} FieldsRoundTrip(fields: seq<Field>, tail: seq<byte>)
    requires FieldsFit(fields)
    ensures DecodeFields(|fields|, EncodeFields(fields) + tail) == Ok(fields, tail)
  {
    FieldsSpellThemselves(fields);
    DecodeFieldsComplete(fields, EncodeFields(fields), tail);
  }

  /** No encoding continues another: equal streams start with the same value. */
  lemma {:induction false} PrefixFree(v: Value, w: Value, s: seq<byte>, t: seq<byte>)
    requires Fits(v) && Fits(w) && Encode(v) + s == Encode(w) + t
    ensures v == w && s == t
  {
    RoundTrip(v, s);
    RoundTrip(w, t);
  }

  // ----- reading more of the stream

  /** The answer of a decoder on a longer input: an item read stays read, an error that is not
      the end of input stays, and only the end of input can turn into anything else. */
  ghost predicate Extends<T>(d: Decoded<T>, d2: Decoded<T>, more: seq<byte>) {
    match d
    case Ok(v, rest) => d2 == Ok(v, rest + more)
    case Err(UnexpectedEof) => true
    case Err(e) => d2 == Err(e)
  }

  lemma {:induction false} TakeBytesExtends(s: seq<byte>, n: nat, more: seq<byte>)
    ensures Extends(TakeBytes(s, n), TakeBytes(s + more, n), more)
  {
    if n <= |s| {
      assert (s + more)[..n] == s[..n] && (s + more)[n..] == s[n..] + more;
    }
  }

  lemma {:induction false} TakeLeExtends(s: seq<byte>, k: nat, more: seq<byte>)
    ensures Extends(TakeLe(s, k), TakeLe(s + more, k), more)
  {
    TakeBytesExtends(s, k, more);
  }

  lemma {:induction false} TakeNameExtends(s: seq<byte>, more: seq<byte>)
    ensures Extends(TakeName(s), TakeName(s + more), more)
  {
    TakeLeExtends(s, 4, more);
    if TakeLe(s, 4).Ok? {
      TakeBytesExtends(TakeLe(s, 4).rest, TakeLe(s, 4).value, more);
    }
  }

  lemma {:induction false} LeafExtends(tag: byte, s: seq<byte>, more: seq<byte>)
    requires LeafTag(tag)
    ensures Extends(DecodeLeaf(tag, s), DecodeLeaf(tag, s + more), more)
  {
    TakeLeExtends(s, 1, more);
    TakeBytesExtends(s, 1, more);
    TakeLeExtends(s, 4, more);
    TakeNameExtends(s, more);
    if tag == TAG_WEAK && s != [] {
      TakeLeExtends(s[1..], 4, more);
    }
    if tag == TAG_BYTES && TakeLe(s, 4).Ok? {
      TakeBytesExtends(TakeLe(s, 4).rest, TakeLe(s, 4).value, more);
    }
  }

  lemma {:induction false} DecodeExtends(s: seq<byte>, more: seq<byte>)
    ensures Extends(DecodeValue(s), DecodeValue(s + more), more)
    decreases |s|, 0
  {
    if s != [] {
      var tag, s1 := s[0], s[1..];
      assert (s + more)[1..] == s1 + more;
      if KindOf(tag).Some? {
        TakeLeExtends(s1, Width(KindOf(tag).value), more);
      } else if LeafTag(tag) {
        LeafExtends(tag, s1, more);
      } else {
        TakeLeExtends(s1, 4, more);
        if TakeLe(s1, 4).Ok? {
          var n, r := TakeLe(s1, 4).value, TakeLe(s1, 4).rest;
          if tag == TAG_ARRAY {
            DecodeItemsExtends(n, r, more);
          } else if tag == TAG_SHARED {
            DecodeExtends(r, more);
          } else if tag == TAG_STRUCT {
            TakeLeExtends(r, 4, more);
            if TakeLe(r, 4).Ok? {
              DecodeFieldsExtends(TakeLe(r, 4).value, TakeLe(r, 4).rest, more);
            }
          }
        }
      }
    }
  }

  lemma {:induction false} DecodeItemsExtends(n: nat, s: seq<byte>, more: seq<byte>)
    ensures Extends(DecodeItems(n, s), DecodeItems(n, s + more), more)
    decreases |s|, 1
  {
    if n > 0 {
      DecodeExtends(s, more);
      if DecodeValue(s).Ok? {
        DecodeItemsExtends(n - 1, DecodeValue(s).rest, more);
      }
    }
  }

  lemma {:induction false} DecodeFieldsExtends(n: nat, s: seq<byte>, more: seq<byte>)
    ensures Extends(DecodeFields(n, s), DecodeFields(n, s + more), more)
    decreases |s|, 1
  {
    if n > 0 {
      TakeNameExtends(s, more);
      if TakeName(s).Ok? {
        var r := TakeName(s).rest;
        DecodeExtends(r, more);
        if DecodeValue(r).Ok? {
          DecodeFieldsExtends(n - 1, DecodeValue(r).rest, more);
        }
      }
    }
  }

  /** A value cut short anywhere is reported as an unexpected end, never as something else. */
  lemma {:induction false} CutShort(v: Value, s: seq<byte>, more: seq<byte>)
    requires Fits(v) && s + more == Encode(v) && more != []
    ensures DecodeValue(s) == Err(UnexpectedEof)
  {
    RoundTrip(v, []);
    assert s + more + [] == s + more;
    DecodeExtends(s, more);
  }
}
