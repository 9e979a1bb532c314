/** The wire format as a table: the tag bytes and positions of each kind of value, and what each kind of malformed input
    is answered with. Every number here is written out a second time, next to the constants of the codec. */
module WireTable {
  import opened Bytes
  import opened Wire
  import opened Entries
  import opened Utf8

  /** The tag byte of every kind of value. */
  lemma {:induction false} TagOf(v: Value)
    ensures Encode(v)[0] ==
      match v
      case Num(I8, _) => 0x01
      case Num(I16, _) => 0x02
      case Num(I32, _) => 0x03
      case Num(I64, _) => 0x04
      case Num(U8, _) => 0x05
      case Num(U16, _) => 0x06
      case Num(U32, _) => 0x07
      case Num(U64, _) => 0x08
      case Num(F32, _) => 0x09
      case Num(F64, _) => 0x0A
      case Bool(_) => 0x0B
      case Null => 0x0C
      case Bytes(_) => 0x0D
      case Text(_) => 0x0E
      case Array(_) => 0x0F
      case Struct(_, _) => 0x10
      case Shared(_, _) => 0x20
      case Ref(_) => 0x21
      case Weak(_) => 0x22
  {
  }

  /** What stands where behind the tag. */
  lemma {:induction false} BehindTag(v: Value)
    ensures Encode(v)[1..] ==
      match v
      case Num(k, bits) => Le(bits, if k in {I8, U8} then 1 else if k in {I16, U16} then 2
                                    else if k in {I32, U32, F32} then 4 else 8)
      case Bool(b) => [if b then 1 else 0]
      case Null => []
      case Bytes(d) => Le(|d|, 4) + d
      case Text(t) => Le(|t|, 4) + t
      case Array(items) => Le(|items|, 4) + EncodeItems(items)
      case Struct(id, fields) => Le(id, 4) + Le(|fields|, 4) + EncodeFields(fields)
      case Shared(id, payload) => Le(id, 4) + Encode(payload)
      case Ref(id) => Le(id, 4)
      case Weak(None) => [0]
      case Weak(Some(id)) => [1] + Le(id, 4)
  {
  }

  /** A text is read back exactly when its bytes encode code points. */
  lemma {:induction false} TextIsRead(t: seq<byte>, tail: seq<byte>)
    requires |t| < TWO32
    ensures DecodeValue([0x0E] + Le(|t|, 4) + t + tail) == if IsText(t) then Ok(Text(t), tail) else Err(InvalidUtf8)
  {
    var s := [0x0E] + Le(|t|, 4) + t + tail;
    assert s[1..] == Le(|t|, 4) + (t + tail);
    TakeCount(|t|, t + tail);
    assert (t + tail)[..|t|] == t && (t + tail)[|t|..] == tail;
    ValidIffText(t);
  }

  lemma {:induction false} TakeCount(n: nat, s: seq<byte>)
    requires n < TWO32
    ensures TakeLe(Le(n, 4) + s, 4) == Ok(n, s)
  {
    Widths();
    FromLeOfLe(n, 4);
    assert (Le(n, 4) + s)[..4] == Le(n, 4) && (Le(n, 4) + s)[4..] == s;
  }

  /** A bool is read as true from any byte but zero. */
  lemma {:induction false} BoolIsRead(b: byte, tail: seq<byte>)
    ensures DecodeValue([0x0B, b] + tail) == Ok(Bool(b != 0), tail)
  {
    var s := [0x0B, b] + tail;
    assert s[1..] == [b] + tail && s[1..][..1] == [b] && s[1..][1..] == tail;
    assert FromLe([b]) == b;
  }

  predicate KnownTag(b: byte) {
    1 <= b <= 0x10 || 0x20 <= b <= 0x22
  }

  /** What malformed input is answered with. */
  lemma {:induction false} ValueErrors(s: seq<byte>)
    ensures s == [] ==> DecodeValue(s) == Err(UnexpectedEof)
    ensures s != [] && !KnownTag(s[0]) ==> DecodeValue(s) == Err(UnknownTag(s[0]))
    ensures |s| >= 2 && s[0] == 0x22 && s[1] > 1 ==> DecodeValue(s) == Err(UnknownTag(s[1]))
    ensures |s| >= 5 && s[0] == 0x0F && DecodeItems(FromLe(s[1..5]), s[5..]).Err? ==>
              DecodeValue(s) == Err(DecodeItems(FromLe(s[1..5]), s[5..]).error)
    ensures |s| >= 9 && s[0] == 0x10 && DecodeFields(FromLe(s[5..9]), s[9..]).Err? ==>
              DecodeValue(s) == Err(DecodeFields(FromLe(s[5..9]), s[9..]).error)
    ensures |s| >= 5 && s[0] == 0x20 && DecodeValue(s[5..]).Err? ==> DecodeValue(s) == Err(DecodeValue(s[5..]).error)
  {
    if |s| >= 5 {
      assert s[1..][..4] == s[1..5] && s[1..][4..] == s[5..];
    }
    if |s| >= 9 {
      assert s[5..][..4] == s[5..9] && s[5..][4..] == s[9..];
    }
  }

  /** A list that is not accepted is answered with the error of the first element that is not. */
  lemma {:induction false} ItemsErrors(n: nat, s: seq<byte>) returns (k: nat, r: seq<byte>)
    requires DecodeItems(n, s).Err?
    ensures k < n && DecodeItems(k, s).Ok? && DecodeItems(k, s).rest == r
    ensures DecodeValue(r) == Err(DecodeItems(n, s).error)
    decreases n
  {
    var d, m := DecodeValue(s), n - 1;
    if d.Ok? {
      k, r := ItemsErrors(m, d.rest);
      k := ItemsLonger(k, s);
    } else {
      k, r := 0, s;
    }
  }

  lemma {:induction false} ItemsLonger(j: nat, s: seq<byte>) returns (k: nat)
    requires DecodeValue(s).Ok? && DecodeItems(j, DecodeValue(s).rest).Ok?
    ensures k == j + 1 && DecodeItems(k, s).Ok? && DecodeItems(k, s).rest == DecodeItems(j, DecodeValue(s).rest).rest
  {
    k := j + 1;
  }

  lemma {:induction false} FieldsErrors(n: nat, s: seq<byte>) returns (k: nat, r: seq<byte>)
    requires DecodeFields(n, s).Err?
    ensures k < n && DecodeFields(k, s).Ok? && DecodeFields(k, s).rest == r
    ensures var name, error := TakeName(r), DecodeFields(n, s).error;
            if name.Err? then name.error == error else DecodeValue(name.rest) == Err(error)
    decreases n
  {
    var name, m := TakeName(s), n - 1;
    if name.Ok? && DecodeValue(name.rest).Ok? {
      var d := DecodeValue(name.rest);
      k, r := FieldsErrors(m, d.rest);
      k := FieldsLonger(k, s, name.rest, d.rest, r);
    } else {
      k, r := 0, s;
    }
  }

  lemma {:induction false} FieldsLonger(j: nat, s: seq<byte>, r: seq<byte>, r2: seq<byte>, rest: seq<byte>) returns (k: nat)
    requires TakeName(s).Ok? && TakeName(s).rest == r && DecodeValue(r).Ok? && DecodeValue(r).rest == r2
    requires DecodeFields(j, r2).Ok? && DecodeFields(j, r2).rest == rest
    ensures k == j + 1 && DecodeFields(k, s).Ok? && DecodeFields(k, s).rest == rest
  {
    k := j + 1;
  }

  // ----- entries

  /** The fixed positions of an entry. */
  lemma {:induction false} EntryBytes(e: Entry)
    ensures |EncodeEntry(e)| >= 9
    ensures EncodeEntry(e)[..4] == Le(e.number, 4)
    ensures EncodeEntry(e)[4] == (if e.receiverIn.Some? then 0x01 else 0) + (if e.receiverOut.Some? then 0x02 else 0)
    ensures EncodeEntry(e)[5..9] == Le(|e.inputs|, 4)
  {
    EntryLayout(e);
    var a, c := Le(e.number, 4), Le(|e.inputs|, 4);
    Grown(a + [Flags(e)] + EncodeList(e.inputs), EncodeOptional(e.receiverIn), EncodeOptional(e.receiverOut),
          EncodeOutcome(e.outcome), Le(e.contentHash, 8));
    var rest := EncodeOptional(e.receiverIn) + EncodeOptional(e.receiverOut) + EncodeOutcome(e.outcome)
                + Le(e.contentHash, 8);
    Positions(a, Flags(e), c, EncodeFields(e.inputs), rest, EncodeEntry(e));
  }

  /** Of the flags byte of an entry the two low bits say which receivers follow; the others are not looked at. */
  lemma {:induction false} FlagsAreRead(s: seq<byte>)
    requires DecodeEntry(s).Ok?
    ensures |s| > 4
    ensures DecodeEntry(s).value.receiverIn.Some? <==> s[4] % 2 == 1
    ensures DecodeEntry(s).value.receiverOut.Some? <==> s[4] / 2 % 2 == 1
  {
    var rest := s[4..];
    assert rest[..1][0] == s[4];
  }

  lemma {:induction false} Grown(a: seq<byte>, b: seq<byte>, c: seq<byte>, d: seq<byte>, e: seq<byte>)
    ensures a + b + c + d + e == a + (b + c + d + e)
  {
    CatAssoc(a, b + c + d, e);
    CatAssoc(a, b + c, d);
    CatAssoc(a, b, c);
  }

  lemma {:induction false} Positions(a: seq<byte>, b: byte, c: seq<byte>, fields: seq<byte>, rest: seq<byte>, all: seq<byte>)
    requires |a| == |c| == 4 && all == a + [b] + (c + fields) + rest
    ensures |all| >= 9 && all[..4] == a && all[4] == b && all[5..9] == c
  {
  }

  /** The tag bytes of an outcome. */
  lemma {:induction false} OutcomeBytes(o: Outcome)
    ensures match o
            case Return(outputs) => EncodeOutcome(o) == [0x00] + EncodeList(outputs)
            case Exception(name, what, payload) =>
              EncodeOutcome(o)[0] == 0x01 && EncodeOutcome(o)[1..] ==
                (Le(|name|, 4) + name) + (Le(|what|, 4) + what)
                + (if payload.None? then [0] else [1] + Encode(payload.value))
  {
    if o.Exception? {
      Behind(0x01, EncodeName(o.typeName), EncodeName(o.what), EncodeFlagged(o.payload));
    }
  }

  lemma {:induction false} Behind(tag: byte, a: seq<byte>, b: seq<byte>, c: seq<byte>)
    ensures ([tag] + a + b + c)[0] == tag && ([tag] + a + b + c)[1..] == a + b + c
  {
  }

  /** What a malformed outcome is answered with. */
  lemma {:induction false} OutcomeErrors(s: seq<byte>)
    requires s != []
    ensures s[0] > 1 ==> DecodeOutcome(s) == Err(UnknownTag(s[0]))
    ensures s[0] > 1 ==> DecodeFlagged(s) == Err(UnknownTag(s[0]))
  {
    assert s[..1][0] == s[0];
  }
}
