/** The writers, which append to a sink, and the readers, which advance a source. */
module WireIo {
  import opened Bytes
  import opened Wire
  import opened Entries

  datatype Result<+T> = Success(value: T) | Failure(error: WireError) {
    predicate IsFailure() { Failure? }
    function PropagateFailure<U>(): Result<U>
      requires Failure?
    { Failure(error) }
    function Extract(): T
      requires Success?
    { value }
  }

  // ----- writing

  class Sink {
    var out: seq<byte>

    constructor ()
      ensures out == []
    {
      out := [];
    }

    method Byte(b: byte)
      modifies this
      ensures out == old(out) + [b]
    {
      out := out + [b];
    }

    method All(s: seq<byte>)
      modifies this
      ensures out == old(out) + s
    {
      out := out + s;
    }

    method U32(n: nat)
      modifies this
      ensures out == old(out) + Le(n, 4)
    {
      All(Le(n, 4));
    }

    method U64(n: nat)
      modifies this
      ensures out == old(out) + Le(n, 8)
    {
      All(Le(n, 8));
    }

    method Name(s: seq<byte>)
      modifies this
      ensures out == old(out) + EncodeName(s)
    {
      U32(|s|);
      All(s);
    }
  }

  method WriteValue(w: Sink, v: Value)
    modifies w
    ensures w.out == old(w.out) + Encode(v)
    decreases v, 1
  {
    ghost var o := w.out;
    match v {
      case Array(items) =>
        w.Byte(TAG_ARRAY);
        w.U32(|items|);
        WriteItems(w, items);
        CatAssoc(o, [TAG_ARRAY], Le(|items|, 4));
        CatAssoc(o, [TAG_ARRAY] + Le(|items|, 4), EncodeItems(items));
      case Struct(id, fields) =>
        w.Byte(TAG_STRUCT);
        w.U32(id);
        w.U32(|fields|);
        WriteFields(w, fields);
        CatAssoc(o, [TAG_STRUCT], Le(id, 4));
        CatAssoc(o, [TAG_STRUCT] + Le(id, 4), Le(|fields|, 4));
        CatAssoc(o, [TAG_STRUCT] + Le(id, 4) + Le(|fields|, 4), EncodeFields(fields));
      case Shared(id, payload) =>
        w.Byte(TAG_SHARED);
        w.U32(id);
        WriteValue(w, payload);
        CatAssoc(o, [TAG_SHARED], Le(id, 4));
        CatAssoc(o, [TAG_SHARED] + Le(id, 4), Encode(payload));
      case _ =>
        WriteLeaf(w, v);
    }
  }

  /** The match arms of values without parts. */
  method WriteLeaf(w: Sink, v: Value)
    requires !v.Array? && !v.Struct? && !v.Shared?
    modifies w
    ensures w.out == old(w.out) + Encode(v)
  {
    ghost var o := w.out;
    match v {
      case Num(k, bits) =>
        w.Byte(Tag(k));
        w.All(Le(bits, Width(k)));
        CatAssoc(o, [Tag(k)], Le(bits, Width(k)));
      case Bool(b) =>
        w.Byte(TAG_BOOL);
        w.Byte(if b then 1 else 0);
      case Null =>
        w.Byte(TAG_NULL);
      case Bytes(d) =>
        w.Byte(TAG_BYTES);
        w.Name(d);
        CatAssoc(o, [TAG_BYTES], EncodeName(d));
      case Text(t) =>
        w.Byte(TAG_STRING);
        w.Name(t);
        CatAssoc(o, [TAG_STRING], EncodeName(t));
      case Ref(id) =>
        w.Byte(TAG_REF);
        w.U32(id);
        CatAssoc(o, [TAG_REF], Le(id, 4));
      case Weak(target) =>
        w.Byte(TAG_WEAK);
        if target.None? {
          w.Byte(0);
        } else {
          w.Byte(1);
          w.U32(target.value);
          assert o + [TAG_WEAK] + [1] == o + [TAG_WEAK, 1];
          CatAssoc(o, [TAG_WEAK, 1], Le(target.value, 4));
        }
    }
  }

  /** The loop over the elements of an array. */
  method WriteItems(w: Sink, items: seq<Value>)
    modifies w
    ensures w.out == old(w.out) + EncodeItems(items)
    decreases items, 0
  {
    for i := 0 to |items|
      invariant w.out + EncodeItems(items[i..]) == old(w.out) + EncodeItems(items)
    {
      assert items[i..][1..] == items[i + 1..];
      CatAssoc(w.out, Encode(items[i]), EncodeItems(items[i + 1..]));
      WriteValue(w, items[i]);
    }
  }

  /** The loop over named values: struct fields, inputs and outputs. */
  method WriteFields(w: Sink, fields: seq<Field>)
    modifies w
    ensures w.out == old(w.out) + EncodeFields(fields)
    decreases fields, 0
  {
    for i := 0 to |fields|
      invariant w.out + EncodeFields(fields[i..]) == old(w.out) + EncodeFields(fields)
    {
      assert fields[i..][1..] == fields[i + 1..];
      ghost var was, name, body := w.out, EncodeName(fields[i].name), Encode(fields[i].value);
      CatAssoc(was, name, body);
      CatAssoc(was, name + body, EncodeFields(fields[i + 1..]));
      w.Name(fields[i].name);
      WriteValue(w, fields[i].value);
    }
  }

  method WriteOptional(w: Sink, v: Option<Value>)
    modifies w
    ensures w.out == old(w.out) + EncodeOptional(v)
  {
    if v.Some? {
      WriteValue(w, v.value);
    }
  }

  method WriteList(w: Sink, fields: seq<Field>)
    modifies w
    ensures w.out == old(w.out) + EncodeList(fields)
  {
    CatAssoc(w.out, Le(|fields|, 4), EncodeFields(fields));
    w.U32(|fields|);
    WriteFields(w, fields);
  }

  method WriteEntryBody(w: Sink, e: Entry)
    modifies w
    ensures w.out == old(w.out) + EncodeEntry(e)
  {
    EntryLayout(e);
    ghost var front := Le(e.number, 4) + [Flags(e)] + EncodeList(e.inputs);
    CatAssoc(w.out, Le(e.number, 4) + [Flags(e)], EncodeList(e.inputs));
    WriteEntryHead(w, e);
    WriteList(w, e.inputs);
    WriteEntryTail(w, e, old(w.out), front);
  }

  /** The number and the flags. */
  method WriteEntryHead(w: Sink, e: Entry)
    modifies w
    ensures w.out == old(w.out) + (Le(e.number, 4) + [Flags(e)])
  {
    CatAssoc(w.out, Le(e.number, 4), [Flags(e)]);
    w.U32(e.number);
    var flags: byte := 0;
    if e.receiverIn.Some? {
      flags := flags + 1;
    }
    if e.receiverOut.Some? {
      flags := flags + 2;
    }
    w.Byte(flags);
  }

  /** What follows the inputs. */
  method WriteEntryTail(w: Sink, e: Entry, ghost o: seq<byte>, ghost front: seq<byte>)
    requires w.out == o + front
    modifies w
    ensures w.out == o + (front + EncodeOptional(e.receiverIn) + EncodeOptional(e.receiverOut) + EncodeOutcome(e.outcome)
                          + Le(e.contentHash, 8))
  {
    ghost var part := front + EncodeOptional(e.receiverIn);
    WriteOptional(w, e.receiverIn);
    CatAssoc(o, front, EncodeOptional(e.receiverIn));
    assert w.out == o + part;
    WriteOptional(w, e.receiverOut);
    CatAssoc(o, part, EncodeOptional(e.receiverOut));
    part := part + EncodeOptional(e.receiverOut);
    assert w.out == o + part;
    WriteOutcome(w, e.outcome);
    CatAssoc(o, part, EncodeOutcome(e.outcome));
    part := part + EncodeOutcome(e.outcome);
    assert w.out == o + part;
    w.U64(e.contentHash);
    CatAssoc(o, part, Le(e.contentHash, 8));
  }

  method WriteOutcome(w: Sink, o: Outcome)
    modifies w
    ensures w.out == old(w.out) + EncodeOutcome(o)
  {
    ghost var was := w.out;
    match o {
      case Return(outputs) =>
        w.Byte(OUTCOME_RETURN);
        WriteList(w, outputs);
        CatAssoc(was, [OUTCOME_RETURN], EncodeList(outputs));
      case Exception(typeName, what, payload) =>
        w.Byte(OUTCOME_EXCEPTION);
        w.Name(typeName);
        CatAssoc(was, [OUTCOME_EXCEPTION], EncodeName(typeName));
        w.Name(what);
        ghost var head := [OUTCOME_EXCEPTION] + EncodeName(typeName) + EncodeName(what);
        CatAssoc(was, [OUTCOME_EXCEPTION] + EncodeName(typeName), EncodeName(what));
        WriteFlagged(w, payload);
        CatAssoc(was, head, EncodeFlagged(payload));
    }
  }

  /** A presence byte and then the value, if any. */
  method WriteFlagged(w: Sink, v: Option<Value>)
    modifies w
    ensures w.out == old(w.out) + EncodeFlagged(v)
  {
    ghost var was := w.out;
    if v.None? {
      w.Byte(0);
    } else {
      w.Byte(1);
      WriteValue(w, v.value);
      CatAssoc(was, [1], Encode(v.value));
    }
  }

  method CanonicalInputBytes(receiverIn: Option<Value>, inputs: seq<Field>) returns (out: seq<byte>)
    ensures out == CanonicalInput(receiverIn, inputs)
  {
    var w := new Sink();
    WriteFlagged(w, receiverIn);
    assert [] + EncodeFlagged(receiverIn) == EncodeFlagged(receiverIn);
    WriteList(w, inputs);
    out := w.out;
  }

  // ----- reading

  /** A reader does what the decoder says: the same value and the same rest, or the same error. */
  ghost predicate Agrees<T>(d: Decoded<T>, r: Result<T>, rest: seq<byte>) {
    match d
    case Ok(v, t) => r == Success(v) && rest == t
    case Err(e) => r == Failure(e)
  }

  class Source {
    var rest: seq<byte>

    constructor (s: seq<byte>)
      ensures rest == s
    {
      rest := s;
    }

    method ReadExact(n: nat) returns (r: Result<seq<byte>>)
      modifies this
      ensures Agrees(TakeBytes(old(rest), n), r, rest)
    {
      if |rest| < n {
        return Failure(UnexpectedEof);
      }
      r := Success(rest[..n]);
      rest := rest[n..];
    }

    method Int(k: nat) returns (r: Result<nat>)
      modifies this
      ensures Agrees(TakeLe(old(rest), k), r, rest)
    {
      var b :- ReadExact(k);
      r := Success(FromLe(b));
    }

    method Name() returns (r: Result<seq<byte>>)
      modifies this
      ensures Agrees(TakeName(old(rest)), r, rest)
    {
      var n :- Int(4);
      var t :- ReadExact(n);
      r := if ValidUtf8(t) then Success(t) else Failure(InvalidUtf8);
    }
  }

  method ReadValue(s: Source) returns (r: Result<Value>)
    modifies s
    ensures Agrees(DecodeValue(old(s.rest)), r, s.rest)
    decreases |s.rest|, 0
  {
    ghost var s0 := s.rest;
    var tag :- s.ReadExact(1);
    if KindOf(tag[0]).Some? {
      var bits :- s.Int(Width(KindOf(tag[0]).value));
      r := Success(Num(KindOf(tag[0]).value, bits));
    } else if LeafTag(tag[0]) {
      r := ReadLeaf(s, tag[0]);
    } else if tag[0] == TAG_ARRAY {
      var n :- s.Int(4);
      var items :- ReadItems(s, n);
      r := Success(Array(items));
    } else if tag[0] == TAG_STRUCT {
      var id :- s.Int(4);
      var n :- s.Int(4);
      var fields :- ReadFields(s, n);
      r := Success(Struct(id, fields));
    } else if tag[0] == TAG_SHARED {
      var id :- s.Int(4);
      var payload :- ReadValue(s);
      r := Success(Shared(id, payload));
    } else {
      r := Failure(UnknownTag(tag[0]));
    }
  }

  method ReadLeaf(s: Source, tag: byte) returns (r: Result<Value>)
    requires LeafTag(tag)
    modifies s
    ensures Agrees(DecodeLeaf(tag, old(s.rest)), r, s.rest)
  {
    if tag == TAG_BOOL {
      var b :- s.Int(1);
      r := Success(Bool(b != 0));
    } else if tag == TAG_NULL {
      r := Success(Null);
    } else if tag == TAG_BYTES {
      var n :- s.Int(4);
      var d :- s.ReadExact(n);
      r := Success(Bytes(d));
    } else if tag == TAG_STRING {
      var t :- s.Name();
      r := Success(Text(t));
    } else if tag == TAG_REF {
      var id :- s.Int(4);
      r := Success(Ref(id));
    } else {
      var b :- s.ReadExact(1);
      if b[0] == 0 {
        r := Success(Weak(None));
      } else if b[0] == 1 {
        var id :- s.Int(4);
        r := Success(Weak(Some(id)));
      } else {
        r := Failure(UnknownTag(b[0]));
      }
    }
  }

  /** What remains to be read once `done` has been read. */
  function After<T>(done: seq<T>, d: Decoded<seq<T>>): Decoded<seq<T>> {
    match d
    case Ok(v, t) => Ok(done + v, t)
    case Err(e) => Err(e)
  }

  lemma {:induction false} AfterNothing<T>(d: Decoded<seq<T>>)
    ensures After([], d) == d
  {
    if d.Ok? {
      assert [] + d.value == d.value;
    }
  }

  method ReadItems(s: Source, n: nat) returns (r: Result<seq<Value>>)
    modifies s
    ensures Agrees(DecodeItems(n, old(s.rest)), r, s.rest)
    decreases |s.rest|, 1
  {
    ghost var whole := DecodeItems(n, s.rest);
    var items := [];
    AfterNothing(whole);
    for i := 0 to n
      invariant |s.rest| <= |old(s.rest)|
      invariant whole == After(items, DecodeItems(n - i, s.rest))
    {
      var v :- ReadValue(s);
      AfterAssoc(items, [v], DecodeItems(n - i - 1, s.rest));
      items := items + [v];
    }
    assert items + [] == items;
    r := Success(items);
  }

  lemma {:induction false} AfterAssoc<T>(done: seq<T>, more: seq<T>, d: Decoded<seq<T>>)
    ensures After(done, After(more, d)) == After(done + more, d)
  {
    if d.Ok? {
      assert done + (more + d.value) == (done + more) + d.value;
    }
  }

  method ReadFields(s: Source, n: nat) returns (r: Result<seq<Field>>)
    modifies s
    ensures Agrees(DecodeFields(n, old(s.rest)), r, s.rest)
    decreases |s.rest|, 1
  {
    ghost var whole := DecodeFields(n, s.rest);
    var fields := [];
    AfterNothing(whole);
    for i := 0 to n
      invariant |s.rest| <= |old(s.rest)|
      invariant whole == After(fields, DecodeFields(n - i, s.rest))
    {
      var name :- s.Name();
      var v :- ReadValue(s);
      AfterAssoc(fields, [Field(name, v)], DecodeFields(n - i - 1, s.rest));
      fields := fields + [Field(name, v)];
    }
    assert fields + [] == fields;
    r := Success(fields);
  }

  method ReadList(s: Source) returns (r: Result<seq<Field>>)
    modifies s
    ensures Agrees(DecodeList(old(s.rest)), r, s.rest)
  {
    var n :- s.Int(4);
    r := ReadFields(s, n);
  }

  method ReadOptional(s: Source, present: bool) returns (r: Result<Option<Value>>)
    modifies s
    ensures Agrees(DecodeOptional(present, old(s.rest)), r, s.rest)
  {
    if !present {
      return Success(None);
    }
    var v :- ReadValue(s);
    r := Success(Some(v));
  }

  method ReadOutcome(s: Source) returns (r: Result<Outcome>)
    modifies s
    ensures Agrees(DecodeOutcome(old(s.rest)), r, s.rest)
  {
    var kind :- s.ReadExact(1);
    if kind[0] == OUTCOME_RETURN {
      var outputs :- ReadList(s);
      r := Success(Return(outputs));
    } else if kind[0] == OUTCOME_EXCEPTION {
      var typeName :- s.Name();
      var what :- s.Name();
      var present :- s.ReadExact(1);
      if present[0] > 1 {
        return Failure(UnknownTag(present[0]));
      }
      var payload :- ReadOptional(s, present[0] == 1);
      r := Success(Exception(typeName, what, payload));
    } else {
      r := Failure(UnknownTag(kind[0]));
    }
  }

  method ReadEntryBody(s: Source) returns (r: Result<Entry>)
    modifies s
    ensures Agrees(DecodeEntry(old(s.rest)), r, s.rest)
  {
    var number :- s.Int(4);
    var flags :- s.ReadExact(1);
    var inputs :- ReadList(s);
    var receiverIn :- ReadOptional(s, flags[0] % 2 != 0);
    var receiverOut :- ReadOptional(s, (flags[0] / 2) % 2 != 0);
    var outcome :- ReadOutcome(s);
    var contentHash :- s.Int(8);
    r := Success(Entry(number, receiverIn, receiverOut, inputs, outcome, contentHash));
  }
}
