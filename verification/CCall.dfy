/** The C recorder: every value is encoded straight into a growing buffer, and an entry body is
    assembled from the two buffers. C strings are the bytes before their terminator. */
module CCall {
  import opened Bytes
  import opened Wire
  import opened Probes
  import opened CallSpec
  import opened Entries
  import opened CBuffer
  import opened RustCall
  import Fnv

  const DEEP_TAG_I64: byte := 0x04
  const DEEP_TAG_U64: byte := 0x08
  const DEEP_TAG_F32: byte := 0x09
  const DEEP_TAG_F64: byte := 0x0A
  const DEEP_TAG_BOOL: byte := 0x0B
  const DEEP_TAG_BYTES: byte := 0x0D

  const FNV_OFFSET: u64 := 0xcbf29ce484222325
  const FNV_PRIME: u64 := 0x100000001b3

  // The tags of the hash stream.
  const CHAR_U: byte := 'U' as int
  const CHAR_B: byte := 'B' as int
  const CHAR_F: byte := 'F' as int
  const CHAR_D: byte := 'D' as int
  const CHAR_Q: byte := 'Q' as int
  const CHAR_Y: byte := 'Y' as int
  const CHAR_G: byte := 'G' as int
  const CHAR_V: byte := 'V' as int

  // ----- the hash helpers, which return the hash their pointer argument is left with

  method HashU8(h: u64, v: byte) returns (r: u64)
    ensures r == Fnv.Fold(h, [v])
  {
    Fnv.FoldOne(h, v);
    r := (Fnv.Xor(h, v) * FNV_PRIME) % TWO64;
  }

  method HashBytes(h: u64, s: seq<byte>) returns (r: u64)
    ensures r == Fnv.Fold(h, s)
  {
    r := h;
    for i := 0 to |s|
      invariant r == Fnv.Fold(h, s[..i])
    {
      Fnv.FoldConcat(h, s[..i], [s[i]]);
      assert s[..i + 1] == s[..i] + [s[i]];
      r := HashU8(r, s[i]);
    }
    assert s[..|s|] == s;
  }

  method HashU32(h: u64, v: nat) returns (r: u64)
    ensures r == Fnv.Fold(h, Le(v, 4))
  {
    LeFour(v);
    r := HashBytes(h, [v % 256, v / 256 % 256, v / 65536 % 256, v / 16777216 % 256]);
  }

  method HashU64(h: u64, v: nat) returns (r: u64)
    ensures r == Fnv.Fold(h, Le(v, 8))
  {
    var bytes: seq<byte> := [];
    for i := 0 to 8
      invariant bytes == Le(v, 8)[..i]
    {
      LeByShifts(v, 8, i);
      bytes := bytes + [v / Pow256(i) % 256];
    }
    assert Le(v, 8)[..8] == Le(v, 8);
    r := HashBytes(h, bytes);
  }

  method HashStr(h: u64, s: seq<byte>) returns (r: u64)
    ensures r == Fnv.Fold(h, StrBytes(s))
  {
    Fnv.FoldConcat(h, Le(|s|, 8), s);
    r := HashU64(h, |s|);
    r := HashBytes(r, s);
  }

  /** `hash_trace_u64`, `_bool`, `_f32` and `_f64`. */
  method HashTrace(h: u64, s: Scalar) returns (r: u64)
    ensures r == Fnv.Fold(h, ScalarBytes(s))
  {
    match s {
      case UInt(u) =>
        Fnv.FoldConcat(h, [HASH_U], Le(u, 8));
        r := HashU8(h, CHAR_U);
        r := HashU64(r, u);
      case SInt(i) =>
        Fnv.FoldConcat(h, [HASH_U], Le(AsU64(i), 8));
        r := HashU8(h, CHAR_U);
        r := HashU64(r, AsU64(i));
      case Flag(b) =>
        var bit: byte := if b then 1 else 0;
        Fnv.FoldConcat(h, [HASH_B], [bit]);
        r := HashU8(h, CHAR_B);
        r := HashU8(r, bit);
      case Single(bits) =>
        Fnv.FoldConcat(h, [HASH_F], Le(bits, 4));
        r := HashU8(h, CHAR_F);
        r := HashU32(r, bits);
      case Double(bits) =>
        Fnv.FoldConcat(h, [HASH_D], Le(bits, 8));
        r := HashU8(h, CHAR_D);
        r := HashU64(r, bits);
    }
  }

  method HashTraceBytes(h: u64, d: seq<byte>) returns (r: u64)
    ensures r == Fnv.Fold(h, ArgBytes(Blob(d)))
  {
    Fnv.FoldConcat(h, [HASH_Y], StrBytes(d));
    Fnv.FoldConcat(Fnv.Fold(h, [HASH_Y]), Le(|d|, 8), d);
    r := HashU8(h, CHAR_Y);
    r := HashU64(r, |d|);
    r := HashBytes(r, d);
  }

  lemma {:induction false} EncodeFieldsPush(fields: seq<Field>, f: Field)
    ensures EncodeFields(fields + [f]) == EncodeFields(fields) + EncodeField(f)
  {
    if fields == [] {
      assert [f][1..] == [] && EncodeField(f) + [] == EncodeField(f);
    } else {
      assert (fields + [f])[1..] == fields[1..] + [f];
      EncodeFieldsPush(fields[1..], f);
    }
  }

  /** Tag and payload of a captured scalar. */
  method AppendScalar(b: DeepBuf, s: Scalar)
    requires b.Valid()
    modifies b, b.data
    ensures b.Valid() && (b.data == old(b.data) || fresh(b.data))
    ensures b.Contents() == old(b.Contents()) + Encode(ScalarValue(s))
  {
    match s {
      case UInt(u) => AppendTagged(b, DEEP_TAG_U64, u);
      case SInt(i) => AppendTagged(b, DEEP_TAG_I64, AsU64(i));
      case Flag(f) =>
        ghost var was := b.Contents();
        b.U8(DEEP_TAG_BOOL);
        b.U8(if f then 1 else 0);
        CatAssoc(was, [DEEP_TAG_BOOL], [if f then 1 else 0]);
      case Single(bits) =>
        ghost var was := b.Contents();
        b.U8(DEEP_TAG_F32);
        b.U32(bits);
        CatAssoc(was, [DEEP_TAG_F32], Le(bits, 4));
      case Double(bits) => AppendTagged(b, DEEP_TAG_F64, bits);
    }
  }

  /** A tag and 64 bits. */
  method AppendTagged(b: DeepBuf, tag: byte, v: nat)
    requires b.Valid()
    modifies b, b.data
    ensures b.Valid() && (b.data == old(b.data) || fresh(b.data))
    ensures b.Contents() == old(b.Contents()) + ([tag] + Le(v, 8))
  {
    ghost var was := b.Contents();
    b.U8(tag);
    b.U64(v);
    CatAssoc(was, [tag], Le(v, 8));
  }

  /** Tag, length and payload of captured bytes. */
  method AppendBlob(b: DeepBuf, d: seq<byte>)
    requires b.Valid()
    modifies b, b.data
    ensures b.Valid() && (b.data == old(b.data) || fresh(b.data))
    ensures b.Contents() == old(b.Contents()) + Encode(Bytes(d))
  {
    ghost var was := b.Contents();
    b.U8(DEEP_TAG_BYTES);
    b.U32(|d|);
    b.Append(d);
    CatAssoc(was, [TAG_BYTES], Le(|d|, 4));
    CatAssoc(was, [TAG_BYTES] + Le(|d|, 4), d);
    CatAssoc([TAG_BYTES], Le(|d|, 4), d);
  }

  // ----- one side of a call

  class CLane {
    const cfg: Config
    const prefix: string
    const buf: DeepBuf
    var hash: u64
    var length: nat
    var count: nat
    var counter: nat
    // What the buffer holds, as the list the Rust recorder keeps.
    ghost var captured: seq<Field>
    ghost const function_: Name
    // The operations recorded so far.
    ghost var done: seq<Op>

    ghost function Repr(): set<object>
      reads this, buf
    {
      {this, buf, buf.data}
    }

    ghost predicate Valid()
      reads this, buf, buf.data
    {
      Shape() && View() == CRun(cfg, prefix, function_, done)
    }

    ghost predicate Shape()
      reads this, buf, buf.data
    {
      && Printable(prefix) && buf.Valid()
      && buf.Contents() == EncodeFields(captured)
      && count == |captured| % TWO32
    }

    ghost function View(): Lane
      reads this
    {
      Lane(hash, length, captured, counter)
    }

    constructor (cfg: Config, prefix: string, function_: Name)
      requires Printable(prefix)
      ensures this.cfg == cfg && this.prefix == prefix && fresh(Repr())
      ensures Valid() && this.function_ == function_ && done == []
    {
      this.cfg := cfg;
      this.prefix := prefix;
      buf := new DeepBuf();
      length, count, counter := 0, 0, 0;
      captured := [];
      hash := FNV_OFFSET;
      this.function_ := function_;
      done := [];
      new;
      if cfg.Active() {
        hash := HashStr(hash, function_);
      }
    }

    /** `deep_begin_input` and `deep_begin_output`. */
    method Begin(name: Option<Name>) returns (ghost used: Name)
      requires Shape()
      modifies this`counter, this`count, buf, buf.data
      ensures buf.Valid() && (buf.data == old(buf.data) || fresh(buf.data))
      ensures used == NameOr(prefix, name, old(counter))
      ensures buf.Contents() == old(buf.Contents()) + EncodeName(used)
      ensures counter == (old(counter) + 1) % TWO32 && count == (old(count) + 1) % TWO32
    {
      var idx := counter;
      counter := (counter + 1) % TWO32;
      var text := if name.None? then AutoName(prefix, idx) else name.value;
      buf.Str(text);
      count := (count + 1) % TWO32;
      used := text;
    }

    /** The scalar `deep_capture_*` functions. */
    method CaptureScalar(name: Option<Name>, s: Scalar)
      requires Shape()
      modifies `hash, `length, `count, `counter, `captured, buf, buf.data
      ensures Shape() && (buf.data == old(buf.data) || fresh(buf.data))
      ensures View() == CCapture(cfg, prefix, old(View()), name, ScalarValue(s))
    {
      if cfg.deep {
        ghost var start := buf.Contents();
        ghost var used := Begin(name);
        AppendScalar(buf, s);
        NoteCaptured(start, Field(used, ScalarValue(s)));
      }
    }

    method CaptureBytes(name: Option<Name>, d: seq<byte>)
      requires Shape()
      modifies `hash, `length, `count, `counter, `captured, buf, buf.data
      ensures Shape() && (buf.data == old(buf.data) || fresh(buf.data))
      ensures View() == CCapture(cfg, prefix, old(View()), name, Bytes(d))
    {
      if cfg.deep {
        ghost var start := buf.Contents();
        ghost var used := Begin(name);
        AppendBlob(buf, d);
        NoteCaptured(start, Field(used, Bytes(d)));
      }
    }

    /** The buffer now ends in the encoding of `f`, and the count has moved. */
    ghost method NoteCaptured(start: seq<byte>, f: Field)
      requires Printable(prefix) && buf.Valid()
      requires start == EncodeFields(captured) && count == (|captured| % TWO32 + 1) % TWO32
      requires buf.Contents() == start + EncodeName(f.name) + Encode(f.value)
      modifies `captured
      ensures Shape() && captured == old(captured) + [f]
    {
      EncodeFieldsPush(captured, f);
      CatAssoc(start, EncodeName(f.name), Encode(f.value));
      captured := captured + [f];
    }

    method Record(name: Option<Name>, arg: Arg)
      requires Shape()
      modifies `hash, `length, `count, `counter, `captured, buf, buf.data
      ensures Shape() && (buf.data == old(buf.data) || fresh(buf.data))
      ensures View() == CStep(cfg, prefix, old(View()), Probe(name, arg))
    {
      if !cfg.Active() {
        return;
      }
      match arg {
        case Plain(s) =>
          hash := HashTrace(hash, s);
          length := AddLength(length, 1);
          CaptureScalar(name, s);
        case Blob(d) =>
          hash := HashTraceBytes(hash, d);
          length := AddLength(length, |d|);
          CaptureBytes(name, d);
      }
    }

    method RecordQuant(bits: u32, quantum: u32, level: i64)
      requires Shape()
      modifies `hash, `length, `count, `counter, `captured, buf, buf.data
      ensures Shape() && (buf.data == old(buf.data) || fresh(buf.data))
      ensures View() == CStep(cfg, prefix, old(View()), Quant(bits, quantum, level))
    {
      if !cfg.Active() {
        return;
      }
      Fnv.FoldConcat(hash, [HASH_Q], Le(quantum, 4));
      Fnv.FoldConcat(hash, [HASH_Q] + Le(quantum, 4), Le(AsU64(level), 8));
      hash := HashU8(hash, CHAR_Q);
      hash := HashU32(hash, quantum);
      hash := HashU64(hash, AsU64(level));
      length := AddLength(length, 1);
      CaptureScalar(None, Single(bits));
    }

    method RecordField(field: Name, value: Scalar)
      requires Shape()
      modifies `hash, `length
      ensures Shape()
      ensures View() == CStep(cfg, prefix, old(View()), FieldProbe(field, value))
    {
      if !cfg.Active() {
        return;
      }
      Fnv.FoldConcat(hash, [HASH_G], StrBytes(field));
      Fnv.FoldConcat(hash, [HASH_G] + StrBytes(field), ScalarBytes(value));
      hash := HashU8(hash, CHAR_G);
      hash := HashStr(hash, field);
      hash := HashTrace(hash, value);
      length := AddLength(length, 1);
    }

    method StructBegin(typeName: Name)
      requires Shape()
      modifies `hash, `length
      ensures Shape() && captured == old(captured) && counter == old(counter)
      ensures cfg.Active() ==>
        && hash == Fnv.Fold(old(hash), [HASH_V] + StrBytes(typeName))
        && length == AddLength(old(length), 1)
      ensures !cfg.Active() ==> View() == old(View())
    {
      if cfg.Active() {
        Fnv.FoldConcat(hash, [HASH_V], StrBytes(typeName));
        hash := HashU8(hash, CHAR_V);
        hash := HashStr(hash, typeName);
        length := AddLength(length, 1);
      }
    }

    method StructField(f: NamedArg)
      requires Shape()
      modifies `hash
      ensures Shape()
      ensures hash == if cfg.Active() then Fnv.Fold(old(hash), StrBytes(f.name) + ArgBytes(f.value)) else old(hash)
    {
      if cfg.Active() {
        Fnv.FoldConcat(hash, StrBytes(f.name), ArgBytes(f.value));
        hash := HashStr(hash, f.name);
        match f.value {
          case Plain(s) => hash := HashTrace(hash, s);
          case Blob(d) => hash := HashTraceBytes(hash, d);
        }
      }
    }

    /** The generated struct helper: a begin and then every field in order. */
    method RecordStruct(typeName: Name, fields: seq<NamedArg>)
      requires Shape()
      modifies `hash, `length
      ensures Shape()
      ensures View() == CStep(cfg, prefix, old(View()), StructProbe(typeName, fields))
    {
      ghost var h := hash;
      ghost var head := [HASH_V] + StrBytes(typeName);
      StructBegin(typeName);
      Fnv.FoldConcat(h, head, StructFieldsBytes(fields));
      for i := 0 to |fields|
        invariant Shape() && captured == old(captured) && counter == old(counter)
        invariant length == if cfg.Active() then AddLength(old(length), 1) else old(length)
        invariant !cfg.Active() ==> hash == h
        invariant cfg.Active() ==>
          Fnv.Fold(hash, StructFieldsBytes(fields[i..])) == Fnv.Fold(h, OpBytes(StructProbe(typeName, fields)))
      {
        assert fields[i..][1..] == fields[i + 1..];
        var f := fields[i];
        Fnv.FoldConcat(hash, StrBytes(f.name) + ArgBytes(f.value), StructFieldsBytes(fields[i + 1..]));
        StructField(f);
      }
    }

    method Do(op: Op)
      requires Valid()
      modifies this, buf, buf.data
      ensures Valid() && (buf.data == old(buf.data) || fresh(buf.data))
      ensures done == old(done) + [op]
    {
      RunPush(cfg, prefix, function_, done, op);
      match op {
        case Probe(name, arg) => Record(name, arg);
        case Quant(bits, quantum, level) => RecordQuant(bits, quantum, level);
        case FieldProbe(field, value) => RecordField(field, value);
        case StructProbe(typeName, fields) => RecordStruct(typeName, fields);
      }
      done := done + [op];
    }
  }

  /** A call being recorded: the handle `tracehash_begin` returns. */
  class CallHandle {
    const cfg: Config
    const input: CLane
    const output: CLane
    ghost const function_: Name
    // The operations recorded so far.
    ghost var done: seq<SidedOp>

    ghost function Repr(): set<object>
      reads input, input.buf, output, output.buf
    {
      {this} + input.Repr() + output.Repr()
    }

    ghost predicate Valid()
      reads this, Repr()
    {
      && input != output && input.buf != output.buf && input.buf.data != output.buf.data
      && input.Valid() && output.Valid() && input.cfg == output.cfg == cfg
      && input.prefix == Prefix(In) == "in" && output.prefix == Prefix(Out) == "out"
      && input.function_ == output.function_ == function_
      && input.done == OnSide(done, In) && output.done == OnSide(done, Out)
    }

    constructor (cfg: Config, function_: Name)
      ensures Valid() && fresh(Repr()) && done == []
      ensures this.cfg == cfg && this.function_ == function_
    {
      this.cfg := cfg;
      this.function_ := function_;
      input := new CLane(cfg, "in", function_);
      output := new CLane(cfg, "out", function_);
      done := [];
    }

    /** One operation on its side. */
    method Do(s: SidedOp)
      requires Valid()
      modifies this, input, input.buf, input.buf.data, output, output.buf, output.buf.data
      ensures Valid() && done == old(done) + [s]
      ensures input.buf.data == old(input.buf.data) || fresh(input.buf.data)
      ensures output.buf.data == old(output.buf.data) || fresh(output.buf.data)
    {
      OnSidePush(done, s, In);
      OnSidePush(done, s, Out);
      if s.side.In? {
        input.Do(s.op);
      } else {
        output.Do(s.op);
      }
      done := done + [s];
    }
  }

  method RecordCall(cfg: Config, function_: Name, ops: seq<SidedOp>) returns (call: CallHandle)
    ensures call.Valid()
    ensures fresh(call) && fresh(call.input) && fresh(call.input.buf) && fresh(call.input.buf.data)
    ensures fresh(call.output) && fresh(call.output.buf) && fresh(call.output.buf.data)
    ensures call.cfg == cfg && call.function_ == function_ && call.done == ops
  {
    call := new CallHandle(cfg, function_);
    for i := 0 to |ops|
      invariant call.Valid()
      invariant fresh(call) && fresh(call.input) && fresh(call.input.buf) && fresh(call.input.buf.data)
      invariant fresh(call.output) && fresh(call.output.buf) && fresh(call.output.buf.data)
      invariant call.cfg == cfg && call.function_ == function_ && call.done == ops[..i]
    {
      assert ops[..i + 1] == ops[..i] + [ops[i]];
      call.Do(ops[i]);
    }
    assert ops[..|ops|] == ops;
  }

  // ----- assembling the entry

  /** The loop over the four count bytes. */
  method HashCount(h: u64, count: nat) returns (r: u64)
    ensures r == Fnv.Fold(h, Le(count, 4))
  {
    LeFour(count);
    var bytes: seq<byte> := [count % 256, count / 256 % 256, count / 65536 % 256, count / 16777216 % 256];
    r := h;
    for i := 0 to 4
      invariant r == Fnv.Fold(h, bytes[..i])
    {
      assert bytes[..i + 1] == bytes[..i] + [bytes[i]];
      Fnv.FoldConcat(h, bytes[..i], [bytes[i]]);
      r := HashU8(r, bytes[i]);
    }
    assert bytes[..4] == bytes;
  }

  /** `deep_content_hash`: no receiver, the count, and the input buffer as it stands. */
  method DeepContentHash(input: CLane) returns (h: u64)
    requires input.Valid()
    ensures h == InputHash(None, input.captured)
  {
    ghost var count, fields := Le(|input.captured|, 4), EncodeFields(input.captured);
    LeWrapped32(|input.captured|);
    Fnv.FoldConcat(Fnv.OFFSET, [0], count + fields);
    Fnv.FoldConcat(Fnv.Fold(Fnv.OFFSET, [0]), count, fields);
    assert EncodeFlagged(None) == [0];
    h := HashU8(FNV_OFFSET, 0);
    h := HashCount(h, input.count);
    h := HashBytes(h, input.buf.Contents());
  }

  lemma {:induction false} EntryBody(number: nat, head: seq<byte>, inputs: seq<Field>, outputs: seq<Field>)
    requires head == Le(number, 4) + [0]
    ensures head + EncodeList(inputs) + [0] + EncodeList(outputs) + Le(InputHash(None, inputs), 8)
         == EncodeEntry(EntryOf(number, inputs, outputs))
  {
    EntryLayout(EntryOf(number, inputs, outputs));
    var front := head + EncodeList(inputs);
    assert front + [] + [] == front;
    CatAssoc(front, [0], EncodeList(outputs));
  }

  /** `deep_write_entry` up to the write: the body built from the two buffers is the encoding of the
      entry the Rust recorder builds from its two lists. */
  method AssembleBody(number: u32, input: CLane, output: CLane) returns (body: seq<byte>)
    requires input.Valid() && output.Valid()
    ensures body == EncodeEntry(EntryOf(number, input.captured, output.captured))
  {
    var contentHash := DeepContentHash(input);
    body := AssembleParts(number, input, output, contentHash);
    EntryBody(number, Le(number, 4) + [0], input.captured, output.captured);
  }

  method AssembleParts(number: u32, input: CLane, output: CLane, contentHash: u64) returns (body: seq<byte>)
    requires input.Valid() && output.Valid()
    ensures body == Le(number, 4) + [0] + EncodeList(input.captured)
                    + [0] + EncodeList(output.captured) + Le(contentHash, 8)
  {
    var inBytes, outBytes := input.buf.Contents(), output.buf.Contents();
    var b := new DeepBuf();
    StartBody(b, number);
    AppendList(b, input.count, inBytes, input.captured);
    FinishBody(b, output.count, outBytes, output.captured, contentHash);
    body := b.Contents();
  }

  /** The number and the flags byte. */
  method StartBody(b: DeepBuf, number: u32)
    requires b.Valid() && b.Contents() == []
    modifies b, b.data
    ensures b.Valid() && (b.data == old(b.data) || fresh(b.data))
    ensures b.Contents() == Le(number, 4) + [0]
  {
    b.U32(number);
    assert b.Contents() == Le(number, 4);
    b.U8(0);
  }

  /** The outcome and the content hash. */
  method FinishBody(b: DeepBuf, count: nat, bytes: seq<byte>, ghost fields: seq<Field>, contentHash: u64)
    requires b.Valid() && count == |fields| % TWO32 && bytes == EncodeFields(fields)
    modifies b, b.data
    ensures b.Valid() && b.Contents() == old(b.Contents()) + [0] + EncodeList(fields) + Le(contentHash, 8)
  {
    b.U8(0);
    AppendList(b, count, bytes, fields);
    b.U64(contentHash);
  }

  /** A count and the values encoded so far on one side. */
  method AppendList(b: DeepBuf, count: nat, bytes: seq<byte>, ghost fields: seq<Field>)
    requires b.Valid() && count == |fields| % TWO32 && bytes == EncodeFields(fields)
    modifies b, b.data
    ensures b.Valid() && (b.data == old(b.data) || fresh(b.data))
    ensures b.Contents() == old(b.Contents()) + EncodeList(fields)
  {
    ghost var was := b.Contents();
    LeWrapped32(|fields|);
    b.U32(count);
    b.Append(bytes);
    CatAssoc(was, Le(|fields|, 4), EncodeFields(fields));
  }
}
