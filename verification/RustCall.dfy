/** The Rust recorder: captured values are kept as a list and serialised at the end. */
module RustCall {
  import opened Bytes
  import opened Wire
  import opened Probes
  import opened CallSpec
  import opened Entries
  import Fnv

  /** The input half or the output half of a call. */
  class RustLane {
    const cfg: Config
    const prefix: string
    const hash: Fnv.Fnv64
    var length: nat
    var captured: seq<Field>
    var counter: nat
    ghost const function_: Name
    // The operations recorded so far.
    ghost var done: seq<Op>

    ghost predicate Shape() {
      Printable(prefix)
    }

    ghost predicate Valid()
      reads this, hash
    {
      Shape() && View() == RustRun(cfg, prefix, function_, done)
    }

    function View(): Lane
      reads this, hash
    {
      Lane(hash.state, length, captured, counter)
    }

    constructor (cfg: Config, prefix: string, function_: Name)
      requires Printable(prefix)
      ensures this.cfg == cfg && this.prefix == prefix && fresh(hash)
      ensures Valid() && this.function_ == function_ && done == []
    {
      this.cfg := cfg;
      this.prefix := prefix;
      hash := new Fnv.Fnv64();
      length := 0;
      captured := [];
      counter := 0;
      this.function_ := function_;
      done := [];
      new;
      if cfg.Active() {
        hash.Str(function_);
      }
    }

    method HashScalar(s: Scalar)
      modifies hash
      ensures hash.state == Fnv.Fold(old(hash.state), ScalarBytes(s))
    {
      match s {
        case UInt(u) =>
          Fnv.FoldConcat(hash.state, [HASH_U], Le(u, 8));
          hash.Byte(HASH_U);
          hash.U64(u);
        case SInt(i) =>
          Fnv.FoldConcat(hash.state, [HASH_U], Le(AsU64(i), 8));
          hash.Byte(HASH_U);
          hash.U64(AsU64(i));
        case Flag(b) =>
          var bit: byte := if b then 1 else 0;
          Fnv.FoldConcat(hash.state, [HASH_B], [bit]);
          hash.Byte(HASH_B);
          hash.Byte(bit);
        case Single(bits) =>
          Fnv.FoldConcat(hash.state, [HASH_F], Le(bits, 4));
          hash.Byte(HASH_F);
          hash.U32(bits);
        case Double(bits) =>
          Fnv.FoldConcat(hash.state, [HASH_D], Le(bits, 8));
          hash.Byte(HASH_D);
          hash.U64(bits);
      }
    }

    method HashArg(a: Arg)
      requires ArgFits(a)
      modifies hash
      ensures hash.state == Fnv.Fold(old(hash.state), ArgBytes(a))
    {
      match a {
        case Plain(s) =>
          HashScalar(s);
        case Blob(d) =>
          Fnv.FoldConcat(hash.state, [HASH_Y], StrBytes(d));
          hash.Byte(HASH_Y);
          Fnv.FoldConcat(hash.state, Le(|d|, 8), d);
          hash.U64(|d|);
          hash.Slice(d);
      }
    }

    method Push(name: Name, value: Value)
      modifies `captured
      ensures captured == old(captured) + (if cfg.deep then [Field(name, value)] else [])
    {
      if cfg.deep {
        captured := captured + [Field(name, value)];
      }
    }

    method TakeAutoName() returns (name: Name)
      requires Shape()
      modifies `counter
      ensures name == AutoName(prefix, old(counter)) && counter == (old(counter) + 1) % TWO32
    {
      name := AutoName(prefix, counter);
      counter := (counter + 1) % TWO32;
    }

    /** A positional probe, or an `_as` probe with its name. */
    method Record(name: Option<Name>, arg: Arg)
      requires Shape() && ArgFits(arg)
      modifies `length, `captured, `counter, hash
      ensures View() == RustStep(cfg, prefix, old(View()), Probe(name, arg))
    {
      if cfg.Active() {
        HashArg(arg);
        length := AddLength(length, if arg.Blob? then |arg.data| else 1);
        if name.None? {
          var auto := TakeAutoName();
          Push(auto, ArgValue(arg));
        } else {
          counter := (counter + 1) % TWO32;
          Push(name.value, ArgValue(arg));
        }
      }
    }

    /** A quantised float; `level` is the integer the float arithmetic gives. */
    method RecordQuant(bits: u32, quantum: u32, level: i64)
      requires Shape()
      modifies `length, `captured, `counter, hash
      ensures View() == RustStep(cfg, prefix, old(View()), Quant(bits, quantum, level))
    {
      if cfg.Active() {
        Fnv.FoldConcat(hash.state, [HASH_Q], Le(quantum, 4));
        Fnv.FoldConcat(hash.state, [HASH_Q] + Le(quantum, 4), Le(AsU64(level), 8));
        hash.Byte(HASH_Q);
        hash.U32(quantum);
        hash.U64(AsU64(level));
        length := AddLength(length, 1);
        var auto := TakeAutoName();
        Push(auto, Num(F32, bits));
      }
    }

    method RecordField(field: Name, value: Scalar)
      requires Shape()
      modifies `length, `captured, `counter, hash
      ensures View() == RustStep(cfg, prefix, old(View()), FieldProbe(field, value))
    {
      if cfg.Active() {
        Fnv.FoldConcat(hash.state, [HASH_G], StrBytes(field));
        Fnv.FoldConcat(hash.state, [HASH_G] + StrBytes(field), ScalarBytes(value));
        hash.Byte(HASH_G);
        hash.Str(field);
        HashScalar(value);
        length := AddLength(length, 1);
      }
    }

    /** A value whose `TraceHash` is derived: its name, then every field name and value. */
    method RecordStruct(typeName: Name, fields: seq<NamedArg>)
      requires Shape() && NoBytes(fields)
      modifies `length, `captured, `counter, hash
      ensures View() == RustStep(cfg, prefix, old(View()), StructProbe(typeName, fields))
    {
      if cfg.Active() {
        ghost var h := hash.state;
        hash.Byte(HASH_V);
        Fnv.FoldConcat(h, [HASH_V], StrBytes(typeName));
        hash.Str(typeName);
        ghost var head := [HASH_V] + StrBytes(typeName);
        Fnv.FoldConcat(h, head, StructFieldsBytes(fields));
        for i := 0 to |fields|
          invariant Fnv.Fold(hash.state, StructFieldsBytes(fields[i..])) == Fnv.Fold(h, OpBytes(StructProbe(typeName, fields)))
          invariant length == old(length) && captured == old(captured) && counter == old(counter)
        {
          assert fields[i..][1..] == fields[i + 1..];
          StructFieldFold(hash.state, fields[i], StructFieldsBytes(fields[i + 1..]));
          hash.Str(fields[i].name);
          HashScalar(fields[i].value.scalar);
        }
        length := AddLength(length, 1);
      }
    }

    method Do(op: Op)
      requires Valid() && Portable(op)
      modifies this, hash
      ensures Valid() && done == old(done) + [op]
    {
      RunPush(cfg, prefix, function_, done, op);
      match op {
        case Probe(name, arg) => Record(name, arg);
        case Quant(bits, quantum, level) => RecordQuant(bits, quantum, level);
        case FieldProbe(field, value) => RecordField(field, value);
        case StructProbe(typeName, fields) => RecordStruct(typeName, fields);
      }
      done := done + [op];
    }
  }

  lemma {:induction false} StructFieldFold(h: u64, f: NamedArg, more: seq<byte>)
    ensures Fnv.Fold(h, StrBytes(f.name) + ArgBytes(f.value) + more)
         == Fnv.Fold(Fnv.Fold(Fnv.Fold(h, StrBytes(f.name)), ArgBytes(f.value)), more)
  {
    Fnv.FoldConcat(h, StrBytes(f.name) + ArgBytes(f.value), more);
    Fnv.FoldConcat(h, StrBytes(f.name), ArgBytes(f.value));
  }

  /** The entry a finished call hands to its log, under a sequence number. */
  function EntryOf(number: nat, inputs: seq<Field>, outputs: seq<Field>): Entry {
    Entry(number, None, None, inputs, Return(outputs), InputHash(None, inputs))
  }

  predicate AllPortable(ops: seq<SidedOp>) {
    forall i :: 0 <= i < |ops| ==> Portable(ops[i].op)
  }

  /** A call being recorded. */
  class Call {
    const cfg: Config
    const input: RustLane
    const output: RustLane
    ghost const function_: Name
    // The operations recorded so far.
    ghost var done: seq<SidedOp>

    ghost predicate Valid()
      reads this, input, input.hash, output, output.hash
    {
      && input.Valid() && output.Valid() && input != output && input.hash != output.hash
      && input.cfg == output.cfg == cfg && input.prefix == Prefix(In) == "in" && output.prefix == Prefix(Out) == "out"
      && input.function_ == output.function_ == function_
      && input.done == OnSide(done, In) && output.done == OnSide(done, Out)
    }

    ghost function Repr(): set<object> {
      {this, input, input.hash, output, output.hash}
    }

    constructor (cfg: Config, function_: Name)
      ensures Valid() && fresh(Repr()) && done == []
      ensures this.cfg == cfg && this.function_ == function_
    {
      this.cfg := cfg;
      this.function_ := function_;
      input := new RustLane(cfg, "in", function_);
      output := new RustLane(cfg, "out", function_);
      done := [];
    }

    /** One operation on its side. */
    method Do(s: SidedOp)
      requires Valid() && Portable(s.op)
      modifies Repr()
      ensures Valid() && done == old(done) + [s]
    {
      OnSidePush(done, s, In);
      OnSidePush(done, s, Out);
      if s.side.In? {
        input.Do(s.op);
      } else {
        output.Do(s.op);
      }
      done := done + [s];
    }
  }

  method RecordCall(cfg: Config, function_: Name, ops: seq<SidedOp>) returns (call: Call)
    requires AllPortable(ops)
    ensures call.Valid() && fresh(call.Repr())
    ensures call.cfg == cfg && call.function_ == function_ && call.done == ops
  {
    call := new Call(cfg, function_);
    for i := 0 to |ops|
      invariant call.Valid() && fresh(call.Repr())
      invariant call.cfg == cfg && call.function_ == function_ && call.done == ops[..i]
    {
      call.Do(ops[i]);
    }
  }
}
