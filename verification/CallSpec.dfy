/** What one side (input or output) of a recorded call becomes, operation by operation, in the Rust
    and in the C recorder, and the proof that the two agree. */
module CallSpec {
  import opened Bytes
  import opened Wire
  import opened Probes
  import Fnv

  /** Which outputs are switched on: the hash rows, the deep log. */
  datatype Config = Config(tsv: bool, deep: bool) {
    predicate Active() { tsv || deep }
  }

  /** The observable state of one side: running hash, length, captured values, name counter. */
  datatype Lane = Lane(hash: u64, length: nat, captured: seq<Field>, counter: nat)

  // ----- names and values of captured probes

  predicate Printable(s: string) {
    forall i :: 0 <= i < |s| ==> 0 as char < s[i] < 128 as char
  }

  function AutoName(prefix: string, n: nat): Name
    requires Printable(prefix)
  {
    Ascii(prefix + Decimal(n))
  }

  function NameOr(prefix: string, name: Option<Name>, n: nat): Name
    requires Printable(prefix)
  {
    if name.Some? then name.value else AutoName(prefix, n)
  }

  function ScalarValue(s: Scalar): Value {
    match s
    case UInt(u) => Num(U64, u)
    case SInt(i) => Num(I64, AsU64(i))
    case Flag(b) => Bool(b)
    case Single(bits) => Num(F32, bits)
    case Double(bits) => Num(F64, bits)
  }

  function ArgValue(a: Arg): Value {
    if a.Plain? then ScalarValue(a.scalar) else Bytes(a.data)
  }

  function Weight(a: Arg): nat {
    if a.Blob? then |a.data| else 1
  }

  function AddLength(length: nat, n: nat): nat {
    (length + n) % TWO64
  }

  // ----- one operation

  function Start(cfg: Config, function_: Name): Lane {
    Lane(if cfg.Active() then Fnv.Fold(Fnv.OFFSET, StrBytes(function_)) else Fnv.OFFSET, 0, [], 0)
  }

  /** Rust: the counter moves with every capturing operation of an active call; the capture itself
      only happens when the deep log is on. */
  function RustStep(cfg: Config, prefix: string, st: Lane, op: Op): Lane
    requires Printable(prefix)
  {
    if !cfg.Active() then st else
    var hash := Fnv.Fold(st.hash, OpBytes(op));
    match op
    case Probe(name, arg) =>
      Lane(hash, AddLength(st.length, Weight(arg)),
           st.captured + (if cfg.deep then [Field(NameOr(prefix, name, st.counter), ArgValue(arg))] else []),
           (st.counter + 1) % TWO32)
    case Quant(bits, _, _) =>
      Lane(hash, AddLength(st.length, 1),
           st.captured + (if cfg.deep then [Field(AutoName(prefix, st.counter), Num(F32, bits))] else []),
           (st.counter + 1) % TWO32)
    case FieldProbe(_, _) => Lane(hash, AddLength(st.length, 1), st.captured, st.counter)
    case StructProbe(_, _) => Lane(hash, AddLength(st.length, 1), st.captured, st.counter)
  }

  /** C: capture returns at once when the deep log is off, before the counter moves. */
  function CStep(cfg: Config, prefix: string, st: Lane, op: Op): Lane
    requires Printable(prefix)
  {
    if !cfg.Active() then st else
    match op
    case Probe(name, arg) =>
      CCapture(cfg, prefix, Lane(Fnv.Fold(st.hash, OpBytes(op)), AddLength(st.length, Weight(arg)), st.captured, st.counter),
               name, ArgValue(arg))
    case Quant(bits, _, _) =>
      CCapture(cfg, prefix, Lane(Fnv.Fold(st.hash, OpBytes(op)), AddLength(st.length, 1), st.captured, st.counter),
               None, Num(F32, bits))
    case FieldProbe(_, _) => Lane(Fnv.Fold(st.hash, OpBytes(op)), AddLength(st.length, 1), st.captured, st.counter)
    case StructProbe(_, _) => Lane(Fnv.Fold(st.hash, OpBytes(op)), AddLength(st.length, 1), st.captured, st.counter)
  }

  function CCapture(cfg: Config, prefix: string, st: Lane, name: Option<Name>, value: Value): Lane
    requires Printable(prefix)
  {
    if !cfg.deep then st
    else Lane(st.hash, st.length, st.captured + [Field(NameOr(prefix, name, st.counter), value)],
              (st.counter + 1) % TWO32)
  }

  // ----- whole calls

  function RustRun(cfg: Config, prefix: string, function_: Name, ops: seq<Op>): Lane
    requires Printable(prefix)
  {
    if ops == [] then Start(cfg, function_)
    else RustStep(cfg, prefix, RustRun(cfg, prefix, function_, ops[..|ops| - 1]), ops[|ops| - 1])
  }

  function CRun(cfg: Config, prefix: string, function_: Name, ops: seq<Op>): Lane
    requires Printable(prefix)
  {
    if ops == [] then Start(cfg, function_)
    else CStep(cfg, prefix, CRun(cfg, prefix, function_, ops[..|ops| - 1]), ops[|ops| - 1])
  }

  /** Everything about a side that reaches a trace row or a log entry. */
  predicate SameRecord(x: Lane, y: Lane) {
    x.hash == y.hash && x.length == y.length && x.captured == y.captured
  }

  /** Both recorders record every call alike, whatever is switched on. */
  lemma {:induction false} RecordersAgree(cfg: Config, prefix: string, function_: Name, ops: seq<Op>)
    requires Printable(prefix)
    ensures var r, c := RustRun(cfg, prefix, function_, ops), CRun(cfg, prefix, function_, ops);
            SameRecord(r, c) && (cfg.deep ==> r.counter == c.counter) && (!cfg.deep ==> r.captured == [])
  {
    if ops != [] {
      RecordersAgree(cfg, prefix, function_, ops[..|ops| - 1]);
    }
  }

  /** The two sides of a call that is not switched on record nothing. */
  lemma {:induction false} InactiveRecordsNothing(cfg: Config, prefix: string, function_: Name, ops: seq<Op>)
    requires Printable(prefix) && !cfg.Active()
    ensures RustRun(cfg, prefix, function_, ops) == Lane(Fnv.OFFSET, 0, [], 0)
  {
    if ops != [] {
      InactiveRecordsNothing(cfg, prefix, function_, ops[..|ops| - 1]);
    }
  }

  lemma {:induction false} CallBytesPush(function_: Name, ops: seq<Op>, op: Op)
    ensures CallBytes(function_, ops + [op]) == CallBytes(function_, ops) + OpBytes(op)
  {
    OpsPush(ops, op);
  }

  lemma {:induction false} StepHash(cfg: Config, prefix: string, st: Lane, op: Op)
    requires Printable(prefix) && cfg.Active()
    ensures RustStep(cfg, prefix, st, op).hash == Fnv.Fold(st.hash, OpBytes(op))
  {
  }

  lemma {:induction false} HashPush(function_: Name, ops: seq<Op>, op: Op)
    ensures Fnv.Hash(CallBytes(function_, ops + [op])) == Fnv.Fold(Fnv.Hash(CallBytes(function_, ops)), OpBytes(op))
  {
    CallBytesPush(function_, ops, op);
    Fnv.FoldConcat(Fnv.OFFSET, CallBytes(function_, ops), OpBytes(op));
  }

  /** The hash of an active call is the hash of the call's one byte stream. */
  lemma {:induction false} HashOfCall(cfg: Config, prefix: string, function_: Name, ops: seq<Op>)
    requires Printable(prefix) && (cfg.tsv || cfg.deep)
    ensures RustRun(cfg, prefix, function_, ops).hash == Fnv.Hash(CallBytes(function_, ops))
  {
    if ops == [] {
      assert CallBytes(function_, []) == StrBytes(function_);
    } else {
      var front, last := ops[..|ops| - 1], ops[|ops| - 1];
      assert ops == front + [last];
      HashOfCall(cfg, prefix, function_, front);
      RunHash(cfg, prefix, function_, front, last);
      HashPush(function_, front, last);
    }
  }

  lemma {:induction false} RunHash(cfg: Config, prefix: string, function_: Name, ops: seq<Op>, op: Op)
    requires Printable(prefix) && (cfg.tsv || cfg.deep)
    ensures RustRun(cfg, prefix, function_, ops + [op]).hash
         == Fnv.Fold(RustRun(cfg, prefix, function_, ops).hash, OpBytes(op))
  {
    StepHash(cfg, prefix, RustRun(cfg, prefix, function_, ops), op);
    RunPush(cfg, prefix, function_, ops, op);
  }

  function Unnamed(op: Op): Op {
    if op.Probe? then Probe(None, op.arg) else op
  }

  function AllUnnamed(ops: seq<Op>): (r: seq<Op>)
    ensures |r| == |ops|
  {
    seq(|ops|, i requires 0 <= i < |ops| => Unnamed(ops[i]))
  }

  /** Alike but for the names of the captured values. */
  predicate SameButNames(x: Lane, y: Lane) {
    && x.hash == y.hash && x.length == y.length && x.counter == y.counter
    && |x.captured| == |y.captured|
    && forall i :: 0 <= i < |x.captured| ==> x.captured[i].value == y.captured[i].value
  }

  lemma {:induction false} StepUnnamed(cfg: Config, prefix: string, x: Lane, y: Lane, op: Op)
    requires Printable(prefix) && SameButNames(x, y)
    ensures SameButNames(RustStep(cfg, prefix, x, op), RustStep(cfg, prefix, y, Unnamed(op)))
  {
    assert OpBytes(op) == OpBytes(Unnamed(op));
  }

  /** Naming probes changes neither hash nor length: only the names in the log. */
  lemma {:induction false} NamesAreNotHashed(cfg: Config, prefix: string, function_: Name, ops: seq<Op>)
    requires Printable(prefix)
    ensures SameButNames(RustRun(cfg, prefix, function_, ops), RustRun(cfg, prefix, function_, AllUnnamed(ops)))
  {
    if ops != [] {
      var front, last := ops[..|ops| - 1], ops[|ops| - 1];
      NamesAreNotHashed(cfg, prefix, function_, front);
      assert AllUnnamed(ops)[..|ops| - 1] == AllUnnamed(front);
      StepUnnamed(cfg, prefix, RustRun(cfg, prefix, function_, front),
                  RustRun(cfg, prefix, function_, AllUnnamed(front)), last);
    }
  }

  // ----- lengths and captured values

  /** The bytes of the byte probes, and one for every other operation. */
  function Size(ops: seq<Op>): nat {
    if ops == [] then 0
    else
      match ops[|ops| - 1]
      case Probe(_, Blob(data)) => Size(ops[..|ops| - 1]) + |data|
      case _ => Size(ops[..|ops| - 1]) + 1
  }

  lemma {:induction false} SizePush(ops: seq<Op>, op: Op)
    ensures Size(ops + [op]) == Size(ops) + (if op.Probe? then Weight(op.arg) else 1)
  {
    assert (ops + [op])[..|ops|] == ops;
  }

  lemma {:induction false} AddWraps(length: nat, next: nat, size: nat, total: nat, n: nat)
    requires length == size % TWO64 && next == AddLength(length, n) && total == size + n
    ensures next == total % TWO64
  {
  }

  lemma {:induction false} StepLength(cfg: Config, prefix: string, st: Lane, op: Op)
    requires Printable(prefix) && (cfg.tsv || cfg.deep)
    ensures RustStep(cfg, prefix, st, op).length == AddLength(st.length, if op.Probe? then Weight(op.arg) else 1)
  {
  }

  lemma {:induction false} RunLength(cfg: Config, prefix: string, function_: Name, ops: seq<Op>, op: Op)
    requires Printable(prefix) && (cfg.tsv || cfg.deep)
    ensures RustRun(cfg, prefix, function_, ops + [op]).length
         == AddLength(RustRun(cfg, prefix, function_, ops).length, if op.Probe? then Weight(op.arg) else 1)
  {
    StepLength(cfg, prefix, RustRun(cfg, prefix, function_, ops), op);
    RunPush(cfg, prefix, function_, ops, op);
  }

  lemma {:induction false} LengthPush(cfg: Config, prefix: string, function_: Name, ops: seq<Op>, op: Op)
    requires Printable(prefix) && (cfg.tsv || cfg.deep)
    requires RustRun(cfg, prefix, function_, ops).length == Size(ops) % 0x1_0000_0000_0000_0000
    ensures RustRun(cfg, prefix, function_, ops + [op]).length == Size(ops + [op]) % 0x1_0000_0000_0000_0000
  {
    RunLength(cfg, prefix, function_, ops, op);
    SizePush(ops, op);
    AddWraps(RustRun(cfg, prefix, function_, ops).length, RustRun(cfg, prefix, function_, ops + [op]).length,
             Size(ops), Size(ops + [op]), if op.Probe? then Weight(op.arg) else 1);
  }

  /** The length of an active call is that size, counted in 64 bits. */
  lemma {:induction false} LengthIs(cfg: Config, prefix: string, function_: Name, ops: seq<Op>)
    requires Printable(prefix) && (cfg.tsv || cfg.deep)
    ensures RustRun(cfg, prefix, function_, ops).length == Size(ops) % 0x1_0000_0000_0000_0000
  {
    if ops != [] {
      var front, last := ops[..|ops| - 1], ops[|ops| - 1];
      assert ops == front + [last];
      LengthIs(cfg, prefix, function_, front);
      LengthPush(cfg, prefix, function_, front, last);
    }
  }

  /** The operations whose values the deep log keeps. */
  function Capturing(ops: seq<Op>): seq<Op> {
    if ops == [] then []
    else
      var last := ops[|ops| - 1];
      Capturing(ops[..|ops| - 1]) + (if last.Probe? || last.Quant? then [last] else [])
  }

  /** The value kept of an operation: integers as the 64 bits that stand for them. */
  predicate IsValueOf(v: Value, op: Op) {
    match op
    case Probe(_, Plain(UInt(u))) => v == Num(U64, u)
    case Probe(_, Plain(SInt(x))) =>
      v.Num? && v.kind == I64 && v.bits < TWO64 && (x - v.bits) % 0x1_0000_0000_0000_0000 == 0
    case Probe(_, Plain(Flag(b))) => v == Bool(b)
    case Probe(_, Plain(Single(bits))) => v == Num(F32, bits)
    case Probe(_, Plain(Double(bits))) => v == Num(F64, bits)
    case Probe(_, Blob(data)) => v == Bytes(data)
    case Quant(bits, _, _) => v == Num(F32, bits)
    case _ => false
  }

  /** The captured field number `k`: the probe's own name, or the prefix and the number of captured values before it,
      counted in 32 bits. */
  predicate IsCapture(f: Field, prefix: string, op: Op, k: nat)
    requires Printable(prefix)
  {
    && f.name == (if op.Probe? && op.name.Some? then op.name.value else Ascii(prefix + Decimal(k % 0x1_0000_0000)))
    && IsValueOf(f.value, op)
  }

  predicate AreCaptures(fields: seq<Field>, prefix: string, ops: seq<Op>)
    requires Printable(prefix)
  {
    |fields| == |ops| && forall k :: 0 <= k < |ops| ==> IsCapture(fields[k], prefix, ops[k], k)
  }

  lemma {:induction false} CaptureOf(prefix: string, op: Op, k: nat)
    requires Printable(prefix) && (op.Probe? || op.Quant?)
    ensures IsCapture(Field(NameOr(prefix, if op.Probe? then op.name else None, k % TWO32),
                            if op.Probe? then ArgValue(op.arg) else Num(F32, op.bits)), prefix, op, k)
  {
    if op.Probe? && op.arg.Plain? && op.arg.scalar.SInt? {
      AsU64Is(op.arg.scalar.i, AsU64(op.arg.scalar.i));
    }
  }

  lemma {:induction false} CapturesPush(fields: seq<Field>, prefix: string, ops: seq<Op>, f: Field, op: Op)
    requires Printable(prefix) && AreCaptures(fields, prefix, ops) && IsCapture(f, prefix, op, |ops|)
    ensures AreCaptures(fields + [f], prefix, ops + [op])
  {
  }

  lemma {:induction false} StepCaptures(cfg: Config, prefix: string, st: Lane, op: Op, k: nat) returns (f: Field)
    requires Printable(prefix) && cfg.deep && st.counter == k % TWO32 && (op.Probe? || op.Quant?)
    ensures var next := RustStep(cfg, prefix, st, op);
            next.captured == st.captured + [f] && IsCapture(f, prefix, op, k) && next.counter == (k + 1) % TWO32
  {
    f := Field(NameOr(prefix, if op.Probe? then op.name else None, st.counter),
               if op.Probe? then ArgValue(op.arg) else Num(F32, op.bits));
    CaptureOf(prefix, op, k);
    WrapNext(k);
  }

  lemma {:induction false} StepKeeps(cfg: Config, prefix: string, st: Lane, op: Op)
    requires Printable(prefix) && !op.Probe? && !op.Quant?
    ensures var next := RustStep(cfg, prefix, st, op); next.captured == st.captured && next.counter == st.counter
  {
  }

  /** What a side has captured after some operations. */
  predicate Holds(cfg: Config, prefix: string, st: Lane, ops: seq<Op>)
    requires Printable(prefix)
  {
    AreCaptures(st.captured, prefix, Capturing(ops)) && st.counter == |Capturing(ops)| % TWO32
  }

  lemma {:induction false} HoldsPush(cfg: Config, prefix: string, st: Lane, ops: seq<Op>, op: Op)
    requires Printable(prefix) && cfg.deep && Holds(cfg, prefix, st, ops)
    ensures Holds(cfg, prefix, RustStep(cfg, prefix, st, op), ops + [op])
  {
    CapturingPush(ops, op);
    if op.Probe? || op.Quant? {
      var f := StepCaptures(cfg, prefix, st, op, |st.captured|);
      CapturesPush(st.captured, prefix, Capturing(ops), f, op);
    } else {
      StepKeeps(cfg, prefix, st, op);
    }
  }

  lemma {:induction false} CapturingPush(ops: seq<Op>, op: Op)
    ensures Capturing(ops + [op]) == if op.Probe? || op.Quant? then Capturing(ops) + [op] else Capturing(ops)
  {
    assert (ops + [op])[..|ops|] == ops;
    assert Capturing(ops) + [] == Capturing(ops);
  }

  /** With the deep log on, a side has captured exactly the values of its probes, in order and under their names;
      otherwise nothing. */
  lemma {:induction false} CapturedAre(cfg: Config, prefix: string, function_: Name, ops: seq<Op>)
    requires Printable(prefix)
    ensures var st := RustRun(cfg, prefix, function_, ops);
            && (cfg.deep ==> AreCaptures(st.captured, prefix, Capturing(ops)))
            && (!cfg.deep ==> st.captured == [])
  {
    if cfg.deep {
      RunHolds(cfg, prefix, function_, ops);
    } else {
      RecordersAgree(cfg, prefix, function_, ops);
    }
  }

  lemma {:induction false} RunHolds(cfg: Config, prefix: string, function_: Name, ops: seq<Op>)
    requires Printable(prefix) && cfg.deep
    ensures Holds(cfg, prefix, RustRun(cfg, prefix, function_, ops), ops)
  {
    if ops != [] {
      var front, last := ops[..|ops| - 1], ops[|ops| - 1];
      RunHolds(cfg, prefix, function_, front);
      HoldsPush(cfg, prefix, RustRun(cfg, prefix, function_, front), front, last);
      RunPush(cfg, prefix, function_, front, last);
      assert ops == front + [last];
    }
  }

  // ----- the two sides of a call

  datatype Side = In | Out

  datatype SidedOp = SidedOp(side: Side, op: Op)

  /** The operations of one side, in order. */
  function OnSide(ops: seq<SidedOp>, side: Side): seq<Op> {
    if ops == [] then []
    else OnSide(ops[..|ops| - 1], side) + (if ops[|ops| - 1].side == side then [ops[|ops| - 1].op] else [])
  }

  function Prefix(side: Side): (p: string)
    ensures Printable(p)
  {
    if side.In? then "in" else "out"
  }

  /** An operation that both recorders have: a derived Rust struct never feeds the bytes of a C bytes field. */
  predicate Portable(op: Op) {
    match op
    case Probe(_, a) => ArgFits(a)
    case StructProbe(_, fields) => NoBytes(fields)
    case _ => true
  }

  lemma {:induction false} OnSidePush(ops: seq<SidedOp>, op: SidedOp, side: Side)
    ensures OnSide(ops + [op], side) == if op.side == side then OnSide(ops, side) + [op.op] else OnSide(ops, side)
  {
    assert (ops + [op])[..|ops|] == ops;
    assert OnSide(ops, side) + [] == OnSide(ops, side);
  }

  lemma {:induction false} RunPush(cfg: Config, prefix: string, function_: Name, ops: seq<Op>, op: Op)
    requires Printable(prefix)
    ensures RustRun(cfg, prefix, function_, ops + [op]) == RustStep(cfg, prefix, RustRun(cfg, prefix, function_, ops), op)
    ensures CRun(cfg, prefix, function_, ops + [op]) == CStep(cfg, prefix, CRun(cfg, prefix, function_, ops), op)
  {
    assert (ops + [op])[..|ops|] == ops;
  }

  // ----- automatic names

  /** An automatic name fits the 16-byte buffer of the C recorder (with its terminator), is valid
      text and contains no terminator. */
  lemma {:induction false} AutoNameFits(prefix: string, n: nat)
    requires Printable(prefix) && |prefix| <= 3 && n < TWO32
    ensures |AutoName(prefix, n)| <= 13 && NameFits(AutoName(prefix, n))
    ensures forall i :: 0 <= i < |AutoName(prefix, n)| ==> AutoName(prefix, n)[i] != 0
  {
    DecimalLength(n, 10, 10_000_000_000);
    AsciiIsUtf8(AutoName(prefix, n));
  }

  lemma {:induction false} DecimalLength(n: nat, k: nat, bound: nat)
    requires k >= 1 && n < bound && bound == Pow10(k)
    ensures |Decimal(n)| <= k
  {
    if n >= 10 {
      DecimalLength(n / 10, k - 1, bound / 10);
    }
  }

  function Pow10(k: nat): nat {
    if k == 0 then 1 else 10 * Pow10(k - 1)
  }

  /** Two automatic names of one side are equal only for equal counters. */
  lemma {:induction false} AutoNamesDistinct(prefix: string, m: nat, n: nat)
    requires Printable(prefix) && AutoName(prefix, m) == AutoName(prefix, n)
    ensures m == n
  {
    var a, b := Decimal(m), Decimal(n);
    assert |a| == |b|;
    forall i | 0 <= i < |a| ensures a[i] == b[i] {
      assert AutoName(prefix, m)[|prefix| + i] == a[i] as int;
      assert AutoName(prefix, n)[|prefix| + i] == b[i] as int;
    }
    assert a == b;
    FromDecimalOfDecimal(m);
    FromDecimalOfDecimal(n);
  }
}
