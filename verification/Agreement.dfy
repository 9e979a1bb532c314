/** The two recorders on the same operations: equal hashes, equal lengths, equal entry bytes. */
module Agreement {
  import opened Bytes
  import opened Wire
  import opened Probes
  import opened CallSpec
  import opened Entries
  import R = RustCall
  import C = CCall
  import opened WireIo
  import Fnv

  /** What one recorder reports of a finished call. */
  datatype Report = Report(inputHash: u64, outputHash: u64, inputLen: nat, outputLen: nat, body: seq<byte>)

  /** The report of a call whose two sides ended as given. */
  function ReportOf(input: Lane, output: Lane, number: nat): Report {
    Report(input.hash, output.hash, input.length, output.length,
           EncodeEntry(R.EntryOf(number, input.captured, output.captured)))
  }

  /** What the Rust recorder reports of a call. */
  function RustReport(cfg: Config, function_: Name, ops: seq<SidedOp>, number: nat): Report {
    ReportOf(RustRun(cfg, Prefix(In), function_, OnSide(ops, In)),
             RustRun(cfg, Prefix(Out), function_, OnSide(ops, Out)), number)
  }

  /** What the C recorder reports of a call. */
  function CReport(cfg: Config, function_: Name, ops: seq<SidedOp>, number: nat): Report {
    ReportOf(CRun(cfg, Prefix(In), function_, OnSide(ops, In)),
             CRun(cfg, Prefix(Out), function_, OnSide(ops, Out)), number)
  }

  /** One side of a call, on both recorders. */
  lemma {:induction false} SideAgrees(cfg: Config, prefix: string, function_: Name, ops: seq<Op>)
    requires Printable(prefix)
    ensures var r, c := RustRun(cfg, prefix, function_, ops), CRun(cfg, prefix, function_, ops);
            && SameRecord(r, c)
            && (cfg.tsv || cfg.deep ==>
                  r.hash == Fnv.Hash(CallBytes(function_, ops)) && r.length == Size(ops) % 0x1_0000_0000_0000_0000)
            && (!cfg.tsv && !cfg.deep ==> r.hash == Fnv.OFFSET && r.length == 0)
  {
    RecordersAgree(cfg, prefix, function_, ops);
    if cfg.tsv || cfg.deep {
      HashOfCall(cfg, prefix, function_, ops);
      LengthIs(cfg, prefix, function_, ops);
    } else {
      InactiveRecordsNothing(cfg, prefix, function_, ops);
    }
  }

  /** Whatever the operations and whatever is switched on, both recorders report the same. When the rows or the deep log
      are on, the hashes are those of the two byte streams of the call, and the lengths count the bytes of its byte
      probes and one for every other operation; otherwise nothing is recorded. */
  lemma {:induction false} ReportsAgree(cfg: Config, function_: Name, ops: seq<SidedOp>, number: nat)
    ensures RustReport(cfg, function_, ops, number) == CReport(cfg, function_, ops, number)
    ensures var r, input, output := RustReport(cfg, function_, ops, number), OnSide(ops, In), OnSide(ops, Out);
            cfg.tsv || cfg.deep ==>
              && r.inputHash == Fnv.Hash(CallBytes(function_, input)) && r.outputHash == Fnv.Hash(CallBytes(function_, output))
              && r.inputLen == Size(input) % 0x1_0000_0000_0000_0000 && r.outputLen == Size(output) % 0x1_0000_0000_0000_0000
    ensures var r := RustReport(cfg, function_, ops, number);
            !cfg.tsv && !cfg.deep ==> r.inputHash == r.outputHash == Fnv.OFFSET && r.inputLen == r.outputLen == 0
  {
    SideAgrees(cfg, Prefix(In), function_, OnSide(ops, In));
    SideAgrees(cfg, Prefix(Out), function_, OnSide(ops, Out));
  }

  /** With the deep log on, the entry of a call holds the values of its input probes and of its output probes, in order
      and under their names, and the hash of the former. */
  lemma {:induction false} EntryOfCall(cfg: Config, function_: Name, ops: seq<SidedOp>, number: nat)
    returns (inputs: seq<Field>, outputs: seq<Field>)
    requires cfg.deep
    ensures RustReport(cfg, function_, ops, number).body
         == EncodeEntry(Entry(number, None, None, inputs, Return(outputs), InputHash(None, inputs)))
    ensures AreCaptures(inputs, "in", Capturing(OnSide(ops, In))) && AreCaptures(outputs, "out", Capturing(OnSide(ops, Out)))
  {
    inputs := RustRun(cfg, Prefix(In), function_, OnSide(ops, In)).captured;
    outputs := RustRun(cfg, Prefix(Out), function_, OnSide(ops, Out)).captured;
    CapturedAre(cfg, Prefix(In), function_, OnSide(ops, In));
    CapturedAre(cfg, Prefix(Out), function_, OnSide(ops, Out));
  }

  /** A call recorded by the Rust recorder, its values serialised at the end. */
  method RecordRust(cfg: Config, function_: Name, ops: seq<SidedOp>, number: u32) returns (r: Report)
    requires R.AllPortable(ops)
    ensures r == RustReport(cfg, function_, ops, number)
  {
    var call := R.RecordCall(cfg, function_, ops);
    ghost var input, output := call.input.View(), call.output.View();
    var entry := R.EntryOf(number, call.input.captured, call.output.captured);
    var w := new Sink();
    WriteEntryBody(w, entry);
    assert [] + EncodeEntry(entry) == EncodeEntry(entry);
    r := Report(call.input.hash.state, call.output.hash.state, call.input.length, call.output.length, w.out);
    assert r == ReportOf(input, output, number);
  }

  /** A call recorded by the C recorder, its entry assembled from the buffers. */
  method RecordC(cfg: Config, function_: Name, ops: seq<SidedOp>, number: u32) returns (r: Report)
    ensures r == CReport(cfg, function_, ops, number)
  {
    var call := C.RecordCall(cfg, function_, ops);
    ghost var input, output := call.input.View(), call.output.View();
    var body := C.AssembleBody(number, call.input, call.output);
    r := Report(call.input.hash, call.output.hash, call.input.length, call.output.length, body);
    assert r == ReportOf(input, output, number);
  }

  /** Any call, recorded by both recorders with any interleaving of input and output operations: each reports what its
      own run says, and the reports are equal. */
  method RecordBoth(cfg: Config, function_: Name, ops: seq<SidedOp>, number: u32) returns (rust: Report, c: Report)
    requires R.AllPortable(ops)
    ensures rust == RustReport(cfg, function_, ops, number) && c == CReport(cfg, function_, ops, number)
    ensures rust == c
  {
    rust := RecordRust(cfg, function_, ops, number);
    c := RecordC(cfg, function_, ops, number);
    ReportsAgree(cfg, function_, ops, number);
  }
}
