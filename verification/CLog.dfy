/** The C recorder's log file, used by one thread, and its relation to the Rust log. */
module CLog {
  import opened Bytes
  import opened Wire
  import opened Entries
  import opened Frames
  import opened Sampling
  import opened DeepLogs
  import opened CallSpec
  import opened Probes
  import R = RustCall
  import C = CCall

  /** The sampling modes the C recorder has. */
  datatype Mode = ModeAll | ModeFirst(n: u64)

  /** A finished call: its captured inputs and outputs. */
  datatype Finished = Finished(inputs: seq<Field>, outputs: seq<Field>)

  predicate Emits(mode: Mode, number: nat) {
    mode.ModeAll? || number < mode.n
  }

  /** The file's sequence counter, 32 bits wide, after `k` calls. */
  function SeqAfter(mode: Mode, k: nat): nat {
    if k == 0 then 0
    else
      var n := SeqAfter(mode, k - 1);
      if Emits(mode, n) then (n + 1) % TWO32 else n
  }

  /** The entries of the file after some calls. */
  function CEntries(mode: Mode, calls: seq<Finished>): seq<Entry> {
    if calls == [] then []
    else
      var front, last := calls[..|calls| - 1], calls[|calls| - 1];
      var n := SeqAfter(mode, |front|);
      CEntries(mode, front) + (if Emits(mode, n) then [R.EntryOf(n, last.inputs, last.outputs)] else [])
  }

  class LogFile {
    const mode: Mode
    var number: nat
    var out: seq<byte>
    ghost var history: seq<Finished>

    ghost predicate Valid()
      reads this
    {
      && number == SeqAfter(mode, |history|) && number < TWO32
      && out == Stream(CEntries(mode, history))
    }

    constructor (mode: Mode)
      ensures Valid() && this.mode == mode && history == []
    {
      this.mode := mode;
      number := 0;
      out := [];
      history := [];
    }

    /** The sampling part of `tracehash_finish` and `deep_write_entry`, when no other thread runs. */
    method Finish(call: C.CallHandle) returns (r: Option<nat>)
      requires Valid() && call.Valid()
      modifies this
      ensures Valid() && history == old(history) + [Finished(call.input.captured, call.output.captured)]
      ensures r == if Emits(mode, old(number)) then Some(old(number)) else None
    {
      ghost var done := Finished(call.input.captured, call.output.captured);
      var emit := mode.ModeAll? || number < mode.n;
      if emit {
        var body := C.AssembleBody(number, call.input, call.output);
        Ready(mode, history, done, number, out, body);
        r := Put(body, done);
      } else {
        NotSampled(mode, history, done);
        history := history + [done];
        r := None;
      }
    }

    /** `deep_write_entry` once the body is assembled. */
    method Put(body: seq<byte>, ghost done: Finished) returns (r: Option<nat>)
      requires Follows(mode, history, done, number, out, body)
      modifies this
      ensures Valid() && history == old(history) + [done] && r == Some(old(number))
    {
      WriteBody(body);
      r := Some(number);
      number := (number + 1) % TWO32;
      history := history + [done];
    }

    method WriteBody(body: seq<byte>)
      modifies `out
      ensures out == old(out) + FrameOf(body)
    {
      assert out + Le(|body|, 4) + body == out + FrameOf(body);
      out := out + Le(|body|, 4);
      out := out + body;
    }
  }

  /** Writing the body and stepping the counter is what one more call does. */
  predicate Follows(mode: Mode, calls: seq<Finished>, p: Finished, number: nat, out: seq<byte>, body: seq<byte>) {
    && SeqAfter(mode, |calls + [p]|) == (number + 1) % TWO32
    && Stream(CEntries(mode, calls + [p])) == out + FrameOf(body)
  }

  lemma {:induction false} Ready(mode: Mode, calls: seq<Finished>, p: Finished, number: nat, out: seq<byte>, body: seq<byte>)
    requires number == SeqAfter(mode, |calls|) && out == Stream(CEntries(mode, calls)) && Emits(mode, number)
    requires body == EncodeEntry(R.EntryOf(number, p.inputs, p.outputs))
    ensures Follows(mode, calls, p, number, out, body)
  {
    CountStep(mode, calls, p);
    EntriesStep(mode, calls, p);
    StreamPush(CEntries(mode, calls), R.EntryOf(number, p.inputs, p.outputs));
  }

  /** A call that is not sampled changes neither the counter nor the file. */
  lemma {:induction false} NotSampled(mode: Mode, calls: seq<Finished>, p: Finished)
    requires !Emits(mode, SeqAfter(mode, |calls|))
    ensures SeqAfter(mode, |calls + [p]|) == SeqAfter(mode, |calls|) && CEntries(mode, calls + [p]) == CEntries(mode, calls)
  {
    CountStep(mode, calls, p);
    EntriesStep(mode, calls, p);
  }

  lemma {:induction false} CountStep(mode: Mode, calls: seq<Finished>, p: Finished)
    ensures var n := SeqAfter(mode, |calls|);
            SeqAfter(mode, |calls + [p]|) == if Emits(mode, n) then (n + 1) % TWO32 else n
  {
    SeqStep(mode, |calls|);
    assert |calls + [p]| == |calls| + 1;
  }

  lemma {:induction false} SeqStep(mode: Mode, k: nat)
    ensures var n := SeqAfter(mode, k); SeqAfter(mode, k + 1) == if Emits(mode, n) then (n + 1) % TWO32 else n
  {
  }

  lemma {:induction false} EntriesStep(mode: Mode, calls: seq<Finished>, p: Finished)
    ensures var n := SeqAfter(mode, |calls|);
            CEntries(mode, calls + [p]) ==
              if Emits(mode, n) then CEntries(mode, calls) + [R.EntryOf(n, p.inputs, p.outputs)] else CEntries(mode, calls)
  {
    assert (calls + [p])[..|calls|] == calls;
    assert CEntries(mode, calls) + [] == CEntries(mode, calls);
  }

  // ----- which calls the file holds

  /** A limit the 32-bit counter can never reach stops nothing. */
  predicate Unlimited(mode: Mode) {
    mode.ModeAll? || mode.n >= TWO32
  }

  /** How many of `k` calls the file holds: they are always the first ones. */
  function Held(mode: Mode, k: nat): nat {
    if Unlimited(mode) || k <= mode.n then k else mode.n
  }

  lemma {:induction false} SeqIs(mode: Mode, k: nat)
    ensures SeqAfter(mode, k) == Held(mode, k) % TWO32
    ensures Emits(mode, SeqAfter(mode, k)) <==> Held(mode, k) == k && (Unlimited(mode) || k < mode.n)
  {
    HeldEmits(mode, k);
    if k > 0 {
      SeqIs(mode, k - 1);
      HeldStep(mode, k - 1);
      SeqStep(mode, k - 1);
    }
  }

  lemma {:induction false} HeldEmits(mode: Mode, k: nat)
    ensures Emits(mode, Held(mode, k) % TWO32) <==> Held(mode, k) == k && (Unlimited(mode) || k < mode.n)
  {
    if !Unlimited(mode) {
      assert Held(mode, k) % TWO32 == Held(mode, k);
    }
  }

  lemma {:induction false} HeldStep(mode: Mode, k: nat)
    ensures Held(mode, k + 1) % TWO32
         == if Held(mode, k) == k && (Unlimited(mode) || k < mode.n) then (Held(mode, k) % TWO32 + 1) % TWO32
            else Held(mode, k) % TWO32
  {
    WrapNext(k);
  }

  function Data(p: Finished): CallData {
    CallData(None, None, p.inputs, Return(p.outputs))
  }

  function AllData(calls: seq<Finished>): (r: seq<CallData>)
    ensures |r| == |calls|
  {
    seq(|calls|, i requires 0 <= i < |calls| => Data(calls[i]))
  }

  /** The entries of all calls, whatever is sampled. */
  function Raw(hash: CallData -> u64, calls: seq<CallData>): (es: seq<Entry>)
    ensures |es| == |calls|
  {
    seq(|calls|, i requires 0 <= i < |calls| =>
      Entry(i % TWO32, calls[i].receiverIn, calls[i].receiverOut, calls[i].inputs, calls[i].outcome, hash(calls[i])))
  }

  lemma {:induction false} RawPush(hash: CallData -> u64, calls: seq<CallData>, c: CallData)
    ensures Raw(hash, calls + [c]) == Raw(hash, calls)
      + [Entry(|calls| % TWO32, c.receiverIn, c.receiverOut, c.inputs, c.outcome, hash(c))]
  {
  }

  /** The C file holds the entries of the first calls, numbered from zero, duplicates and all. */
  lemma {:induction false} CHoldsPrefix(mode: Mode, calls: seq<Finished>)
    ensures Held(mode, |calls|) <= |calls|
    ensures CEntries(mode, calls) == Raw(HashOf, AllData(calls))[..Held(mode, |calls|)]
  {
    if calls != [] {
      var front, last := calls[..|calls| - 1], calls[|calls| - 1];
      CHoldsPrefix(mode, front);
      SeqIs(mode, |front|);
      assert AllData(calls) == AllData(front) + [Data(last)];
      RawPush(HashOf, AllData(front), Data(last));
    }
  }

  // ----- the Rust log under the same modes

  function PolicyOf(mode: Mode): SamplePolicy {
    if mode.ModeAll? then All else FirstN(mode.n)
  }

  function RunOf(mode: Mode, below: nat -> bool, hash: CallData -> u64): SampleRun {
    SampleRun(PolicyOf(mode), below, hash)
  }

  function HashesOf(es: seq<Entry>): set<nat> {
    set i | 0 <= i < |es| :: es[i].contentHash
  }

  /** Every entry whose content hash is not that of an earlier one. */
  function Dedup(es: seq<Entry>): seq<Entry> {
    if es == [] then []
    else
      var front, last := es[..|es| - 1], es[|es| - 1];
      Dedup(front) + (if last.contentHash in HashesOf(front) then [] else [last])
  }

  /** How many of `k` calls the Rust policy decides to record: the first ones. */
  function Sampled(mode: Mode, k: nat): nat {
    if mode.ModeAll? || k <= mode.n then k else mode.n
  }

  lemma {:induction false} DedupPush(es: seq<Entry>, e: Entry)
    ensures Dedup(es + [e]) == Dedup(es) + (if e.contentHash in HashesOf(es) then [] else [e])
  {
    assert (es + [e])[..|es|] == es;
  }

  /** The hashes a new call is checked against are those of the sampled calls. */
  lemma {:induction false} SampledHashes(mode: Mode, below: nat -> bool, hash: CallData -> u64, calls: seq<CallData>)
    ensures RecordHashes(RunOf(mode, below, hash), calls) == HashesOf(Raw(hash, calls)[..Sampled(mode, |calls|)])
  {
    var s, es := RunOf(mode, below, hash), Raw(hash, calls)[..Sampled(mode, |calls|)];
    forall h | h in RecordHashes(s, calls) ensures h in HashesOf(es) {
      var j :| 0 <= j < |calls| && s.Of(j).Record? && s.hash(calls[j]) == h;
      assert es[j].contentHash == h;
    }
    forall h | h in HashesOf(es) ensures h in RecordHashes(s, calls) {
      var j :| 0 <= j < |es| && es[j].contentHash == h;
      assert s.Of(j).Record? && s.hash(calls[j]) == h;
    }
  }

  /** The Rust log holds the first calls too, with repeated content removed; flushes do nothing. */
  lemma {:induction false} RustHoldsDedup(mode: Mode, below: nat -> bool, hash: CallData -> u64, h: seq<Event>)
    ensures Pending(RunOf(mode, below, hash), h) == None
    ensures LogOf(RunOf(mode, below, hash), h) == Dedup(Raw(hash, Calls(h))[..Sampled(mode, |Calls(h)|)])
  {
    if h != [] {
      var s, front, e := RunOf(mode, below, hash), h[..|h| - 1], h[|h| - 1];
      RustHoldsDedup(mode, below, hash, front);
      assert h == front + [e];
      CallsPush(front, e);
      WrittenPush(s, front, e);
      LogPush(s, front, e);
      if e.Recorded? {
        RustPush(mode, below, hash, front, e.call);
      }
    } else {
      assert LogOf(RunOf(mode, below, hash), h) == [];
    }
  }

  lemma {:induction false} RustPush(mode: Mode, below: nat -> bool, hash: CallData -> u64, h: seq<Event>, c: CallData)
    ensures var calls, more := Calls(h), Calls(h) + [c];
            Dedup(Raw(hash, more)[..Sampled(mode, |more|)])
            == Dedup(Raw(hash, calls)[..Sampled(mode, |calls|)]) + Appended(RunOf(mode, below, hash), h, Recorded(c))
  {
    var s, calls := RunOf(mode, below, hash), Calls(h);
    CallsPush(h, Recorded(c));
    SeenPush(s, calls, c);
    SampledHashes(mode, below, hash, calls);
    SampledPush(mode, hash, calls, c);
  }

  /** One more sampled call: kept unless its hash is there already. */
  lemma {:induction false} SampledPush(mode: Mode, hash: CallData -> u64, calls: seq<CallData>, c: CallData)
    ensures var more, k := calls + [c], |calls|;
            var old_ := Raw(hash, calls)[..Sampled(mode, k)];
            Dedup(Raw(hash, more)[..Sampled(mode, k + 1)])
            == Dedup(old_) + (if (mode.ModeAll? || k < mode.n) && hash(c) !in HashesOf(old_)
                              then [Entry(k % TWO32, c.receiverIn, c.receiverOut, c.inputs, c.outcome, hash(c))] else [])
  {
    var more, k := calls + [c], |calls|;
    var last := Entry(k % TWO32, c.receiverIn, c.receiverOut, c.inputs, c.outcome, hash(c));
    RawPush(hash, calls, c);
    if mode.ModeAll? || k < mode.n {
      assert Raw(hash, calls)[..k] == Raw(hash, calls);
      assert Raw(hash, more)[..k + 1] == Raw(hash, calls) + [last];
      DedupPush(Raw(hash, calls), last);
    } else {
      assert Raw(hash, more)[..Sampled(mode, k)] == Raw(hash, calls)[..Sampled(mode, k)];
    }
  }

  // ----- the two logs

  /** Removing repeats commutes with taking a prefix, exactly when nothing new follows it. */
  lemma {:induction false} DedupOfPrefix(es: seq<Entry>, k: nat)
    requires k <= |es|
    ensures |Dedup(es[..k])| <= |Dedup(es)|
    ensures Dedup(es[..k]) == Dedup(es) <==> forall i :: k <= i < |es| ==> es[i].contentHash in HashesOf(es[..i])
  {
    if k == |es| {
      assert es[..k] == es;
    } else {
      var front := es[..|es| - 1];
      DedupOfPrefix(front, k);
      assert front[..k] == es[..k];
      assert forall i :: 0 <= i < |front| ==> front[..i] == es[..i];
    }
  }

  /** Whether call `i` repeats the content of an earlier call. */
  predicate Repeats(hash: CallData -> u64, calls: seq<CallData>, i: nat)
    requires i < |calls|
  {
    exists j :: 0 <= j < i && hash(calls[j]) == hash(calls[i])
  }

  /** Taking the first `k` calls loses no content exactly when every later call repeats one. */
  lemma {:induction false} PrefixKeepsContent(hash: CallData -> u64, data: seq<CallData>, k: nat)
    requires k <= |data|
    ensures Dedup(Raw(hash, data)[..k]) == Dedup(Raw(hash, data))
       <==> forall i :: k <= i < |data| ==> Repeats(hash, data, i)
  {
    var es := Raw(hash, data);
    DedupOfPrefix(es, k);
    forall i | k <= i < |es| ensures es[i].contentHash in HashesOf(es[..i]) <==> Repeats(hash, data, i) {
      RepeatsIsSeen(hash, data, i);
    }
  }

  lemma {:induction false} RepeatsIsSeen(hash: CallData -> u64, data: seq<CallData>, i: nat)
    requires i < |data|
    ensures Raw(hash, data)[i].contentHash in HashesOf(Raw(hash, data)[..i]) <==> Repeats(hash, data, i)
  {
    var es := Raw(hash, data);
    if Repeats(hash, data, i) {
      var j :| 0 <= j < i && hash(data[j]) == hash(data[i]);
      assert es[..i][j].contentHash == es[i].contentHash;
    }
    if es[i].contentHash in HashesOf(es[..i]) {
      var j :| 0 <= j < |es[..i]| && es[..i][j].contentHash == es[i].contentHash;
      assert hash(data[j]) == hash(data[i]);
    }
  }

  /** For any calls, and any flushes on the Rust side: the Rust log is the C log with every later
      entry of an already seen content removed, same numbers and same content, if the limit is below
      2^32 or not passed. Otherwise the C counter wraps before it reaches the limit and the C file
      goes on: then the logs still correspond exactly when every call past the limit repeats one. */
  lemma {:induction false} LogsCorrespond(mode: Mode, below: nat -> bool, h: seq<Event>, calls: seq<Finished>)
    requires Calls(h) == AllData(calls)
    ensures LogOf(RunOf(mode, below, HashOf), h) == Dedup(CEntries(mode, calls))
       <==> mode.ModeAll? || mode.n < TWO32 || |calls| <= mode.n
            || forall i :: mode.n <= i < |calls| ==> Repeats(HashOf, AllData(calls), i)
  {
    RustHoldsDedup(mode, below, HashOf, h);
    CHoldsPrefix(mode, calls);
    var data := AllData(calls);
    if Held(mode, |calls|) != Sampled(mode, |calls|) {
      PrefixKeepsContent(HashOf, data, Sampled(mode, |calls|));
      assert Raw(HashOf, data)[..|calls|] == Raw(HashOf, data);
    }
  }

  // ----- from probe operations to the two files

  /** What each recorder captures of a call of the traced function. */
  function RustFinished(cfg: Config, function_: Name, ops: seq<SidedOp>): Finished {
    Finished(RustRun(cfg, Prefix(In), function_, OnSide(ops, In)).captured,
             RustRun(cfg, Prefix(Out), function_, OnSide(ops, Out)).captured)
  }

  function CFinished(cfg: Config, function_: Name, ops: seq<SidedOp>): Finished {
    Finished(CRun(cfg, Prefix(In), function_, OnSide(ops, In)).captured,
             CRun(cfg, Prefix(Out), function_, OnSide(ops, Out)).captured)
  }

  function RustFinishedAll(cfg: Config, function_: Name, runs: seq<seq<SidedOp>>): (r: seq<Finished>)
    ensures |r| == |runs|
  {
    seq(|runs|, i requires 0 <= i < |runs| => RustFinished(cfg, function_, runs[i]))
  }

  function CFinishedAll(cfg: Config, function_: Name, runs: seq<seq<SidedOp>>): (r: seq<Finished>)
    ensures |r| == |runs|
  {
    seq(|runs|, i requires 0 <= i < |runs| => CFinished(cfg, function_, runs[i]))
  }

  lemma {:induction false} FinishedAgree(cfg: Config, function_: Name, runs: seq<seq<SidedOp>>)
    ensures RustFinishedAll(cfg, function_, runs) == CFinishedAll(cfg, function_, runs)
  {
    forall i | 0 <= i < |runs| ensures RustFinished(cfg, function_, runs[i]) == CFinished(cfg, function_, runs[i]) {
      RecordersAgree(cfg, Prefix(In), function_, OnSide(runs[i], In));
      RecordersAgree(cfg, Prefix(Out), function_, OnSide(runs[i], Out));
    }
  }

  /** The same calls of one function in both languages: reading the Rust file gives the entries of the C file without
      its repeats, exactly when the limit is below 2^32, or is not exceeded, or the further calls only repeat inputs. */
  lemma {:induction false} SameProbesSameLogs(mode: Mode, below: nat -> bool, cfg: Config, function_: Name,
                                              runs: seq<seq<SidedOp>>, h: seq<Event>)
    requires Calls(h) == AllData(RustFinishedAll(cfg, function_, runs))
    requires AllFrameable(LogOf(RunOf(mode, below, HashOf), h))
    requires AllFrameable(CEntries(mode, CFinishedAll(cfg, function_, runs)))
    ensures ReadAll(Stream(LogOf(RunOf(mode, below, HashOf), h)))
         == Log(Dedup(ReadAll(Stream(CEntries(mode, CFinishedAll(cfg, function_, runs)))).entries), AtEnd)
       <==> mode.ModeAll? || mode.n < TWO32 || |runs| <= mode.n
            || forall i :: mode.n <= i < |runs| ==> Repeats(HashOf, AllData(CFinishedAll(cfg, function_, runs)), i)
  {
    FinishedAgree(cfg, function_, runs);
    LogsCorrespond(mode, below, h, CFinishedAll(cfg, function_, runs));
    LogRoundTrip(LogOf(RunOf(mode, below, HashOf), h));
    LogRoundTrip(CEntries(mode, CFinishedAll(cfg, function_, runs)));
  }
}
