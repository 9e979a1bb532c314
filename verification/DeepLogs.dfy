/** The per-function log writer: sampling, deduplication, the last-call buffer, flushing. */
module DeepLogs {
  import opened Bytes
  import opened Wire
  import opened Entries
  import opened Frames
  import opened Sampling
  import opened WireIo
  import Fnv

  datatype CallData = CallData(
    receiverIn: Option<Value>,
    receiverOut: Option<Value>,
    inputs: seq<Field>,
    outcome: Outcome)

  datatype Event = Recorded(call: CallData) | Flushed

  /** What decides a run: the policy, the random stream and the content hash. */
  datatype SampleRun = SampleRun(policy: SamplePolicy, below: nat -> bool, hash: CallData -> u64) {
    function Of(i: nat): Sample { Decision(policy, below, i) }
  }

  // ----- the specification of a run

  function Calls(h: seq<Event>): seq<CallData> {
    if h == [] then []
    else Calls(h[..|h| - 1]) + (if h[|h| - 1].Recorded? then [h[|h| - 1].call] else [])
  }

  function HashOf(c: CallData): u64 {
    InputHash(c.receiverIn, c.inputs)
  }

  /** The entry of call `i`; its number is the low 32 bits of `i`. */
  function EntryAt(s: SampleRun, calls: seq<CallData>, i: nat): Entry
    requires i < |calls|
  {
    var c := calls[i];
    Entry(i % TWO32, c.receiverIn, c.receiverOut, c.inputs, c.outcome, s.hash(c))
  }

  /** Call `i` is written when made: decided Record, and the first such call with its content hash. */
  predicate Direct(s: SampleRun, calls: seq<CallData>, i: nat) {
    && i < |calls| && s.Of(i).Record?
    && forall j :: 0 <= j < i && s.Of(j).Record? ==> s.hash(calls[j]) != s.hash(calls[i])
  }

  /** The most recent call decided BufferAsLast since the last flush. */
  function Pending(s: SampleRun, h: seq<Event>): Option<nat> {
    if h == [] then None
    else
      var front := h[..|h| - 1];
      if h[|h| - 1].Flushed? then None
      else if s.Of(|Calls(front)|).BufferAsLast? then Some(|Calls(front)|)
      else Pending(s, front)
  }

  /** The calls in the log, in file order: direct ones when made, the pending one at a flush. */
  function Written(s: SampleRun, h: seq<Event>): seq<nat> {
    if h == [] then []
    else
      var front := h[..|h| - 1];
      var i := |Calls(front)|;
      if h[|h| - 1].Recorded? then
        Written(s, front) + (if Direct(s, Calls(h), i) then [i] else [])
      else
        Written(s, front) + (if Pending(s, front).Some? then [Pending(s, front).value] else [])
  }

  /** What recording call `i` reports for its trace row. */
  function Reported(s: SampleRun, calls: seq<CallData>, i: nat): Option<nat> {
    if Direct(s, calls, i) then Some(i % TWO32) else None
  }

  lemma {:induction false} CallsPush(h: seq<Event>, e: Event)
    ensures Calls(h + [e]) == if e.Recorded? then Calls(h) + [e.call] else Calls(h)
  {
    assert (h + [e])[..|h|] == h;
    assert Calls(h) + [] == Calls(h);
  }

  lemma {:induction false} WrittenPush(s: SampleRun, h: seq<Event>, e: Event)
    ensures e.Recorded? ==>
      && Written(s, h + [e]) == Written(s, h) + (if Direct(s, Calls(h + [e]), |Calls(h)|) then [|Calls(h)|] else [])
      && Pending(s, h + [e]) == if s.Of(|Calls(h)|).BufferAsLast? then Some(|Calls(h)|) else Pending(s, h)
    ensures e.Flushed? ==>
      && Written(s, h + [e]) == Written(s, h) + (if Pending(s, h).Some? then [Pending(s, h).value] else [])
      && Pending(s, h + [e]) == None
  {
    assert (h + [e])[..|h|] == h;
  }

  // ----- order, distinctness, membership

  predicate Increasing(w: seq<nat>) {
    forall a, b :: 0 <= a < b < |w| ==> w[a] < w[b]
  }

  predicate Distinct(w: seq<nat>) {
    forall a, b :: 0 <= a < b < |w| ==> w[a] != w[b]
  }

  /** The calls with one decision keep their order in the file. */
  predicate OrderedPerDecision(s: SampleRun, w: seq<nat>) {
    forall a, b :: 0 <= a < b < |w| && s.Of(w[a]) == s.Of(w[b]) ==> w[a] < w[b]
  }

  /** A pending call is one decided BufferAsLast, newer than every buffered call in the log. */
  lemma {:induction false} PendingIsNewest(s: SampleRun, h: seq<Event>)
    ensures forall i :: i in Written(s, h) ==> i < |Calls(h)|
    ensures var p := Pending(s, h);
            p.Some? ==>
              && p.value < |Calls(h)| && s.Of(p.value).BufferAsLast?
              && forall i :: i in Written(s, h) && s.Of(i).BufferAsLast? ==> i < p.value
  {
    if h != [] {
      var front, e := h[..|h| - 1], h[|h| - 1];
      PendingIsNewest(s, front);
      assert h == front + [e];
      CallsPush(front, e);
      WrittenPush(s, front, e);
    }
  }

  /** The log holds every call at most once; directly recorded calls are in call order, and so are
      the flushed ones. */
  lemma {:induction false} WrittenOrder(s: SampleRun, h: seq<Event>)
    ensures OrderedPerDecision(s, Written(s, h)) && Distinct(Written(s, h))
    ensures forall i :: i in Written(s, h) ==> i < |Calls(h)| && !s.Of(i).Skip?
  {
    if h != [] {
      var front, e := h[..|h| - 1], h[|h| - 1];
      WrittenOrder(s, front);
      PendingIsNewest(s, front);
      assert h == front + [e];
      CallsPush(front, e);
      WrittenPush(s, front, e);
    }
  }

  /** Appending a call does not change which earlier calls are direct. */
  lemma {:induction false} DirectStable(s: SampleRun, calls: seq<CallData>, c: CallData, i: nat)
    requires i < |calls|
    ensures Direct(s, calls + [c], i) == Direct(s, calls, i)
  {
    var more := calls + [c];
    assert forall j :: 0 <= j <= i ==> more[j] == calls[j];
  }

  /** Among the calls decided Record, exactly the first occurrences by content hash are in the log. */
  lemma {:induction false} DirectIffWritten(s: SampleRun, h: seq<Event>, i: nat)
    requires i < |Calls(h)| && s.Of(i).Record?
    ensures i in Written(s, h) <==> Direct(s, Calls(h), i)
  {
    var front, e := h[..|h| - 1], h[|h| - 1];
    assert h == front + [e];
    CallsPush(front, e);
    WrittenPush(s, front, e);
    PendingIsNewest(s, front);
    if i < |Calls(front)| {
      DirectIffWritten(s, front, i);
      if e.Recorded? {
        DirectStable(s, Calls(front), e.call, i);
      }
    }
  }

  /** A call decided BufferAsLast is in the log exactly when it was pending at some flush. */
  lemma {:induction false} BufferedIffFlushed(s: SampleRun, h: seq<Event>, i: nat)
    requires s.Of(i).BufferAsLast?
    ensures i in Written(s, h) <==> exists k :: 0 <= k < |h| && h[k].Flushed? && Pending(s, h[..k]) == Some(i)
  {
    if h != [] {
      var front, e := h[..|h| - 1], h[|h| - 1];
      assert h == front + [e];
      BufferedIffFlushed(s, front, i);
      WrittenPush(s, front, e);
      assert forall k :: 0 <= k < |front| ==> h[..k] == front[..k] && h[k] == front[k];
      if i in Written(s, front) {
        var k :| 0 <= k < |front| && front[k].Flushed? && Pending(s, front[..k]) == Some(i);
        assert h[k].Flushed? && Pending(s, h[..k]) == Some(i);
      }
      if i in Written(s, h) && i !in Written(s, front) {
        assert h[|front|].Flushed? && Pending(s, h[..|front|]) == Some(i);
      }
    }
  }

  // ----- what each policy writes

  /** No earlier call has the content hash of call `i`. */
  predicate NewContent(s: SampleRun, calls: seq<CallData>, i: nat)
    requires i < |calls|
  {
    forall j :: 0 <= j < i ==> s.hash(calls[j]) != s.hash(calls[i])
  }

  /** A call that a probabilistic policy records: one of the first, or one whose draw was below p. */
  predicate Drawn(s: SampleRun, j: nat)
    requires s.policy.Probabilistic?
  {
    j < s.policy.firstNAlways || s.below(j - s.policy.firstNAlways)
  }

  /** What is recorded at once, policy by policy: the calls that are new in content among all calls, among the first n,
      or among the first ones and those that were drawn. */
  lemma {:induction false} RecordedByPolicy(s: SampleRun, h: seq<Event>, i: nat)
    requires i < |Calls(h)|
    ensures s.policy.All? ==> (i in Written(s, h) <==> NewContent(s, Calls(h), i))
    ensures s.policy.FirstN? ==> (i in Written(s, h) <==> i < s.policy.n && NewContent(s, Calls(h), i))
    ensures s.policy.FirstNAndLast? && i < s.policy.n ==> (i in Written(s, h) <==> NewContent(s, Calls(h), i))
    ensures s.policy.Probabilistic? ==>
              if Drawn(s, i) then
                i in Written(s, h) <==>
                  forall j :: 0 <= j < i && Drawn(s, j) ==> s.hash(Calls(h)[j]) != s.hash(Calls(h)[i])
              else i in Written(s, h) ==> s.policy.keepLast
  {
    WrittenOrder(s, h);
    if s.Of(i).Record? {
      DirectIffWritten(s, h, i);
      DirectByPolicy(s, Calls(h), i);
    }
  }

  lemma {:induction false} DirectByPolicy(s: SampleRun, calls: seq<CallData>, i: nat)
    requires i < |calls| && s.Of(i).Record?
    ensures if s.policy.Probabilistic? then
              Direct(s, calls, i) <==> forall j :: 0 <= j < i && Drawn(s, j) ==> s.hash(calls[j]) != s.hash(calls[i])
            else Direct(s, calls, i) <==> NewContent(s, calls, i)
  {
    if s.policy.Probabilistic? {
      assert forall j: nat :: s.Of(j).Record? <==> Drawn(s, j);
    } else {
      assert forall j: nat :: j < i ==> s.Of(j).Record?;
      if Direct(s, calls, i) {
        forall j | 0 <= j < i ensures s.hash(calls[j]) != s.hash(calls[i]) {
          assert s.Of(j).Record?;
        }
      }
    }
  }

  /** No flush since call `i` was made. */
  predicate Unflushed(h: seq<Event>, i: nat) {
    forall k :: 0 <= k < |h| && h[k].Flushed? ==> |Calls(h[..k])| <= i
  }

  /** The pending call is the last one decided for the buffer, unless a flush came since. */
  lemma {:induction false} PendingIs(s: SampleRun, h: seq<Event>, i: nat)
    ensures Pending(s, h) == Some(i) <==>
            && i < |Calls(h)| && s.Of(i).BufferAsLast? && Unflushed(h, i)
            && forall j :: i < j < |Calls(h)| ==> !s.Of(j).BufferAsLast?
  {
    if h != [] {
      var front, e := h[..|h| - 1], h[|h| - 1];
      assert h == front + [e];
      PendingIs(s, front, i);
      CallsPush(front, e);
      WrittenPush(s, front, e);
      UnflushedPush(front, e, i);
      if e.Recorded? && i == |Calls(front)| {
        NewCallUnflushed(front, i);
      }
    }
  }

  lemma {:induction false} FewerCalls(h: seq<Event>, k: nat)
    requires k <= |h|
    ensures |Calls(h[..k])| <= |Calls(h)|
  {
    if k < |h| {
      FewerCalls(h[..|h| - 1], k);
      assert h[..|h| - 1][..k] == h[..k];
    } else {
      assert h[..k] == h;
    }
  }

  lemma {:induction false} NewCallUnflushed(h: seq<Event>, i: nat)
    requires i == |Calls(h)|
    ensures Unflushed(h, i)
  {
    forall k | 0 <= k < |h| && h[k].Flushed? ensures |Calls(h[..k])| <= i {
      FewerCalls(h, k);
    }
  }

  lemma {:induction false} UnflushedPush(h: seq<Event>, e: Event, i: nat)
    ensures Unflushed(h + [e], i) <==> Unflushed(h, i) && (e.Flushed? ==> |Calls(h)| <= i)
  {
    var more := h + [e];
    assert more[..|h|] == h && more[|h|] == e;
    assert forall k :: 0 <= k < |h| ==> more[..k] == h[..k] && more[k] == h[k];
  }

  /** Past the first n calls of first-n-and-last exactly those calls are in the log that were the newest one at a
      flush. */
  lemma {:induction false} LastCallsWritten(s: SampleRun, h: seq<Event>, i: nat)
    requires s.policy.FirstNAndLast? && i >= s.policy.n
    ensures i in Written(s, h) <==>
            exists k :: 0 <= k < |h| && h[k].Flushed? && |Calls(h[..k])| == i + 1 && Unflushed(h[..k], i)
  {
    BufferedIffFlushed(s, h, i);
    forall k | 0 <= k < |h| && h[k].Flushed?
      ensures Pending(s, h[..k]) == Some(i) <==> |Calls(h[..k])| == i + 1 && Unflushed(h[..k], i)
    {
      PendingIs(s, h[..k], i);
      if |Calls(h[..k])| > i + 1 {
        assert s.Of(i + 1).BufferAsLast?;
      }
    }
  }

  /** Of the calls that were not drawn exactly those are in the log that were the newest such call at a flush, if the
      policy keeps the last call. */
  lemma {:induction false} UndrawnCallsWritten(s: SampleRun, h: seq<Event>, i: nat)
    requires s.policy.Probabilistic? && !Drawn(s, i)
    ensures i in Written(s, h) <==>
            s.policy.keepLast && exists k :: 0 <= k < |h| && h[k].Flushed? && NewestUndrawn(s, h[..k], i)
  {
    if s.policy.keepLast {
      BufferedIffFlushed(s, h, i);
      forall k | 0 <= k < |h| && h[k].Flushed? ensures Pending(s, h[..k]) == Some(i) <==> NewestUndrawn(s, h[..k], i) {
        PendingIs(s, h[..k], i);
        assert forall j: nat :: s.Of(j).BufferAsLast? <==> !Drawn(s, j);
      }
    } else {
      WrittenOrder(s, h);
    }
  }

  predicate NewestUndrawn(s: SampleRun, h: seq<Event>, i: nat)
    requires s.policy.Probabilistic?
  {
    i < |Calls(h)| && Unflushed(h, i) && forall j :: i < j < |Calls(h)| ==> Drawn(s, j)
  }

  /** A row points at its log entry exactly when the call was decided Record: the entry of a call
      that reaches the log by a flush has no row pointing at it. */
  lemma {:induction false} RowNamesEntry(s: SampleRun, h: seq<Event>, i: nat)
    requires i in Written(s, h)
    ensures i < |Calls(h)|
    ensures Reported(s, Calls(h), i).Some? <==> s.Of(i).Record?
  {
    WrittenOrder(s, h);
    if s.Of(i).Record? {
      DirectIffWritten(s, h, i);
    }
  }

  /** The smallest run that shows it: one buffered call, one flush. */
  lemma {:induction false} FlushedCallHasNoRow(c: CallData, below: nat -> bool, hash: CallData -> u64)
    ensures var s := SampleRun(FirstNAndLast(0), below, hash);
            Written(s, [Recorded(c), Flushed]) == [0] && Reported(s, [c], 0) == None
  {
    var s := SampleRun(FirstNAndLast(0), below, hash);
    var h := [Recorded(c)];
    assert h == [] + [Recorded(c)];
    CallsPush([], Recorded(c));
    WrittenPush(s, [], Recorded(c));
    assert [Recorded(c), Flushed] == h + [Flushed];
    WrittenPush(s, h, Flushed);
  }

  predicate AllBelow(w: seq<nat>, bound: nat) {
    forall k :: 0 <= k < |w| ==> w[k] < bound
  }

  /** When no call is recorded after one was buffered, the entries of the log are in call order. */
  lemma {:induction false} WrittenIncreasing(s: SampleRun, h: seq<Event>)
    requires InOrder(s.policy, s.below)
    ensures Increasing(Written(s, h)) && AllBelow(Written(s, h), |Calls(h)|)
    ensures Pending(s, h).Some? ==> AllBelow(Written(s, h), Pending(s, h).value)
  {
    if h != [] {
      var front, e := h[..|h| - 1], h[|h| - 1];
      WrittenIncreasing(s, front);
      PendingIsNewest(s, front);
      assert h == front + [e];
      CallsPush(front, e);
      WrittenPush(s, front, e);
      if Pending(s, front).Some? {
        NoRecordAfterBuffer(s.policy, s.below, Pending(s, front).value, |Calls(front)|);
      }
    }
  }

  /** The same call made `k` times. */
  function Repeat(c: CallData, k: nat): (h: seq<Event>)
    ensures |h| == k
  {
    seq(k, _ => Recorded(c))
  }

  lemma {:induction false} RepeatPush(c: CallData, k: nat)
    ensures Repeat(c, k + 1) == Repeat(c, k) + [Recorded(c)]
  {
  }

  lemma {:induction false} CallsOfRepeat(c: CallData, k: nat)
    ensures |Calls(Repeat(c, k))| == k && forall i :: 0 <= i < k ==> Calls(Repeat(c, k))[i] == c
  {
    if k > 0 {
      CallsOfRepeat(c, k - 1);
      RepeatPush(c, k - 1);
      CallsPush(Repeat(c, k - 1), Recorded(c));
    }
  }

  /** Without a flush a buffered call stays pending until a newer one takes its place. */
  lemma {:induction false} PendingOfRepeat(s: SampleRun, c: CallData, k: nat, i: nat)
    requires i < k && s.Of(i).BufferAsLast?
    ensures Pending(s, Repeat(c, k)).Some?
  {
    CallsOfRepeat(c, k - 1);
    RepeatPush(c, k - 1);
    WrittenPush(s, Repeat(c, k - 1), Recorded(c));
    if i < k - 1 {
      PendingOfRepeat(s, c, k - 1, i);
    }
  }

  /** A recorded call whose content differs from that of all calls before it is written at once. */
  lemma {:induction false} NewContentIsDirect(s: SampleRun, c: CallData, k: nat, d: CallData)
    requires s.Of(k).Record? && s.hash(c) != s.hash(d)
    ensures Direct(s, Calls(Repeat(c, k) + [Recorded(d)]), k)
  {
    CallsOfRepeat(c, k);
    CallsPush(Repeat(c, k), Recorded(d));
  }

  /** A call recorded while another is pending, and then a flush: the older call follows the newer one. */
  lemma {:induction false} FlushBehind(s: SampleRun, h: seq<Event>, d: CallData)
    requires Pending(s, h).Some? && s.Of(|Calls(h)|).Record? && Direct(s, Calls(h + [Recorded(d)]), |Calls(h)|)
    ensures !Increasing(Written(s, h + [Recorded(d)] + [Flushed]))
  {
    var more, old_ := h + [Recorded(d)], Pending(s, h).value;
    PendingIsNewest(s, h);
    WrittenPush(s, h, Recorded(d));
    WrittenPush(s, more, Flushed);
    var w, n := Written(s, more + [Flushed]), |Written(s, h)|;
    assert w[n] == |Calls(h)| && w[n + 1] == old_;
  }

  /** A draw that buffers before a draw that records: made of two calls with different content, a run whose log holds a
      later call before an earlier one. */
  lemma {:induction false} OutOfOrderRun(s: SampleRun, a: nat, b: nat, c: CallData, d: CallData) returns (h: seq<Event>)
    requires s.policy.Probabilistic? && s.policy.keepLast && s.hash(c) != s.hash(d)
    requires a < b && !s.below(a) && s.below(b)
    ensures !Increasing(Written(s, h))
  {
    var first := s.policy.firstNAlways;
    var i, front := first + b, Repeat(c, first + b);
    CallsOfRepeat(c, i);
    PendingOfRepeat(s, c, i, first + a);
    NewContentIsDirect(s, c, i, d);
    FlushBehind(s, front, d);
    h := front + [Recorded(d)] + [Flushed];
  }

  /** A call with one bool input. */
  function BoolCall(b: bool): CallData {
    CallData(None, None, [Field([], Bool(b))], Return([]))
  }

  /** The canonical input of such a call up to its last byte. */
  function BoolHead(): seq<byte> {
    [0] + (Le(1, 4) + (EncodeName([]) + [TAG_BOOL]))
  }

  lemma {:induction false} LastByte(a: seq<byte>, b: seq<byte>, c: seq<byte>, t: byte, x: byte)
    ensures a + (b + (c + [t, x])) == a + (b + (c + [t])) + [x] + []
  {
    assert c + [t, x] == c + [t] + [x];
    CatAssoc(b, c + [t], [x]);
    CatAssoc(a, b + (c + [t]), [x]);
  }

  lemma {:induction false} BoolField(b: bool)
    ensures EncodeFields([Field([], Bool(b))]) == EncodeName([]) + [TAG_BOOL, if b then 1 else 0]
  {
    var fields := [Field([], Bool(b))];
    assert fields[1..] == [];
    assert EncodeFields(fields) == EncodeField(fields[0]) + EncodeFields([]);
  }

  lemma {:induction false} BoolInput(b: bool)
    ensures CanonicalInput(None, [Field([], Bool(b))]) == BoolHead() + [if b then 1 else 0] + []
  {
    BoolField(b);
    LastByte([0], Le(1, 4), EncodeName([]), TAG_BOOL, if b then 1 else 0);
  }

  /** Two calls whose canonical inputs differ in one byte have different content hashes. */
  lemma {:induction false} BoolCallsDiffer()
    ensures HashOf(BoolCall(false)) != HashOf(BoolCall(true))
  {
    BoolInput(false);
    BoolInput(true);
    Fnv.OneByteNeverCollides(Fnv.OFFSET, BoolHead(), 0, 1, []);
  }

  /** The calls in the log are in call order in every run exactly when no draw records a call after one has buffered a
      call, or the policy keeps no last call, or uses no draws. */
  lemma {:induction false} IncreasingIffInOrder(policy: SamplePolicy, below: nat -> bool)
    ensures InOrder(policy, below) <==> forall h :: Increasing(Written(SampleRun(policy, below, HashOf), h))
  {
    var s := SampleRun(policy, below, HashOf);
    if InOrder(policy, below) {
      forall h ensures Increasing(Written(s, h)) {
        WrittenIncreasing(s, h);
      }
    } else {
      var a: nat, b: nat :| a < b && !below(a) && below(b);
      BoolCallsDiffer();
      var h := OutOfOrderRun(s, a, b, BoolCall(false), BoolCall(true));
      assert !Increasing(Written(s, h));
    }
  }

  /** Under first-n-and-last the newest call is the last entry written or the one pending. */
  lemma {:induction false} NewestKept(s: SampleRun, h: seq<Event>)
    requires s.policy.FirstNAndLast? && |Calls(h)| > s.policy.n
    ensures var w, newest := Written(s, h), |Calls(h)| - 1;
            Pending(s, h) == Some(newest) || (Pending(s, h) == None && w != [] && w[|w| - 1] == newest)
  {
    var front, e := h[..|h| - 1], h[|h| - 1];
    assert h == front + [e];
    CallsPush(front, e);
    WrittenPush(s, front, e);
    if e.Flushed? {
      NewestKept(s, front);
    }
  }

  /** So after a flush, with more than n calls made, the final entry is the last call. */
  lemma {:induction false} FlushWritesLastCall(s: SampleRun, h: seq<Event>)
    requires s.policy.FirstNAndLast? && |Calls(h)| > s.policy.n && h != [] && h[|h| - 1].Flushed?
    ensures var w := Written(s, h); w != [] && w[|w| - 1] == |Calls(h)| - 1
  {
    NewestKept(s, h);
  }

  // ----- reading the log back

  predicate WrittenIn(calls: seq<CallData>, w: seq<nat>) {
    forall k :: 0 <= k < |w| ==> w[k] < |calls|
  }

  function LogEntries(s: SampleRun, calls: seq<CallData>, w: seq<nat>): (es: seq<Entry>)
    requires WrittenIn(calls, w)
    ensures |es| == |w|
  {
    seq(|w|, k requires 0 <= k < |w| => EntryAt(s, calls, w[k]))
  }

  lemma {:induction false} WrittenFits(s: SampleRun, h: seq<Event>)
    ensures WrittenIn(Calls(h), Written(s, h))
  {
    var w := Written(s, h);
    PendingIsNewest(s, h);
    forall k | 0 <= k < |w| ensures w[k] < |Calls(h)| {
      assert w[k] in w;
    }
  }

  /** The log of a run. */
  function LogOf(s: SampleRun, h: seq<Event>): (es: seq<Entry>)
    ensures |es| == |Written(s, h)|
  {
    WrittenFits(s, h);
    LogEntries(s, Calls(h), Written(s, h))
  }

  /** An entry of the log holds the values and the outcome of the call written there, its content hash, and the low 32
      bits of its index. */
  lemma {:induction false} EntryOfLog(s: SampleRun, h: seq<Event>, k: nat)
    requires k < |Written(s, h)|
    ensures var i := Written(s, h)[k];
            && i < |Calls(h)| && LogOf(s, h)[k] == EntryAt(s, Calls(h), i)
            && var c, e := Calls(h)[i], LogOf(s, h)[k];
               && e.number == i % 0x1_0000_0000 && e.contentHash == s.hash(c)
               && e.receiverIn == c.receiverIn && e.receiverOut == c.receiverOut
               && e.inputs == c.inputs && e.outcome == c.outcome
  {
    WrittenFits(s, h);
  }

  predicate NumbersDistinct(es: seq<Entry>) {
    forall a, b :: 0 <= a < b < |es| ==> es[a].number != es[b].number
  }

  predicate HashesMatch(es: seq<Entry>) {
    forall a :: 0 <= a < |es| ==> es[a].contentHash == InputHash(es[a].receiverIn, es[a].inputs)
  }

  /** Reading back the log of any run of at most 2^32 calls: the entries written, with pairwise
      distinct numbers, each holding the hash of its own decoded inputs. */
  lemma {:induction false} ReadBack(s: SampleRun, h: seq<Event>)
    requires |Calls(h)| <= TWO32 && AllFrameable(LogOf(s, h)) && s.hash == HashOf
    ensures ReadAll(Stream(LogOf(s, h))) == Log(LogOf(s, h), AtEnd)
    ensures NumbersDistinct(LogOf(s, h)) && HashesMatch(LogOf(s, h))
  {
    LogRoundTrip(LogOf(s, h));
    LogNumbers(s, h);
    var es := LogOf(s, h);
    forall a | 0 <= a < |es| ensures es[a].contentHash == InputHash(es[a].receiverIn, es[a].inputs) {
      EntryOfLog(s, h, a);
    }
  }

  lemma {:induction false} LogNumbers(s: SampleRun, h: seq<Event>)
    requires |Calls(h)| <= TWO32
    ensures NumbersDistinct(LogOf(s, h))
  {
    var es, w := LogOf(s, h), Written(s, h);
    WrittenOrder(s, h);
    forall a | 0 <= a < |es| ensures es[a].number == w[a] {
      NumberOfEntry(s, h, a);
    }
  }

  /** In a short run the number of an entry is the index of its call. */
  lemma {:induction false} NumberOfEntry(s: SampleRun, h: seq<Event>, k: nat)
    requires |Calls(h)| <= TWO32 && k < |Written(s, h)|
    ensures LogOf(s, h)[k].number == Written(s, h)[k]
  {
    EntryOfLog(s, h, k);
  }

  /** With at most 2^32 calls, and draws that keep the log in call order, the numbers increase from entry to entry. */
  lemma {:induction false} NumbersIncrease(s: SampleRun, h: seq<Event>, a: nat, b: nat)
    requires InOrder(s.policy, s.below) && |Calls(h)| <= TWO32 && a < b < |Written(s, h)|
    ensures LogOf(s, h)[a].number < LogOf(s, h)[b].number
  {
    WrittenIncreasing(s, h);
    NumberOfEntry(s, h, a);
    NumberOfEntry(s, h, b);
  }

  /** Every reported number names exactly one entry, and it is the entry of that call. */
  lemma {:induction false} ReportedNamesOne(s: SampleRun, h: seq<Event>, i: nat) returns (at: nat)
    requires |Calls(h)| <= TWO32 && i < |Calls(h)|
    requires Reported(s, Calls(h), i).Some?
    ensures at < |LogOf(s, h)| && LogOf(s, h)[at] == EntryAt(s, Calls(h), i)
    ensures LogOf(s, h)[at].number == Reported(s, Calls(h), i).value
    ensures forall k :: 0 <= k < |LogOf(s, h)| && LogOf(s, h)[k].number == LogOf(s, h)[at].number ==> k == at
  {
    var w := Written(s, h);
    DirectIffWritten(s, h, i);
    at :| 0 <= at < |w| && w[at] == i;
    EntryOfLog(s, h, at);
    LogNumbers(s, h);
  }

  // ----- one event

  /** Entries already written do not change when a call is added. */
  lemma {:induction false} OldEntries(s: SampleRun, calls: seq<CallData>, call: CallData, w: seq<nat>)
    requires WrittenIn(calls, w)
    ensures WrittenIn(calls + [call], w) && LogEntries(s, calls + [call], w) == LogEntries(s, calls, w)
  {
  }

  lemma {:induction false} NewEntry(s: SampleRun, calls: seq<CallData>, w: seq<nat>, i: nat)
    requires WrittenIn(calls, w) && i < |calls|
    ensures WrittenIn(calls, w + [i])
    ensures LogEntries(s, calls, w + [i]) == LogEntries(s, calls, w) + [EntryAt(s, calls, i)]
  {
  }

  /** What an event appends to the log. */
  function Appended(s: SampleRun, h: seq<Event>, e: Event): seq<Entry> {
    PendingIsNewest(s, h);
    CallsPush(h, e);
    if e.Recorded? then
      if Direct(s, Calls(h + [e]), |Calls(h)|) then [EntryAt(s, Calls(h + [e]), |Calls(h)|)] else []
    else if Pending(s, h).Some? then [EntryAt(s, Calls(h), Pending(s, h).value)]
    else []
  }

  lemma {:induction false} LogPush(s: SampleRun, h: seq<Event>, e: Event)
    ensures LogOf(s, h + [e]) == LogOf(s, h) + Appended(s, h, e)
  {
    WrittenFits(s, h);
    PendingIsNewest(s, h);
    CallsPush(h, e);
    WrittenPush(s, h, e);
    var w := Written(s, h);
    if e.Recorded? {
      OldEntries(s, Calls(h), e.call, w);
      if Direct(s, Calls(h + [e]), |Calls(h)|) {
        NewEntry(s, Calls(h + [e]), w, |Calls(h)|);
      }
    } else if Pending(s, h).Some? {
      NewEntry(s, Calls(h), w, Pending(s, h).value);
    }
  }

  lemma {:induction false} StreamAppended(es: seq<Entry>, more: seq<Entry>)
    requires |more| <= 1
    ensures Stream(es + more) == Stream(es) + Stream(more)
    ensures more != [] ==> Stream(more) == FrameOf(EncodeEntry(more[0]))
  {
    if more == [] {
      assert es + more == es;
    } else {
      assert es + more == es + [more[0]] && more == [] + [more[0]];
      StreamPush(es, more[0]);
      StreamPush([], more[0]);
      assert Stream([]) + FrameOf(EncodeEntry(more[0])) == FrameOf(EncodeEntry(more[0]));
    }
  }

  /** The set of hashes is what a direct call is checked against. */
  function RecordHashes(s: SampleRun, calls: seq<CallData>): set<u64> {
    set j | 0 <= j < |calls| && s.Of(j).Record? :: s.hash(calls[j])
  }

  lemma {:induction false} SeenPush(s: SampleRun, calls: seq<CallData>, call: CallData)
    ensures var more, i := calls + [call], |calls|;
            && RecordHashes(s, more) == RecordHashes(s, calls) + (if s.Of(i).Record? then {s.hash(call)} else {})
            && (Direct(s, more, i) <==> s.Of(i).Record? && s.hash(call) !in RecordHashes(s, calls))
  {
    var more, i := calls + [call], |calls|;
    assert forall j :: 0 <= j < i ==> more[j] == calls[j];
    assert more[i] == call;
    if s.Of(i).Record? {
      assert s.hash(more[i]) in RecordHashes(s, more);
    }
    forall j | 0 <= j < i && s.Of(j).Record? ensures s.hash(calls[j]) in RecordHashes(s, more) {
      assert s.hash(more[j]) in RecordHashes(s, more);
    }
  }

  /** The entry waiting for a flush. */
  function PendingEntry(s: SampleRun, h: seq<Event>): Option<Entry> {
    PendingIsNewest(s, h);
    if Pending(s, h).None? then None else Some(EntryAt(s, Calls(h), Pending(s, h).value))
  }

  function NewCall(s: SampleRun, h: seq<Event>, call: CallData): Entry {
    EntryAt(s, Calls(h) + [call], |Calls(h)|)
  }

  lemma {:induction false} PendingPush(s: SampleRun, h: seq<Event>, e: Event)
    ensures PendingEntry(s, h + [e]) ==
      if e.Flushed? then None
      else if s.Of(|Calls(h)|).BufferAsLast? then Some(NewCall(s, h, e.call))
      else PendingEntry(s, h)
  {
    PendingIsNewest(s, h);
    WrittenPush(s, h, e);
    CallsPush(h, e);
  }

  /** The state of the writer after a run, all but the random stream. */
  datatype LogState = LogState(count: nat, out: seq<byte>, buffer: Option<seq<byte>>, seen: set<u64>)

  function StateOf(s: SampleRun, h: seq<Event>): LogState {
    var p := PendingEntry(s, h);
    LogState(|Calls(h)|, Stream(LogOf(s, h)),
             if p.None? then None else Some(EncodeEntry(p.value)),
             RecordHashes(s, Calls(h)))
  }

  /** All that recording a call changes. */
  lemma {:induction false} RecordStep(s: SampleRun, h: seq<Event>, call: CallData, st: LogState, hash: u64, body: seq<byte>)
    requires st == StateOf(s, h) && hash == s.hash(call) && body == EncodeEntry(NewCall(s, h, call))
    ensures var st2, d := StateOf(s, h + [Recorded(call)]), s.Of(st.count);
            && (d.Record? && hash !in st.seen ==>
                  st2 == LogState(st.count + 1, st.out + FrameOf(body), st.buffer, st.seen + {hash}))
            && (d.Record? && hash in st.seen ==> st2 == st.(count := st.count + 1))
            && (d.BufferAsLast? ==> st2 == st.(count := st.count + 1, buffer := Some(body)))
            && (d.Skip? ==> st2 == st.(count := st.count + 1))
    ensures Reported(s, Calls(h + [Recorded(call)]), st.count)
         == if s.Of(st.count).Record? && hash !in st.seen then Some(st.count % TWO32) else None
  {
    var e := Recorded(call);
    CallsPush(h, e);
    PendingPush(s, h, e);
    SeenPush(s, Calls(h), call);
    LogPush(s, h, e);
    StreamAppended(LogOf(s, h), Appended(s, h, e));
  }

  /** All that a flush changes. */
  lemma {:induction false} FlushStep(s: SampleRun, h: seq<Event>)
    ensures var st := StateOf(s, h);
            StateOf(s, h + [Flushed])
            == st.(out := st.out + (if st.buffer.Some? then FrameOf(st.buffer.value) else []), buffer := None)
  {
    CallsPush(h, Flushed);
    PendingPush(s, h, Flushed);
    LogPush(s, h, Flushed);
    StreamAppended(LogOf(s, h), Appended(s, h, Flushed));
  }

  // ----- the same state, one event at a time

  /** What recording one call does. */
  function AfterCall(s: SampleRun, st: LogState, call: CallData): LogState {
    var d, hash := s.Of(st.count), s.hash(call);
    var body := EncodeEntry(Entry(st.count % TWO32, call.receiverIn, call.receiverOut, call.inputs, call.outcome, hash));
    var next := st.(count := st.count + 1);
    if d.Skip? || (d.Record? && hash in st.seen) then next
    else if d.Record? then next.(out := st.out + FrameOf(body), seen := st.seen + {hash})
    else next.(buffer := Some(body))
  }

  /** What recording one call reports. */
  function ReportAt(s: SampleRun, st: LogState, call: CallData): Option<nat> {
    if s.Of(st.count).Record? && s.hash(call) !in st.seen then Some(st.count % TWO32) else None
  }

  function AfterFlush(st: LogState): LogState {
    st.(out := st.out + (if st.buffer.Some? then FrameOf(st.buffer.value) else []), buffer := None)
  }

  function StateAfter(s: SampleRun, h: seq<Event>): LogState {
    if h == [] then LogState(0, [], None, {})
    else
      match h[|h| - 1]
      case Recorded(call) => AfterCall(s, StateAfter(s, h[..|h| - 1]), call)
      case Flushed => AfterFlush(StateAfter(s, h[..|h| - 1]))
  }

  lemma {:induction false} StateAfterPush(s: SampleRun, h: seq<Event>, e: Event)
    ensures StateAfter(s, h + [e]) ==
      match e
      case Recorded(call) => AfterCall(s, StateAfter(s, h), call)
      case Flushed => AfterFlush(StateAfter(s, h))
  {
    assert (h + [e])[..|h|] == h;
  }

  /** The writer, event by event, is always in the state that the run as a whole defines. */
  lemma {:induction false} StateAfterIsStateOf(s: SampleRun, h: seq<Event>)
    ensures StateAfter(s, h) == StateOf(s, h)
  {
    if h != [] {
      var front, e := h[..|h| - 1], h[|h| - 1];
      assert h == front + [e];
      StateAfterIsStateOf(s, front);
      StateAfterPush(s, front, e);
      match e {
        case Recorded(call) =>
          RecordStep(s, front, call, StateOf(s, front), s.hash(call), EncodeEntry(NewCall(s, front, call)));
        case Flushed => FlushStep(s, front);
      }
    }
  }

  lemma {:induction false} RecordIs(s: SampleRun, h: seq<Event>, call: CallData, st: LogState)
    requires st == StateOf(s, h)
    ensures StateOf(s, h + [Recorded(call)]) == AfterCall(s, st, call)
    ensures Reported(s, Calls(h + [Recorded(call)]), |Calls(h)|) == ReportAt(s, st, call)
  {
    RecordStep(s, h, call, st, s.hash(call), EncodeEntry(NewCall(s, h, call)));
  }

  // ----- the writer

  class DeepLog {
    var out: seq<byte>
    const sampler: Sampler
    var seqCounter: nat
    var lastBuffer: Option<seq<byte>>
    var seen: set<u64>
    // All calls and flushes so far.
    ghost var history: seq<Event>

    ghost function Run(): SampleRun {
      SampleRun(sampler.policy, sampler.below, HashOf)
    }

    ghost function State(): LogState
      reads this
    {
      LogState(seqCounter, out, lastBuffer, seen)
    }

    /** The sampler has used the draws of the calls so far. */
    ghost predicate InStep()
      reads this, sampler
    {
      sampler.drawn == DrawsBefore(sampler.policy, seqCounter)
    }

    ghost predicate Valid()
      reads this, sampler
    {
      State() == StateOf(Run(), history) && InStep()
    }

    /** A log whose file prefix has been written; `out` is what follows the prefix. */
    constructor (policy: SamplePolicy, below: nat -> bool)
      ensures Valid() && fresh(sampler) && history == [] && State() == LogState(0, [], None, {})
      ensures sampler.policy == policy && sampler.below == below
    {
      out := [];
      sampler := new Sampler(policy, below);
      seqCounter := 0;
      lastBuffer := None;
      seen := {};
      history := [];
    }

    method WriteFramed(body: seq<byte>)
      modifies `out
      ensures out == old(out) + FrameOf(body)
    {
      assert out + Le(|body|, 4) + body == out + FrameOf(body);
      out := out + Le(|body|, 4);
      out := out + body;
    }

    /** Records one call; reports its number if it was written. */
    method Record(call: CallData) returns (r: Option<nat>)
      requires Valid()
      modifies this, sampler
      ensures Valid() && history == old(history) + [Recorded(call)]
      ensures State() == AfterCall(Run(), old(State()), call)
      ensures r == Reported(Run(), Calls(history), |Calls(old(history))|)
    {
      RecordIs(Run(), history, call, State());
      r := RecordNext(call);
    }

    /** The same of a log of which only its state and its draws are known, not the run that led to it. */
    method RecordNext(call: CallData) returns (r: Option<nat>)
      requires InStep()
      modifies this, sampler
      ensures InStep() && State() == AfterCall(Run(), old(State()), call) && history == old(history) + [Recorded(call)]
      ensures r == ReportAt(Run(), old(State()), call)
    {
      var i := seqCounter;
      seqCounter := seqCounter + 1;
      var decision := sampler.Decide(i);
      if decision.Skip? {
        r := None;
      } else {
        r := Keep(i, call, decision);
      }
      history := history + [Recorded(call)];
    }

    /** The rest of recording a call that is not skipped. */
    method Keep(i: nat, call: CallData, decision: Sample) returns (r: Option<nat>)
      requires !decision.Skip? && decision == Run().Of(i) && seqCounter == i + 1
      modifies `out, `lastBuffer, `seen
      ensures State() == AfterCall(Run(), old(State()).(count := i), call)
      ensures r == if decision.Record? && HashOf(call) !in old(seen) then Some(i % TWO32) else None
    {
      var hash, buf := HashAndEncode(i, call);
      if decision.Record? {
        if hash in seen {
          return None;
        }
        seen := seen + {hash};
        WriteFramed(buf);
        return Some(i % TWO32);
      }
      lastBuffer := Some(buf);
      return None;
    }

    /** The canonical bytes, the hash and the encoded entry of a call. */
    method HashAndEncode(i: nat, call: CallData) returns (hash: u64, body: seq<byte>)
      ensures hash == HashOf(call)
      ensures body == EncodeEntry(Entry(i % TWO32, call.receiverIn, call.receiverOut, call.inputs, call.outcome, hash))
    {
      var canon := CanonicalInputBytes(call.receiverIn, call.inputs);
      hash := Fnv.ContentHash(canon);
      var entry := Entry(i % TWO32, call.receiverIn, call.receiverOut, call.inputs, call.outcome, hash);
      var w := new Sink();
      WriteEntryBody(w, entry);
      assert [] + EncodeEntry(entry) == EncodeEntry(entry);
      body := w.out;
    }

    method FlushLast()
      requires Valid()
      modifies this
      ensures Valid() && history == old(history) + [Flushed] && State() == AfterFlush(old(State()))
    {
      FlushStep(Run(), history);
      FlushNext();
    }

    method FlushNext()
      requires InStep()
      modifies this
      ensures InStep() && State() == AfterFlush(old(State())) && history == old(history) + [Flushed]
    {
      history := history + [Flushed];
      if lastBuffer.Some? {
        var buf := lastBuffer.value;
        lastBuffer := None;
        WriteFramed(buf);
      }
    }
  }
}
