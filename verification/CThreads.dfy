/** The C recorder's log file used by several threads: the limit is checked under the lock, the
    counter is read outside it, and the frame is written under it. Any interleaving of the threads'
    steps is a schedule. */
module CThreads {
  import opened Bytes
  import opened Entries
  import opened Frames
  import opened CLog
  import R = RustCall

  /** Where a thread is in finishing a call. */
  datatype Pc =
    | Idle
    | Checked(call: Finished)
    | Numbered(call: Finished, number: nat)
    | Locked(call: Finished, number: nat)
    | LengthWritten(call: Finished, number: nat)
    | BodyWritten(call: Finished, number: nat)

  datatype Action = Check(call: Finished) | ReadNumber | Lock | WriteLength | WriteBody | Unlock

  datatype Step = Step(thread: nat, action: Action)

  datatype State = State(
    number: nat,            // the file's 32-bit counter
    out: seq<byte>,         // the file
    holder: Option<nat>,    // who holds the file's lock between steps
    pcs: seq<Pc>,
    written: seq<Entry>)    // the entries finished so far, for stating what holds

  function Start(threads: nat): State {
    State(0, [], None, seq(threads, _ => Idle), [])
  }

  function EntryFor(pc: Pc): Entry
    requires !pc.Idle? && !pc.Checked?
  {
    R.EntryOf(pc.number, pc.call.inputs, pc.call.outputs)
  }

  function BodyFor(pc: Pc): seq<byte>
    requires !pc.Idle? && !pc.Checked?
  {
    EncodeEntry(EntryFor(pc))
  }

  predicate Inside(pc: Pc) {
    pc.Locked? || pc.LengthWritten? || pc.BodyWritten?
  }

  /** Whether a step can be taken; the check takes and gives back the lock at once. */
  predicate Enabled(s: State, st: Step) {
    st.thread < |s.pcs| &&
    var pc := s.pcs[st.thread];
    match st.action
    case Check(_) => pc.Idle? && s.holder.None?
    case ReadNumber => pc.Checked?
    case Lock => pc.Numbered? && s.holder.None?
    case WriteLength => pc.Locked?
    case WriteBody => pc.LengthWritten?
    case Unlock => pc.BodyWritten?
  }

  function Move(s: State, t: nat, pc: Pc): State
    requires t < |s.pcs|
  {
    s.(pcs := s.pcs[t := pc])
  }

  function Take(mode: Mode, s: State, st: Step): State
    requires Enabled(s, st)
  {
    var t := st.thread;
    var pc := s.pcs[t];
    match st.action
    case Check(call) => if Emits(mode, s.number) then Move(s, t, Checked(call)) else s
    case ReadNumber => Move(s, t, Numbered(pc.call, s.number))
    case Lock => Move(s, t, Locked(pc.call, pc.number)).(holder := Some(t))
    case WriteLength => Move(s, t, LengthWritten(pc.call, pc.number)).(out := s.out + Le(|BodyFor(pc)|, 4))
    case WriteBody => Move(s, t, BodyWritten(pc.call, pc.number)).(out := s.out + BodyFor(pc))
    case Unlock => Move(s, t, Idle).(holder := None, number := (s.number + 1) % TWO32, written := s.written + [EntryFor(pc)])
  }

  /** The state after a schedule; a step that cannot be taken waits. */
  function After(mode: Mode, s: State, schedule: seq<Step>): State {
    if schedule == [] then s
    else
      var before := After(mode, s, schedule[..|schedule| - 1]);
      var st := schedule[|schedule| - 1];
      if Enabled(before, st) then Take(mode, before, st) else before
  }

  lemma {:induction false} AfterPush(mode: Mode, s: State, schedule: seq<Step>, st: Step)
    ensures var before := After(mode, s, schedule);
            After(mode, s, schedule + [st]) == if Enabled(before, st) then Take(mode, before, st) else before
  {
    assert (schedule + [st])[..|schedule|] == schedule;
  }

  // ----- what every schedule keeps

  /** The part of a frame its writer has put out. */
  function Partial(pc: Pc): seq<byte>
    requires Inside(pc)
  {
    match pc
    case Locked(_, _) => []
    case LengthWritten(_, _) => Le(|BodyFor(pc)|, 4)
    case BodyWritten(_, _) => FrameOf(BodyFor(pc))
  }

  /** The file is whole frames, plus at most the lock holder's unfinished one. */
  predicate FileWhole(s: State) {
    && (s.holder.None? ==> s.out == Stream(s.written))
    && (s.holder.Some? ==>
          s.holder.value < |s.pcs| && Inside(s.pcs[s.holder.value])
          && s.out == Stream(s.written) + Partial(s.pcs[s.holder.value]))
  }

  predicate OneInside(s: State) {
    forall t :: 0 <= t < |s.pcs| && Inside(s.pcs[t]) ==> s.holder == Some(t)
  }

  /** No thread carries a number above the count of entries, no entry one above its position. */
  predicate NumbersBehind(s: State) {
    s.number == |s.written| % TWO32 && ThreadsBehind(s.pcs, |s.written|) && EntriesBehind(s.written)
  }

  predicate ThreadsBehind(pcs: seq<Pc>, count: nat) {
    forall t :: 0 <= t < |pcs| && !pcs[t].Idle? && !pcs[t].Checked? ==> pcs[t].number <= count
  }

  predicate EntriesBehind(written: seq<Entry>) {
    forall k :: 0 <= k < |written| ==> written[k].number <= k
  }

  predicate Good(s: State) {
    FileWhole(s) && OneInside(s) && NumbersBehind(s)
  }

  /** Only the thread that takes a step moves, and only the lock holder is inside afterwards. */
  lemma {:induction false} InsideStep(mode: Mode, s: State, st: Step)
    requires OneInside(s) && Enabled(s, st)
    ensures OneInside(Take(mode, s, st))
  {
    var r, t := Take(mode, s, st), st.thread;
    forall u | 0 <= u < |r.pcs| && Inside(r.pcs[u]) ensures r.holder == Some(u) {
      assert u != t ==> r.pcs[u] == s.pcs[u];
    }
  }

  lemma {:induction false} FileStep(mode: Mode, s: State, st: Step)
    requires FileWhole(s) && OneInside(s) && Enabled(s, st)
    ensures FileWhole(Take(mode, s, st))
  {
    var t, pc := st.thread, s.pcs[st.thread];
    assert Inside(pc) ==> s.holder == Some(t);
    match st.action {
      case Lock => FrameBegins(s.out);
      case WriteLength => FrameBegins(Stream(s.written));
      case WriteBody => CatAssoc(Stream(s.written), Le(|BodyFor(pc)|, 4), BodyFor(pc));
      case Unlock => StreamPush(s.written, EntryFor(pc));
      case _ =>
    }
  }

  lemma {:induction false} FrameBegins(out: seq<byte>)
    ensures out + [] == out
  {
  }

  lemma {:induction false} EntriesBehindPush(written: seq<Entry>, e: Entry)
    requires EntriesBehind(written) && e.number <= |written|
    ensures EntriesBehind(written + [e])
  {
  }

  lemma {:induction false} ThreadsBehindUpdate(pcs: seq<Pc>, count: nat, t: nat, pc: Pc, more: nat)
    requires ThreadsBehind(pcs, count) && t < |pcs| && count <= more
    requires pc.Idle? || pc.Checked? || pc.number <= more
    ensures ThreadsBehind(pcs[t := pc], more)
  {
  }

  lemma {:induction false} ThreadsStep(mode: Mode, s: State, st: Step)
    requires s.number <= |s.written| && ThreadsBehind(s.pcs, |s.written|) && Enabled(s, st)
    ensures ThreadsBehind(Take(mode, s, st).pcs, |Take(mode, s, st).written|)
  {
    var t, pc, count := st.thread, s.pcs[st.thread], |s.written|;
    match st.action {
      case Check(call) => ThreadsBehindUpdate(s.pcs, count, t, Checked(call), count);
      case ReadNumber => ThreadsBehindUpdate(s.pcs, count, t, Numbered(pc.call, s.number), count);
      case Lock => ThreadsBehindUpdate(s.pcs, count, t, Locked(pc.call, pc.number), count);
      case WriteLength => ThreadsBehindUpdate(s.pcs, count, t, LengthWritten(pc.call, pc.number), count);
      case WriteBody => ThreadsBehindUpdate(s.pcs, count, t, BodyWritten(pc.call, pc.number), count);
      case Unlock => ThreadsBehindUpdate(s.pcs, count, t, Idle, count + 1);
    }
  }

  lemma {:induction false} CounterStep(mode: Mode, s: State, st: Step)
    requires s.number == |s.written| % TWO32 && Enabled(s, st)
    ensures Take(mode, s, st).number == |Take(mode, s, st).written| % TWO32
  {
    if st.action.Unlock? {
      WrapNext(|s.written|);
    }
  }

  lemma {:induction false} WrittenStep(mode: Mode, s: State, st: Step)
    requires ThreadsBehind(s.pcs, |s.written|) && EntriesBehind(s.written) && Enabled(s, st)
    ensures EntriesBehind(Take(mode, s, st).written)
  {
    if st.action.Unlock? {
      EntriesBehindPush(s.written, EntryFor(s.pcs[st.thread]));
    }
  }

  lemma {:induction false} WrapBelow(n: nat)
    ensures n % TWO32 <= n
  {
  }

  lemma {:induction false} NumbersStep(mode: Mode, s: State, st: Step)
    requires NumbersBehind(s) && Enabled(s, st)
    ensures NumbersBehind(Take(mode, s, st))
  {
    WrapBelow(|s.written|);
    CounterStep(mode, s, st);
    ThreadsStep(mode, s, st);
    WrittenStep(mode, s, st);
  }

  /** In every reachable state: the file is whole frames (plus the lock holder's unfinished one), and
      the entry at position k carries a number of at most k. */
  lemma {:induction false} AlwaysGood(mode: Mode, threads: nat, schedule: seq<Step>)
    ensures Good(After(mode, Start(threads), schedule))
    ensures |After(mode, Start(threads), schedule).pcs| == threads
  {
    if schedule != [] {
      var front, st := schedule[..|schedule| - 1], schedule[|schedule| - 1];
      AlwaysGood(mode, threads, front);
      var s := After(mode, Start(threads), front);
      if Enabled(s, st) {
        InsideStep(mode, s, st);
        FileStep(mode, s, st);
        NumbersStep(mode, s, st);
      }
    }
  }

  /** While one thread holds the lock, another can only read the counter. */
  lemma {:induction false} OthersOnlyRead(mode: Mode, threads: nat, schedule: seq<Step>, st: Step)
    requires var s := After(mode, Start(threads), schedule);
             s.holder.Some? && st.thread != s.holder.value && Enabled(s, st)
    ensures st.action.ReadNumber?
  {
    AlwaysGood(mode, threads, schedule);
  }

  // ----- one call after the other

  /** A thread takes the lock, writes its frame and gives the lock back. */
  function UnderLock(schedule: seq<Step>, t: nat): seq<Step> {
    schedule + [Step(t, Lock)] + [Step(t, WriteLength)] + [Step(t, WriteBody)] + [Step(t, Unlock)]
  }

  lemma {:induction false} Taken(mode: Mode, start: State, schedule: seq<Step>, s: State, st: Step, next: State)
    requires After(mode, start, schedule) == s && Enabled(s, st) && next == Take(mode, s, st)
    ensures After(mode, start, schedule + [st]) == next
  {
    AfterPush(mode, start, schedule, st);
  }

  lemma {:induction false} LockedWrites(mode: Mode, start: State, schedule: seq<Step>, s: State, t: nat)
    returns (h: seq<Step>, next: State)
    requires After(mode, start, schedule) == s && t < |s.pcs| && s.pcs[t].Locked?
    ensures h == schedule + [Step(t, WriteLength)] + [Step(t, WriteBody)] && After(mode, start, h) == next
    ensures var pc := s.pcs[t];
            next.pcs == s.pcs[t := BodyWritten(pc.call, pc.number)] && next.number == s.number && next.written == s.written
  {
    var length := Take(mode, s, Step(t, WriteLength));
    Taken(mode, start, schedule, s, Step(t, WriteLength), length);
    next := Take(mode, length, Step(t, WriteBody));
    h := schedule + [Step(t, WriteLength)];
    Taken(mode, start, h, length, Step(t, WriteBody), next);
    h := h + [Step(t, WriteBody)];
  }

  lemma {:induction false} NumberedWrites(mode: Mode, start: State, schedule: seq<Step>, s: State, t: nat)
    requires After(mode, start, schedule) == s && t < |s.pcs| && s.pcs[t].Numbered? && s.holder.None?
    ensures var r := After(mode, start, UnderLock(schedule, t));
            && r.pcs == s.pcs[t := Idle] && r.holder.None? && r.number == (s.number + 1) % TWO32
            && r.written == s.written + [EntryFor(s.pcs[t])]
  {
    var locked := Take(mode, s, Step(t, Lock));
    Taken(mode, start, schedule, s, Step(t, Lock), locked);
    var h, written := LockedWrites(mode, start, schedule + [Step(t, Lock)], locked, t);
    Taken(mode, start, h, written, Step(t, Unlock), Take(mode, written, Step(t, Unlock)));
  }

  /** One thread finishes a call from its check to giving back the lock. A call that fails its check takes no further
      step. */
  function WithCall(schedule: seq<Step>, t: nat, call: Finished): seq<Step> {
    UnderLock(schedule + [Step(t, Check(call))] + [Step(t, ReadNumber)], t)
  }

  /** The calls one after the other, call `i` by thread `who[i]`. */
  function Serial(calls: seq<Finished>, who: seq<nat>): seq<Step>
    requires |who| == |calls|
  {
    if calls == [] then []
    else
      var n := |calls| - 1;
      WithCall(Serial(calls[..n], who[..n]), who[n], calls[n])
  }

  lemma {:induction false} CallWrites(mode: Mode, start: State, schedule: seq<Step>, s: State, t: nat, call: Finished)
    requires After(mode, start, schedule) == s && t < |s.pcs| && s.pcs[t].Idle? && s.holder.None? && Emits(mode, s.number)
    ensures var r := After(mode, start, WithCall(schedule, t, call));
            && r.pcs == s.pcs && r.holder.None? && r.number == (s.number + 1) % TWO32
            && r.written == s.written + [R.EntryOf(s.number, call.inputs, call.outputs)]
  {
    AfterPush(mode, start, schedule, Step(t, Check(call)));
    var h := schedule + [Step(t, Check(call))];
    AfterPush(mode, start, h, Step(t, ReadNumber));
    h := h + [Step(t, ReadNumber)];
    var numbered := Move(s, t, Numbered(call, s.number));
    assert After(mode, start, h) == numbered;
    NumberedWrites(mode, start, h, numbered, t);
    assert s.pcs[t := Idle] == s.pcs;
  }

  lemma {:induction false} CallSkipped(mode: Mode, start: State, schedule: seq<Step>, s: State, t: nat, call: Finished)
    requires After(mode, start, schedule) == s && t < |s.pcs| && s.pcs[t].Idle? && !Emits(mode, s.number)
    ensures After(mode, start, WithCall(schedule, t, call)) == s
  {
    AfterPush(mode, start, schedule, Step(t, Check(call)));
    var h := schedule + [Step(t, Check(call))];
    AfterPush(mode, start, h, Step(t, ReadNumber));
    h := h + [Step(t, ReadNumber)];
    AfterPush(mode, start, h, Step(t, Lock));
    h := h + [Step(t, Lock)];
    AfterPush(mode, start, h, Step(t, WriteLength));
    h := h + [Step(t, WriteLength)];
    AfterPush(mode, start, h, Step(t, WriteBody));
    AfterPush(mode, start, h + [Step(t, WriteBody)], Step(t, Unlock));
  }

  /** No thread has moved, and the file's entries and counter are those of the calls made one by one. */
  predicate Quiet(mode: Mode, pcs: seq<Pc>, calls: seq<Finished>, s: State) {
    s.written == CEntries(mode, calls) && s.number == SeqAfter(mode, |calls|) && s.holder.None? && s.pcs == pcs
  }

  /** What the counter and the entries become when the file is quiet again. */
  lemma {:induction false} QuietAgain(mode: Mode, pcs: seq<Pc>, calls: seq<Finished>, s: State, call: Finished, r: State)
    requires Quiet(mode, pcs, calls, s) && r.holder.None? && r.pcs == pcs
    requires var n := s.number;
             if Emits(mode, n)
             then r.number == (n + 1) % TWO32 && r.written == s.written + [R.EntryOf(n, call.inputs, call.outputs)]
             else r.number == n && r.written == s.written
    ensures Quiet(mode, pcs, calls + [call], r)
  {
    CountStep(mode, calls, call);
    EntriesStep(mode, calls, call);
  }

  lemma {:induction false} QuietStep(mode: Mode, start: State, calls: seq<Finished>, schedule: seq<Step>, s: State, t: nat,
                                     call: Finished)
    requires After(mode, start, schedule) == s && Quiet(mode, start.pcs, calls, s)
    requires t < |start.pcs| && start.pcs[t].Idle?
    ensures Quiet(mode, start.pcs, calls + [call], After(mode, start, WithCall(schedule, t, call)))
  {
    if Emits(mode, s.number) {
      CallWrites(mode, start, schedule, s, t, call);
    } else {
      CallSkipped(mode, start, schedule, s, t, call);
    }
    QuietAgain(mode, start.pcs, calls, s, call, After(mode, start, WithCall(schedule, t, call)));
  }

  lemma {:induction false} SerialIsQuiet(mode: Mode, threads: nat, calls: seq<Finished>, who: seq<nat>)
    requires |who| == |calls| && forall i :: 0 <= i < |who| ==> who[i] < threads
    ensures Quiet(mode, Start(threads).pcs, calls, After(mode, Start(threads), Serial(calls, who)))
  {
    if calls != [] {
      var n, start := |calls| - 1, Start(threads);
      var front := Serial(calls[..n], who[..n]);
      SerialIsQuiet(mode, threads, calls[..n], who[..n]);
      QuietStep(mode, start, calls[..n], front, After(mode, start, front), who[n], calls[n]);
      assert calls == calls[..n] + [calls[n]];
    }
  }

  /** Calls that do not overlap, whichever threads make them, leave the file that one thread alone would write. */
  lemma {:induction false} SerialIsSequential(mode: Mode, threads: nat, calls: seq<Finished>, who: seq<nat>)
    requires |who| == |calls| && forall i :: 0 <= i < |who| ==> who[i] < threads
    ensures var s := After(mode, Start(threads), Serial(calls, who));
            && s.written == CEntries(mode, calls) && s.out == Stream(CEntries(mode, calls))
            && s.number == SeqAfter(mode, |calls|) && s.holder.None? && s.pcs == Start(threads).pcs
  {
    SerialIsQuiet(mode, threads, calls, who);
    AlwaysGood(mode, threads, Serial(calls, who));
  }

  // ----- the limit

  /** Threads past their check. */
  function InFlight(pcs: seq<Pc>): nat {
    if pcs == [] then 0 else InFlight(pcs[..|pcs| - 1]) + (if pcs[|pcs| - 1].Idle? then 0 else 1)
  }

  lemma {:induction false} InFlightUpdate(pcs: seq<Pc>, t: nat, pc: Pc)
    requires t < |pcs|
    ensures InFlight(pcs[t := pc]) == InFlight(pcs) - (if pcs[t].Idle? then 0 else 1) + (if pc.Idle? then 0 else 1)
    ensures InFlight(pcs) <= |pcs| && (pcs[t].Idle? ==> InFlight(pcs) < |pcs|)
  {
    var n := |pcs| - 1;
    if t == n {
      assert pcs[t := pc][..n] == pcs[..n];
      if n > 0 {
        InFlightUpdate(pcs[..n], 0, pcs[0]);
      }
    } else {
      assert pcs[t := pc][..n] == pcs[..n][t := pc];
      InFlightUpdate(pcs[..n], t, pc);
    }
  }

  lemma {:induction false} AllIdle(pcs: seq<Pc>)
    requires forall t :: 0 <= t < |pcs| ==> pcs[t].Idle?
    ensures InFlight(pcs) == 0
  {
    if pcs != [] {
      AllIdle(pcs[..|pcs| - 1]);
    }
  }

  /** Under `first:n` with n at least 1, entries written plus threads past their check stay within n
      plus the number of threads, less one. */
  lemma {:induction false} LimitHolds(n: u64, threads: nat, schedule: seq<Step>)
    requires n >= 1 && threads >= 1 && n + threads <= TWO32
    ensures Within(n, threads, After(ModeFirst(n), Start(threads), schedule))
  {
    var mode := ModeFirst(n);
    if schedule == [] {
      AllIdle(Start(threads).pcs);
    } else {
      var front, st := schedule[..|schedule| - 1], schedule[|schedule| - 1];
      LimitHolds(n, threads, front);
      AlwaysGood(mode, threads, front);
      var s := After(mode, Start(threads), front);
      if Enabled(s, st) {
        LimitStep(n, threads, s, st);
      }
    }
  }

  /** Entries written and threads past their check, within the limit. */
  predicate Within(n: u64, threads: nat, s: State) {
    |s.pcs| == threads && |s.written| + InFlight(s.pcs) <= n + threads - 1
  }

  lemma {:induction false} LimitStep(n: u64, threads: nat, s: State, st: Step)
    requires n >= 1 && threads >= 1 && n + threads <= TWO32
    requires Within(n, threads, s) && s.number == |s.written| % TWO32 && Enabled(s, st)
    ensures Within(n, threads, Take(ModeFirst(n), s, st))
  {
    var t := st.thread;
    match st.action {
      case Check(call) => InFlightUpdate(s.pcs, t, Checked(call));
      case ReadNumber => InFlightUpdate(s.pcs, t, Numbered(s.pcs[t].call, s.number));
      case Lock => InFlightUpdate(s.pcs, t, Locked(s.pcs[t].call, s.pcs[t].number));
      case WriteLength => InFlightUpdate(s.pcs, t, LengthWritten(s.pcs[t].call, s.pcs[t].number));
      case WriteBody => InFlightUpdate(s.pcs, t, BodyWritten(s.pcs[t].call, s.pcs[t].number));
      case Unlock => InFlightUpdate(s.pcs, t, Idle);
    }
  }

  /** A `first:n` file never holds more than n + threads - 1 entries. */
  lemma {:induction false} NeverBeyondLimit(n: u64, threads: nat, schedule: seq<Step>)
    requires n >= 1 && threads >= 1 && n + threads <= TWO32
    ensures |After(ModeFirst(n), Start(threads), schedule).written| <= n + threads - 1
  {
    LimitHolds(n, threads, schedule);
  }

  // ----- the bound is reached, with repeated numbers

  /** A schedule and where it leads. */
  predicate Reaches(mode: Mode, threads: nat, schedule: seq<Step>, s: State) {
    After(mode, Start(threads), schedule) == s && |s.pcs| == threads
  }

  lemma {:induction false} Extend(mode: Mode, threads: nat, schedule: seq<Step>, s: State, st: Step)
    requires Reaches(mode, threads, schedule, s) && Enabled(s, st)
    ensures Reaches(mode, threads, schedule + [st], Take(mode, s, st))
  {
    AfterPush(mode, Start(threads), schedule, st);
  }

  /** A numbered thread with the lock free writes its entry and is done. */
  lemma {:induction false} WriteOut(mode: Mode, threads: nat, schedule: seq<Step>, s: State, t: nat)
    returns (schedule2: seq<Step>, s2: State)
    requires Reaches(mode, threads, schedule, s) && t < threads && s.pcs[t].Numbered? && s.holder.None?
    ensures Reaches(mode, threads, schedule2, s2)
    ensures s2.holder.None? && s2.pcs == s.pcs[t := Idle] && s2.number == (s.number + 1) % TWO32
    ensures s2.written == s.written + [EntryFor(s.pcs[t])]
  {
    NumberedWrites(mode, Start(threads), schedule, s, t);
    schedule2 := UnderLock(schedule, t);
    s2 := After(mode, Start(threads), schedule2);
  }

  /** An idle thread that passes its check goes on to read the counter. */
  lemma {:induction false} Arm(mode: Mode, threads: nat, schedule: seq<Step>, s: State, t: nat, call: Finished)
    returns (schedule2: seq<Step>, s2: State)
    requires Reaches(mode, threads, schedule, s) && t < threads && s.pcs[t].Idle? && s.holder.None?
    requires Emits(mode, s.number)
    ensures Reaches(mode, threads, schedule2, s2) && s2 == s.(pcs := s.pcs[t := Numbered(call, s.number)])
  {
    schedule2, s2 := schedule, s;
    Extend(mode, threads, schedule2, s2, Step(t, Check(call)));
    schedule2, s2 := schedule2 + [Step(t, Check(call))], Take(mode, s2, Step(t, Check(call)));
    Extend(mode, threads, schedule2, s2, Step(t, ReadNumber));
    schedule2, s2 := schedule2 + [Step(t, ReadNumber)], Take(mode, s2, Step(t, ReadNumber));
  }

  lemma {:induction false} ArmAndWrite(mode: Mode, threads: nat, schedule: seq<Step>, s: State, t: nat, call: Finished)
    returns (schedule2: seq<Step>, s2: State)
    requires Reaches(mode, threads, schedule, s) && t < threads && s.pcs[t].Idle? && s.holder.None?
    requires Emits(mode, s.number)
    ensures Reaches(mode, threads, schedule2, s2) && s2.holder.None? && s2.pcs == s.pcs
    ensures s2.number == (s.number + 1) % TWO32
    ensures s2.written == s.written + [R.EntryOf(s.number, call.inputs, call.outputs)]
  {
    schedule2, s2 := Arm(mode, threads, schedule, s, t, call);
    schedule2, s2 := WriteOut(mode, threads, schedule2, s2, t);
    assert s.pcs[t := Idle] == s.pcs;
  }

  predicate AllIdleFrom(pcs: seq<Pc>, t: nat) {
    forall i :: t <= i < |pcs| ==> pcs[i].Idle?
  }

  lemma {:induction false} StillEmits(n: u64, k: nat)
    requires k < n || n >= TWO32
    ensures Emits(ModeFirst(n), k % TWO32)
  {
  }

  lemma {:induction false} FillOne(n: u64, threads: nat, call: Finished, k: nat, schedule: seq<Step>, s: State)
    returns (schedule2: seq<Step>, s2: State)
    requires threads >= 1 && (k < n || n >= TWO32) && Reaches(ModeFirst(n), threads, schedule, s)
    requires s.holder.None? && s.number == k % TWO32 && AllIdleFrom(s.pcs, 0)
    ensures Reaches(ModeFirst(n), threads, schedule2, s2)
    ensures s2.holder.None? && s2.number == (k + 1) % TWO32 && |s2.written| == |s.written| + 1 && AllIdleFrom(s2.pcs, 0)
  {
    StillEmits(n, k);
    schedule2, s2 := ArmAndWrite(ModeFirst(n), threads, schedule, s, 0, call);
    WrapNext(k);
  }

  /** Up to the limit, or without end when the counter wraps below it, one thread alone can go on writing. */
  lemma {:induction false} FillUp(n: u64, threads: nat, call: Finished, k: nat)
    returns (schedule: seq<Step>, s: State)
    requires threads >= 1 && (k <= n || n >= TWO32)
    ensures Reaches(ModeFirst(n), threads, schedule, s)
    ensures s.holder.None? && s.number == k % TWO32 && |s.written| == k && AllIdleFrom(s.pcs, 0)
  {
    var mode := ModeFirst(n);
    if k == 0 {
      schedule, s := [], Start(threads);
    } else {
      schedule, s := FillUp(n, threads, call, k - 1);
      schedule, s := FillOne(n, threads, call, k - 1, schedule, s);
    }
  }

  /** Every thread checks and reads the counter before any of them writes. */
  lemma {:induction false} ArmAll(n: u64, threads: nat, call: Finished) returns (schedule: seq<Step>, s: State)
    requires n >= 1 && n < TWO32 && threads >= 1
    ensures Reaches(ModeFirst(n), threads, schedule, s)
    ensures s.holder.None? && s.number == |s.written| == n - 1
    ensures forall i :: 0 <= i < threads ==> s.pcs[i] == Numbered(call, n - 1)
  {
    schedule, s := FillUp(n, threads, call, n - 1);
    for t := 0 to threads
      invariant Reaches(ModeFirst(n), threads, schedule, s)
      invariant s.holder.None? && s.number == |s.written| == n - 1
      invariant forall i :: 0 <= i < t ==> s.pcs[i] == Numbered(call, n - 1)
      invariant AllIdleFrom(s.pcs, t)
    {
      schedule, s := Arm(ModeFirst(n), threads, schedule, s, t, call);
    }
  }

  /** Threads `from` up to `upto` write, one after the other. */
  lemma {:induction false} WriteSome(mode: Mode, threads: nat, schedule0: seq<Step>, s0: State, call: Finished, number: nat,
                                     from: nat, upto: nat)
    returns (schedule: seq<Step>, s: State)
    requires Reaches(mode, threads, schedule0, s0) && from <= upto <= threads
    requires s0.holder.None? && s0.number == |s0.written| % TWO32
    requires forall i :: from <= i < threads ==> s0.pcs[i] == Numbered(call, number)
    ensures Reaches(mode, threads, schedule, s)
    ensures s.holder.None? && |s.written| == |s0.written| + upto - from && s.number == |s.written| % TWO32
    ensures forall i :: upto <= i < threads ==> s.pcs[i] == Numbered(call, number)
    ensures forall i :: from <= i < upto ==> s.pcs[i].Idle?
    ensures forall i :: 0 <= i < from ==> s.pcs[i] == s0.pcs[i]
    ensures s0.written <= s.written && forall k :: |s0.written| <= k < |s.written| ==> s.written[k].number == number
    decreases upto - from
  {
    if from == upto {
      schedule, s := schedule0, s0;
    } else {
      WrapNext(|s0.written|);
      var schedule1, s1 := WriteOut(mode, threads, schedule0, s0, from);
      schedule, s := WriteSome(mode, threads, schedule1, s1, call, number, from + 1, upto);
      TailNumbers(s0.written, EntryFor(s0.pcs[from]), s.written, number);
    }
  }

  lemma {:induction false} TailNumbers(w0: seq<Entry>, e: Entry, w: seq<Entry>, number: nat)
    requires w0 + [e] <= w && e.number == number
    requires forall k :: |w0| + 1 <= k < |w| ==> w[k].number == number
    ensures w0 <= w && forall k :: |w0| <= k < |w| ==> w[k].number == number
  {
    assert w[|w0|] == e;
  }

  /** The bound is exact: some schedule writes n + threads - 1 entries, and the last `threads` of them all carry the
      number n - 1. */
  lemma {:induction false} BoundReached(n: u64, threads: nat, call: Finished) returns (schedule: seq<Step>)
    requires n >= 1 && threads >= 1 && n + threads <= TWO32
    ensures var w := After(ModeFirst(n), Start(threads), schedule).written;
            |w| == n + threads - 1 && forall k :: n - 1 <= k < |w| ==> w[k].number == n - 1
  {
    var s;
    schedule, s := ArmAll(n, threads, call);
    schedule, s := WriteSome(ModeFirst(n), threads, schedule, s, call, n - 1, 0, threads);
  }

  /** Where the 32-bit counter can wrap to zero while threads are on their way, the bound fails: a thread that has
      written checks again and passes. */
  lemma {:induction false} BoundBroken(n: u64, threads: nat, call: Finished) returns (schedule: seq<Step>)
    requires n >= 1 && threads >= 1 && n + threads > TWO32
    ensures |After(ModeFirst(n), Start(threads), schedule).written| == n + threads
  {
    var mode, s := ModeFirst(n), Start(threads);
    if n >= TWO32 {
      schedule, s := FillUp(n, threads, call, n + threads);
    } else {
      var turn := TWO32 - (n - 1);
      schedule, s := ArmAll(n, threads, call);
      schedule, s := WriteSome(mode, threads, schedule, s, call, n - 1, 0, turn);
      schedule, s := Arm(mode, threads, schedule, s, 0, call);
      WrapNext(|s.written|);
      schedule, s := WriteOut(mode, threads, schedule, s, 0);
      schedule, s := WriteSome(mode, threads, schedule, s, call, n - 1, turn, threads);
    }
  }

  /** A `first:n` file stays within n + threads - 1 entries under every schedule exactly when n + threads fits the
      counter. */
  lemma {:induction false} LimitIffCounterFits(n: u64, threads: nat)
    requires n >= 1 && threads >= 1
    ensures n + threads <= TWO32
       <==> forall schedule :: |After(ModeFirst(n), Start(threads), schedule).written| <= n + threads - 1
  {
    if n + threads <= TWO32 {
      forall schedule ensures |After(ModeFirst(n), Start(threads), schedule).written| <= n + threads - 1 {
        NeverBeyondLimit(n, threads, schedule);
      }
    } else {
      var schedule := BoundBroken(n, threads, Finished([], []));
      assert |After(ModeFirst(n), Start(threads), schedule).written| > n + threads - 1;
    }
  }
}
