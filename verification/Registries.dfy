/** One log for each function, opened on first use: `record`, `open_log` and `flush_all`. Opening is one step under the
    registry's lock; recording and flushing are steps under the lock of one log. The threads of a program make one
    sequence of such steps, and any sequence can occur. */
module Registries {
  import opened Bytes
  import opened Wire
  import opened Entries
  import opened Sampling
  import opened DeepLogs

  datatype Step<K> = Opened(function_: K) | Called(function_: K, call: CallData) | FlushedOne(function_: K)

  /** What one function's log sees of a run. */
  function Project<K(==)>(h: seq<Step<K>>, f: K): seq<Event> {
    if h == [] then []
    else
      var front, last := Project(h[..|h| - 1], f), h[|h| - 1];
      if last.function_ != f then front
      else
        match last
        case Opened(_) => front
        case Called(_, call) => front + [Recorded(call)]
        case FlushedOne(_) => front + [Flushed]
  }

  lemma {:induction false} ProjectPush<K>(h: seq<Step<K>>, e: Step<K>)
    ensures Project(h + [e], e.function_) ==
      match e
      case Opened(_) => Project(h, e.function_)
      case Called(_, call) => Project(h, e.function_) + [Recorded(call)]
      case FlushedOne(_) => Project(h, e.function_) + [Flushed]
  {
    assert (h + [e])[..|h|] == h;
  }

  /** The flushes of some logs, one after the other. */
  function Flushes<K>(names: seq<K>): (h: seq<Step<K>>)
    ensures |h| == |names|
  {
    seq(|names|, i requires 0 <= i < |names| => FlushedOne(names[i]))
  }

  /** The state a log was left in, and the events that led to it. */
  datatype Tracked = Tracked(state: LogState, events: seq<Event>)

  /** What one step does to the logs: opening makes an empty log where there is none, recording and flushing change one
      log. */
  function Moved<K(==)>(s: SampleRun, logs: map<K, Tracked>, e: Step<K>): map<K, Tracked> {
    var f := e.function_;
    if e.Opened? then
      if f in logs then logs else logs[f := Tracked(LogState(0, [], None, {}), [])]
    else if f !in logs then logs
    else if e.Called? then
      logs[f := Tracked(AfterCall(s, logs[f].state, e.call), logs[f].events + [Recorded(e.call)])]
    else logs[f := Tracked(AfterFlush(logs[f].state), logs[f].events + [Flushed])]
  }

  /** Where the logs are after some steps. */
  function TrackedAfter<K(==)>(s: SampleRun, h: seq<Step<K>>): map<K, Tracked> {
    if h == [] then map[] else Moved(s, TrackedAfter(s, h[..|h| - 1]), h[|h| - 1])
  }

  /** The functions opened so far. */
  function OpenedIn<K(==)>(h: seq<Step<K>>): set<K> {
    if h == [] then {}
    else OpenedIn(h[..|h| - 1]) + (if h[|h| - 1].Opened? then {h[|h| - 1].function_} else {})
  }

  /** Only allowed functions are opened, and calls and flushes reach only logs that have been opened. */
  predicate Proper<K(==)>(h: seq<Step<K>>, only: Option<set<K>>) {
    if h == [] then true
    else
      var front, last := h[..|h| - 1], h[|h| - 1];
      && Proper(front, only)
      && if last.Opened? then Allows(only, last.function_) else last.function_ in OpenedIn(front)
  }

  /** `function_allowed`. */
  predicate Allows<K(==)>(only: Option<set<K>>, f: K) {
    match only
    case Some(names) => f in names
    case None => true
  }

  lemma {:induction false} TrackedPush<K>(s: SampleRun, h: seq<Step<K>>, e: Step<K>, only: Option<set<K>>)
    requires Proper(h, only) && if e.Opened? then Allows(only, e.function_) else e.function_ in TrackedAfter(s, h)
    ensures TrackedAfter(s, h + [e]) == Moved(s, TrackedAfter(s, h), e) && Proper(h + [e], only)
  {
    assert (h + [e])[..|h|] == h;
    TrackedAreOpened(s, h, only, e.function_);
  }

  /** The logs are where a proper run leads. */
  predicate LedTo<K(==)>(s: SampleRun, h: seq<Step<K>>, only: Option<set<K>>, logs: map<K, Tracked>) {
    Proper(h, only) && logs == TrackedAfter(s, h)
  }

  lemma {:induction false} LedFurther<K>(s: SampleRun, h: seq<Step<K>>, only: Option<set<K>>, logs: map<K, Tracked>,
                                         e: Step<K>, next: map<K, Tracked>)
    requires LedTo(s, h, only, logs) && next == Moved(s, logs, e)
    requires if e.Opened? then Allows(only, e.function_) else e.function_ in logs
    ensures LedTo(s, h + [e], only, next)
  {
    TrackedPush(s, h, e, only);
  }

  lemma {:induction false} TrackedAreOpened<K>(s: SampleRun, h: seq<Step<K>>, only: Option<set<K>>, f: K)
    requires Proper(h, only)
    ensures f in TrackedAfter(s, h) <==> f in OpenedIn(h)
  {
    if h != [] {
      TrackedAreOpened(s, h[..|h| - 1], only, f);
    }
  }

  /** Exactly the opened functions have a log, all of them allowed; each log has seen the events of its own function, and
      its state is where they lead, whatever happened to other logs in between. */
  lemma {:induction false} TrackedIs<K>(s: SampleRun, h: seq<Step<K>>, only: Option<set<K>>, f: K)
    requires Proper(h, only)
    ensures f in TrackedAfter(s, h) <==> f in OpenedIn(h)
    ensures f in TrackedAfter(s, h) && only.Some? ==> f in only.value
    ensures f in TrackedAfter(s, h) ==> TrackedAfter(s, h)[f] == Tracked(StateOf(s, Project(h, f)), Project(h, f))
    ensures f !in TrackedAfter(s, h) ==> Project(h, f) == []
  {
    if h != [] {
      var front, last := h[..|h| - 1], h[|h| - 1];
      TrackedIs(s, front, only, f);
      TrackedAreOpened(s, front, only, last.function_);
      if last.function_ == f {
        var events := Project(front, f);
        StateAfterIsStateOf(s, events);
        match last {
          case Opened(_) => StateAfterIsStateOf(s, []);
          case Called(_, call) =>
            StateAfterPush(s, events, Recorded(call));
            StateAfterIsStateOf(s, events + [Recorded(call)]);
          case FlushedOne(_) =>
            StateAfterPush(s, events, Flushed);
            StateAfterIsStateOf(s, events + [Flushed]);
        }
      }
    }
  }

  /** What is reported of a call can be told from where the log is. */
  lemma {:induction false} ReportOfCall<K>(s: SampleRun, h: seq<Step<K>>, only: Option<set<K>>, logs: map<K, Tracked>, f: K,
                                           call: CallData)
    requires LedTo(s, h, only, logs) && f in logs
    ensures Reported(s, Calls(Project(h + [Called(f, call)], f)), |Calls(Project(h, f))|) == ReportAt(s, logs[f].state, call)
  {
    TrackedIs(s, h, only, f);
    ProjectPush(h, Called(f, call));
    RecordIs(s, Project(h, f), call, StateOf(s, Project(h, f)));
  }

  /** The registry: the logs, and where each was left. */
  class Registry<K(==,!new)> {
    const policy: SamplePolicy
    // Every log draws from a stream of the same seed.
    const below: nat -> bool
    const only: Option<set<K>>
    var logs: map<K, DeepLog>
    // The steps of all threads.
    ghost var history: seq<Step<K>>
    // Where each log was left.
    ghost var tracked: map<K, Tracked>
    // The function to which each log and each sampler belongs.
    ghost var home: map<object, K>

    ghost function Run(): SampleRun {
      SampleRun(policy, below, HashOf)
    }

    /** Different functions have different logs, each with its own sampler. */
    ghost predicate Separate()
      reads `logs, `home
    {
      && this !in home
      && forall f :: f in logs ==>
           logs[f] in home && home[logs[f]] == f && logs[f].sampler in home && home[logs[f].sampler] == f
    }

    /** A log samples as the registry says and is in the given state, after the given events. */
    ghost predicate Holds(log: DeepLog, t: Tracked)
      reads log, log.sampler
    {
      && log.State() == t.state && log.history == t.events
      && log.InStep() && log.sampler.policy == policy && log.sampler.below == below
    }

    /** The logs are where they were left. */
    ghost predicate Intact()
      reads `logs, `home, `tracked, home.Keys
    {
      Separate() && logs.Keys == tracked.Keys && forall f :: f in logs ==> Holds(logs[f], tracked[f])
    }

    /** And they were left where the steps of all threads lead. */
    ghost predicate Valid()
      reads this, home.Keys
    {
      Intact() && LedTo(Run(), history, only, tracked)
    }

    constructor (policy: SamplePolicy, below: nat -> bool, only: Option<set<K>>)
      ensures Valid() && history == [] && logs == map[] && home == map[]
      ensures this.policy == policy && this.below == below && this.only == only
    {
      this.policy, this.below, this.only := policy, below, only;
      logs, tracked := map[], map[];
      history, home := [], map[];
    }

    /** One step under the registry's lock: the log of a function is there afterwards, new if there was none. */
    method OpenLog(f: K) returns (log: DeepLog)
      requires Valid() && Allows(only, f)
      modifies this
      ensures Valid() && history == old(history) + [Opened(f)] && fresh(home.Keys - old(home.Keys))
      ensures logs == old(logs)[f := log]
      ensures if f in old(logs) then log == old(logs)[f] else fresh(log) && fresh(log.sampler)
    {
      history := history + [Opened(f)];
      log := OpenHandle(f);
      LedFurther(Run(), old(history), only, old(tracked), Opened(f), tracked);
    }

    /** What the step does to the map of logs. */
    method OpenHandle(f: K) returns (log: DeepLog)
      requires Intact()
      modifies `logs, `tracked, `home
      ensures Intact() && fresh(home.Keys - old(home.Keys)) && logs == old(logs)[f := log]
      ensures if f in old(logs) then log == old(logs)[f] else fresh(log) && fresh(log.sampler)
      ensures tracked == Moved(Run(), old(tracked), Opened(f))
    {
      if f in logs {
        log := logs[f];
      } else {
        log := new DeepLog(policy, below);
        Insert(f, log);
      }
    }

    /** A new log that belongs to no function yet. */
    method Insert(f: K, log: DeepLog)
      requires Intact() && f !in logs && log !in home && log.sampler !in home
      requires Holds(log, Tracked(LogState(0, [], None, {}), []))
      modifies `logs, `tracked, `home
      ensures Intact() && logs == old(logs)[f := log] && home == old(home)[log := f][log.sampler := f]
      ensures tracked == Moved(Run(), old(tracked), Opened(f))
    {
      logs, tracked := logs[f := log], tracked[f := Tracked(log.State(), [])];
      home := home[log := f][log.sampler := f];
    }

    /** One step under the lock of a log, through a handle that a thread got earlier. */
    method RecordIn(f: K, call: CallData) returns (r: Option<nat>)
      requires Valid() && f in logs
      modifies `history, `tracked, logs[f], logs[f].sampler
      ensures Valid() && history == old(history) + [Called(f, call)]
      ensures r == Reported(Run(), Calls(Project(history, f)), |Calls(Project(old(history), f))|)
    {
      history := history + [Called(f, call)];
      r := RecordHandle(f, call);
      LedFurther(Run(), old(history), only, old(tracked), Called(f, call), tracked);
      ReportOfCall(Run(), old(history), only, old(tracked), f, call);
    }

    /** What the step does to the log. */
    method RecordHandle(f: K, call: CallData) returns (r: Option<nat>)
      requires Intact() && f in logs
      modifies `tracked, logs[f], logs[f].sampler
      ensures Intact() && r == ReportAt(Run(), old(tracked)[f].state, call)
      ensures tracked == Moved(Run(), old(tracked), Called(f, call))
    {
      r := logs[f].RecordNext(call);
      tracked := tracked[f := Tracked(logs[f].State(), logs[f].history)];
    }

    /** One step under the lock of a log. */
    method FlushOne(f: K)
      requires Valid() && f in logs
      modifies `history, `tracked, logs[f]
      ensures Valid() && history == old(history) + [FlushedOne(f)]
    {
      history := history + [FlushedOne(f)];
      FlushHandle(f);
      LedFurther(Run(), old(history), only, old(tracked), FlushedOne(f), tracked);
    }

    method FlushHandle(f: K)
      requires Intact() && f in logs
      modifies `tracked, logs[f]
      ensures Intact() && tracked == Moved(Run(), old(tracked), FlushedOne(f))
    {
      logs[f].FlushNext();
      tracked := tracked[f := Tracked(logs[f].State(), logs[f].history)];
    }

    /** The steps of one finished call, when no other thread comes between. */
    method Record(f: K, inputs: seq<Field>, outputs: seq<Field>) returns (r: Option<nat>)
      requires Valid()
      modifies this, home.Keys
      ensures Valid() && fresh(home.Keys - old(home.Keys))
      ensures history == old(history) + if only.None? || f in only.value
              then [Opened(f), Called(f, CallData(None, None, inputs, Return(outputs)))] else []
      ensures r == if only.None? || f in only.value
                   then Reported(Run(), Calls(Project(history, f)), |Calls(Project(old(history), f))|) else None
    {
      if !Allows(only, f) {
        assert history + [] == history;
        return None;
      }
      var call := CallData(None, None, inputs, Return(outputs));
      ProjectPush(history, Opened(f));
      var log := OpenLog(f);
      assert old(history) + [Opened(f)] + [Called(f, call)] == old(history) + [Opened(f), Called(f, call)];
      r := RecordIn(f, call);
    }

    /** The logs in `order` have been flushed since the steps of `start`, the logs of `rest` not yet. */
    ghost predicate Flushing(start: seq<Step<K>>, order: seq<K>, rest: set<K>)
      reads this, home.Keys
    {
      Valid() && rest <= logs.Keys && history == start + Flushes(order) && OneEach(order, rest, logs.Keys)
    }

    method FlushNext(f: K, ghost start: seq<Step<K>>, ghost order: seq<K>, ghost rest: set<K>)
      requires Flushing(start, order, rest) && f in rest
      modifies `history, `tracked, home.Keys
      ensures Flushing(start, order + [f], rest - {f})
    {
      FlushesPush(order, f);
      OneMore(order, rest, logs.Keys, f);
      FlushOne(f);
    }

    /** Writes every buffered last entry, log by log in some order. */
    method FlushAll()
      requires Valid()
      modifies `history, `tracked, home.Keys
      ensures Valid()
      ensures exists order: seq<K> :: OneEach(order, {}, logs.Keys) && history == old(history) + Flushes(order)
    {
      var rest := logs.Keys;
      ghost var order: seq<K> := [];
      assert history == history + Flushes([]);
      while rest != {}
        invariant Flushing(old(history), order, rest) && logs == old(logs) && home == old(home)
        decreases rest
      {
        var f :| f in rest;
        FlushNext(f, old(history), order, rest);
        order := order + [f];
        rest := rest - {f};
      }
    }
  }

  /** The listed names and the rest make up the whole, each name once. */
  predicate OneEach<K(==)>(order: seq<K>, rest: set<K>, whole: set<K>) {
    if order == [] then rest == whole
    else
      var last := order[|order| - 1];
      last !in rest && OneEach(order[..|order| - 1], rest + {last}, whole)
  }

  lemma {:induction false} OneMore<K>(order: seq<K>, rest: set<K>, whole: set<K>, f: K)
    requires OneEach(order, rest, whole) && f in rest
    ensures OneEach(order + [f], rest - {f}, whole)
  {
    assert (order + [f])[..|order|] == order && rest - {f} + {f} == rest;
  }

  /** A complete list holds every name exactly once. */
  lemma {:induction false} OneEachIsPermutation<K>(order: seq<K>, rest: set<K>, whole: set<K>)
    requires OneEach(order, rest, whole)
    ensures multiset(order) + multiset(rest) == multiset(whole)
  {
    if order != [] {
      var n := |order| - 1;
      OneEachIsPermutation(order[..n], rest + {order[n]}, whole);
      assert order == order[..n] + [order[n]];
    }
  }

  lemma {:induction false} FlushesPush<K>(order: seq<K>, f: K)
    ensures Flushes(order + [f]) == Flushes(order) + [FlushedOne(f)]
  {
  }

  /** Every log of the registry is a log of its own run. */
  lemma {:induction false} LogsAreValid<K(!new)>(registry: Registry<K>, f: K)
    requires registry.Valid() && f in registry.logs
    ensures registry.logs[f].Valid() && registry.logs[f].history == Project(registry.history, f)
  {
    TrackedIs(registry.Run(), registry.history, registry.only, f);
  }

  /** In every interleaving of the threads' steps the numbers of the entries recorded directly increase from entry to
      entry of a log. */
  lemma {:induction false} DirectNumbersIncrease<K>(s: SampleRun, h: seq<Step<K>>, f: K, a: nat, b: nat)
    requires var events := Project(h, f);
             && |Calls(events)| <= TWO32 && a < b < |Written(s, events)|
             && s.Of(Written(s, events)[a]).Record? && s.Of(Written(s, events)[b]).Record?
    ensures LogOf(s, Project(h, f))[a].number < LogOf(s, Project(h, f))[b].number
  {
    var events := Project(h, f);
    WrittenOrder(s, events);
    NumberOfEntry(s, events, a);
    NumberOfEntry(s, events, b);
  }
}
