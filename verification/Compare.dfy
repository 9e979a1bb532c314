/** The trace comparator: three passes over two traces and one exit status. */
module Compare {
  import opened Bytes

  datatype Row = Row(function_: string, inputHash: string, outputHash: string, values: Option<string>)

  datatype Key = Key(function_: string, inputHash: string)

  function KeyOf(r: Row): Key {
    Key(r.function_, r.inputHash)
  }

  // ----- specification: what a trace says about one key

  /** The outputs of one key, in order. */
  function Outputs(rows: seq<Row>, k: Key): seq<string> {
    if rows == [] then []
    else Outputs(rows[..|rows| - 1], k) + (if KeyOf(rows[|rows| - 1]) == k then [rows[|rows| - 1].outputHash] else [])
  }

  function Keys(rows: seq<Row>): set<Key> {
    if rows == [] then {} else Keys(rows[..|rows| - 1]) + {KeyOf(rows[|rows| - 1])}
  }

  function CallCount(rows: seq<Row>, f: string): nat {
    if rows == [] then 0
    else CallCount(rows[..|rows| - 1], f) + (if rows[|rows| - 1].function_ == f then 1 else 0)
  }

  function Functions(rows: seq<Row>): set<string> {
    if rows == [] then {} else Functions(rows[..|rows| - 1]) + {rows[|rows| - 1].function_}
  }

  function Max(a: nat, b: nat): nat {
    if a < b then b else a
  }

  function Min(a: nat, b: nat): nat {
    if a < b then a else b
  }

  /** Positions of both sequences that hold the same output. */
  function Agreeing(a: seq<string>, b: seq<string>): nat {
    if a == [] || b == [] then 0 else (if a[0] == b[0] then 1 else 0) + Agreeing(a[1..], b[1..])
  }

  /** Differences of one key: the longer length, less the agreeing positions. */
  function KeyDifferences(a: seq<string>, b: seq<string>): int {
    Max(|a|, |b|) - Agreeing(a, b)
  }

  /** One more output in a tally. */
  function Bump(t: map<string, nat>, o: string): map<string, nat> {
    t[o := (if o in t then t[o] else 0) + 1]
  }

  /** How often each output occurs. */
  function Tally(outs: seq<string>): map<string, nat> {
    if outs == [] then map[] else Bump(Tally(outs[..|outs| - 1]), outs[|outs| - 1])
  }

  // ----- sums over finite sets

  ghost function Sum<K(!new)>(s: set<K>, f: K -> int): int
    decreases |s|
  {
    if s == {} then 0 else
    var x :| x in s;
    f(x) + Sum(s - {x}, f)
  }

  lemma {:induction false} SumRemove<K(!new)>(s: set<K>, f: K -> int, x: K)
    requires x in s
    ensures Sum(s, f) == f(x) + Sum(s - {x}, f)
    decreases |s|
  {
    var y :| y in s && Sum(s, f) == f(y) + Sum(s - {y}, f);
    if y != x {
      SumRemove(s - {y}, f, x);
      SumRemove(s - {x}, f, y);
      assert s - {y} - {x} == s - {x} - {y};
    }
  }

  lemma {:induction false} SumLinear<K(!new)>(s: set<K>, f: K -> int, g: K -> int)
    requires forall x :: x in s ==> g(x) <= f(x)
    ensures Sum(s, g) <= Sum(s, f)
    decreases |s|
  {
    if s != {} {
      var x :| x in s;
      SumRemove(s, f, x);
      SumRemove(s, g, x);
      SumLinear(s - {x}, f, g);
    }
  }

  lemma {:induction false} SumDifference<K(!new)>(s: set<K>, f: K -> int, g: K -> int, d: K -> int)
    requires forall x :: x in s ==> d(x) == f(x) - g(x)
    ensures Sum(s, d) == Sum(s, f) - Sum(s, g)
    decreases |s|
  {
    if s != {} {
      var x :| x in s;
      SumRemove(s, f, x);
      SumRemove(s, g, x);
      SumRemove(s, d, x);
      SumDifference(s - {x}, f, g, d);
    }
  }

  lemma {:induction false} SumZero<K(!new)>(s: set<K>, f: K -> int)
    requires forall x :: x in s ==> f(x) >= 0
    ensures Sum(s, f) >= 0
    ensures Sum(s, f) == 0 <==> forall x :: x in s ==> f(x) == 0
    decreases |s|
  {
    if s != {} {
      var x :| x in s;
      SumRemove(s, f, x);
      SumZero(s - {x}, f);
      assert forall y :: y in s ==> y == x || y in s - {x};
    }
  }

  /** A sum of ones counts. */
  lemma {:induction false} SumCounts<K(!new)>(s: set<K>, t: set<K>, f: K -> int)
    requires t <= s && forall x :: x in s ==> f(x) == if x in t then 1 else 0
    ensures Sum(s, f) == |t|
    decreases |s|
  {
    if s != {} {
      var x :| x in s;
      SumRemove(s, f, x);
      SumCounts(s - {x}, t - {x}, f);
    } else {
      assert t == {};
    }
  }

  // ----- facts about agreement

  lemma {:induction false} AgreeingBound(a: seq<string>, b: seq<string>)
    ensures Agreeing(a, b) <= Min(|a|, |b|)
    ensures Agreeing(a, b) == Max(|a|, |b|) <==> a == b
  {
    if a != [] && b != [] {
      AgreeingBound(a[1..], b[1..]);
      assert a == [a[0]] + a[1..] && b == [b[0]] + b[1..];
    }
  }

  lemma {:induction false} AgreeingSymmetric(a: seq<string>, b: seq<string>)
    ensures Agreeing(a, b) == Agreeing(b, a)
  {
    if a != [] && b != [] {
      AgreeingSymmetric(a[1..], b[1..]);
    }
  }

  /** Agreement counted from the other end of the common length. */
  lemma {:induction false} AgreeingPush(a: seq<string>, b: seq<string>, i: nat)
    requires i < |a| && i < |b|
    ensures Agreeing(a[..i + 1], b[..i + 1]) == Agreeing(a[..i], b[..i]) + (if a[i] == b[i] then 1 else 0)
  {
    if i > 0 {
      AgreeingPush(a[1..], b[1..], i - 1);
      assert a[..i + 1][1..] == a[1..][..i] && b[..i + 1][1..] == b[1..][..i];
      assert a[..i][1..] == a[1..][..i - 1] && b[..i][1..] == b[1..][..i - 1];
    }
  }

  lemma {:induction false} AgreeingCut(a: seq<string>, b: seq<string>, i: nat)
    requires i <= |a| && i <= |b| && (i == |a| || i == |b|)
    ensures Agreeing(a[..i], b[..i]) == Agreeing(a, b)
  {
    if i > 0 {
      AgreeingCut(a[1..], b[1..], i - 1);
      assert a[..i][1..] == a[1..][..i - 1] && b[..i][1..] == b[1..][..i - 1];
    }
  }

  // ----- building the maps

  lemma {:induction false} OutputsPush(rows: seq<Row>, i: nat, k: Key)
    requires i < |rows|
    ensures Outputs(rows[..i + 1], k) == Outputs(rows[..i], k) + (if KeyOf(rows[i]) == k then [rows[i].outputHash] else [])
  {
    assert rows[..i + 1][..i] == rows[..i];
  }

  function OutputsOf(rows: seq<Row>): (r: seq<string>)
    ensures |r| == |rows|
  {
    seq(|rows|, i requires 0 <= i < |rows| => rows[i].outputHash)
  }

  /** A map holds every key of the trace with the rows of that key in order. */
  predicate IsOccurrenceMap(m: map<Key, seq<Row>>, rows: seq<Row>) {
    m.Keys == Keys(rows) && forall k :: k in m ==> OutputsOf(m[k]) == Outputs(rows, k)
  }

  lemma {:induction false} AbsentKey(rows: seq<Row>, k: Key)
    ensures k in Keys(rows) <==> Outputs(rows, k) != []
  {
    if rows != [] {
      AbsentKey(rows[..|rows| - 1], k);
    }
  }

  lemma {:induction false} LookedUp(m: map<Key, seq<Row>>, rows: seq<Row>, k: Key)
    requires IsOccurrenceMap(m, rows)
    ensures OutputsOf(if k in m then m[k] else []) == Outputs(rows, k)
  {
    AbsentKey(rows, k);
  }

  lemma {:induction false} OccurrenceStep(m: map<Key, seq<Row>>, rows: seq<Row>, i: nat)
    requires i < |rows| && IsOccurrenceMap(m, rows[..i])
    ensures var key := KeyOf(rows[i]);
            IsOccurrenceMap(m[key := (if key in m then m[key] else []) + [rows[i]]], rows[..i + 1])
  {
    var key := KeyOf(rows[i]);
    var had := if key in m then m[key] else [];
    KeysPush(rows, i);
    LookedUp(m, rows[..i], key);
    assert OutputsOf(had + [rows[i]]) == OutputsOf(had) + [rows[i].outputHash];
    var m2 := m[key := had + [rows[i]]];
    forall k | k in m2 ensures OutputsOf(m2[k]) == Outputs(rows[..i + 1], k) {
      OutputsPush(rows, i, k);
    }
  }

  method OccurrenceMap(rows: seq<Row>) returns (m: map<Key, seq<Row>>)
    ensures IsOccurrenceMap(m, rows)
  {
    m := map[];
    for i := 0 to |rows|
      invariant IsOccurrenceMap(m, rows[..i])
    {
      OccurrenceStep(m, rows, i);
      var key := KeyOf(rows[i]);
      var had := if key in m then m[key] else [];
      m := m[key := had + [rows[i]]];
    }
    assert rows[..|rows|] == rows;
  }

  lemma {:induction false} KeysPush(rows: seq<Row>, i: nat)
    requires i < |rows|
    ensures Keys(rows[..i + 1]) == Keys(rows[..i]) + {KeyOf(rows[i])}
  {
    assert rows[..i + 1][..i] == rows[..i];
  }

  predicate IsPairMap(m: map<Key, map<string, nat>>, rows: seq<Row>) {
    m.Keys == Keys(rows) && forall k :: k in m ==> m[k] == Tally(Outputs(rows, k))
  }

  lemma {:induction false} DomainStep<V>(m: map<Key, V>, rows: seq<Row>, i: nat, v: V)
    requires i < |rows| && m.Keys == Keys(rows[..i])
    ensures m[KeyOf(rows[i]) := v].Keys == Keys(rows[..i + 1])
  {
    KeysPush(rows, i);
  }

  lemma {:induction false} PairStep(m: map<Key, map<string, nat>>, rows: seq<Row>, i: nat)
    requires i < |rows| && IsPairMap(m, rows[..i])
    ensures var key := KeyOf(rows[i]);
            IsPairMap(m[key := Bump(if key in m then m[key] else map[], rows[i].outputHash)], rows[..i + 1])
  {
    var key := KeyOf(rows[i]);
    var outputs := if key in m then m[key] else map[];
    var bumped := Bump(outputs, rows[i].outputHash);
    DomainStep(m, rows, i, bumped);
    assert outputs == Tally(Outputs(rows[..i], key)) by {
      AbsentKey(rows[..i], key);
    }
    assert bumped == Tally(Outputs(rows[..i + 1], key)) by {
      TalliedStep(rows, i, outputs);
    }
    forall k | k in m && k != key ensures m[k] == Tally(Outputs(rows[..i + 1], k)) {
      OtherKeyStep(rows, i, k);
    }
  }

  lemma {:induction false} TalliedStep(rows: seq<Row>, i: nat, outputs: map<string, nat>)
    requires i < |rows| && outputs == Tally(Outputs(rows[..i], KeyOf(rows[i])))
    ensures Bump(outputs, rows[i].outputHash) == Tally(Outputs(rows[..i + 1], KeyOf(rows[i])))
  {
    OutputsPush(rows, i, KeyOf(rows[i]));
    TallyPush(Outputs(rows[..i], KeyOf(rows[i])), rows[i].outputHash);
  }

  lemma {:induction false} OtherKeyStep(rows: seq<Row>, i: nat, k: Key)
    requires i < |rows| && KeyOf(rows[i]) != k
    ensures Outputs(rows[..i + 1], k) == Outputs(rows[..i], k)
  {
    OutputsPush(rows, i, k);
    assert Outputs(rows[..i], k) + [] == Outputs(rows[..i], k);
  }

  method PairMap(rows: seq<Row>) returns (m: map<Key, map<string, nat>>)
    ensures IsPairMap(m, rows)
  {
    m := map[];
    for i := 0 to |rows|
      invariant IsPairMap(m, rows[..i])
    {
      var key, o := KeyOf(rows[i]), rows[i].outputHash;
      var outputs := if key in m then m[key] else map[];
      PairStep(m, rows, i);
      m := m[key := Bump(outputs, o)];
    }
    assert rows[..|rows|] == rows;
  }

  lemma {:induction false} TallyPush(outs: seq<string>, o: string)
    ensures Tally(outs + [o]) == Bump(Tally(outs), o)
  {
    assert (outs + [o])[..|outs|] == outs;
  }

  lemma {:induction false} TallyCounts(outs: seq<string>, o: string)
    ensures o in Tally(outs) <==> o in multiset(outs)
    ensures o in Tally(outs) ==> Tally(outs)[o] == multiset(outs)[o]
  {
    if outs != [] {
      var n := |outs| - 1;
      TallyCounts(outs[..n], o);
      assert outs == outs[..n] + [outs[n]];
    }
  }

  lemma {:induction false} TallyIsMultiset(a: seq<string>, b: seq<string>)
    ensures Tally(a) == Tally(b) <==> multiset(a) == multiset(b)
  {
    forall o ensures (o in Tally(a) <==> o in multiset(a)) && (o in Tally(b) <==> o in multiset(b))
      && (o in Tally(a) ==> Tally(a)[o] == multiset(a)[o]) && (o in Tally(b) ==> Tally(b)[o] == multiset(b)[o]) {
      TallyCounts(a, o);
      TallyCounts(b, o);
    }
    if Tally(a) == Tally(b) {
      assert multiset(a) == multiset(b);
    }
  }

  // ----- the three passes

  lemma {:induction false} CallCountPush(rows: seq<Row>, i: nat, f: string)
    requires i < |rows|
    ensures CallCount(rows[..i + 1], f) == CallCount(rows[..i], f) + (if rows[i].function_ == f then 1 else 0)
  {
    assert rows[..i + 1][..i] == rows[..i];
  }

  lemma {:induction false} CallCountZero(rows: seq<Row>, f: string)
    ensures f in Functions(rows) <==> CallCount(rows, f) > 0
  {
    if rows != [] {
      CallCountZero(rows[..|rows| - 1], f);
    }
  }

  method CountMap(rows: seq<Row>) returns (m: map<string, nat>)
    ensures m.Keys == Functions(rows) && forall f :: f in m ==> m[f] == CallCount(rows, f)
  {
    m := map[];
    for i := 0 to |rows|
      invariant m.Keys == Functions(rows[..i]) && forall f :: f in m ==> m[f] == CallCount(rows[..i], f)
    {
      var f := rows[i].function_;
      var c := if f in m then m[f] else 0;
      forall g ensures CallCount(rows[..i + 1], g) == CallCount(rows[..i], g) + (if f == g then 1 else 0) {
        CallCountPush(rows, i, g);
      }
      CallCountZero(rows[..i], f);
      FunctionsPush(rows, i);
      m := m[f := c + 1];
    }
    assert rows[..|rows|] == rows;
  }

  lemma {:induction false} FunctionsPush(rows: seq<Row>, i: nat)
    requires i < |rows|
    ensures Functions(rows[..i + 1]) == Functions(rows[..i]) + {rows[i].function_}
  {
    assert rows[..i + 1][..i] == rows[..i];
  }

  /** One iteration over the functions, in any order. */
  method CompareCounts(left: seq<Row>, right: seq<Row>) returns (status: int)
    ensures status == 0 || status == 1
    ensures status == 0 <==> forall f :: CallCount(left, f) == CallCount(right, f)
  {
    var lcounts := CountMap(left);
    var rcounts := CountMap(right);
    var functions := lcounts.Keys + rcounts.Keys;
    var rest := functions;
    var diffs := 0;
    while rest != {}
      invariant rest <= functions && diffs >= 0
      invariant diffs == 0 <==> forall f :: f in functions && f !in rest ==> CallCount(left, f) == CallCount(right, f)
      decreases rest
    {
      var f :| f in rest;
      CallCountZero(left, f);
      CallCountZero(right, f);
      var lc := if f in lcounts then lcounts[f] else 0;
      var rc := if f in rcounts then rcounts[f] else 0;
      if lc != rc {
        diffs := diffs + 1;
      }
      rest := rest - {f};
    }
    forall f ensures f !in functions ==> CallCount(left, f) == CallCount(right, f) {
      CallCountZero(left, f);
      CallCountZero(right, f);
    }
    status := if diffs != 0 then 1 else 0;
  }

  /** Every key's differences, as a function to sum. */
  ghost function PerKey(left: seq<Row>, right: seq<Row>): Key -> int {
    k => KeyDifferences(Outputs(left, k), Outputs(right, k))
  }

  ghost function SumOver(keys: set<Key>, left: seq<Row>, right: seq<Row>): int {
    Sum(keys, PerKey(left, right))
  }

  lemma {:induction false} SumOverRemove(keys: set<Key>, left: seq<Row>, right: seq<Row>, k: Key)
    requires k in keys
    ensures SumOver(keys, left, right)
         == KeyDifferences(Outputs(left, k), Outputs(right, k)) + SumOver(keys - {k}, left, right)
  {
    SumRemove(keys, PerKey(left, right), k);
  }

  /** What the occurrence pass counts. */
  ghost function Total(left: seq<Row>, right: seq<Row>): int {
    SumOver(Keys(left) + Keys(right), left, right)
  }

  /** The inner loop over the occurrences of one key. */
  method CompareKey(l: seq<Row>, r: seq<Row>, firstLimit: nat, summaryOnly: bool, differences: nat, printed: nat)
    returns (differences2: nat, printed2: nat)
    requires printed <= differences && printed <= firstLimit
    requires !summaryOnly ==> printed == Min(differences, firstLimit)
    requires summaryOnly ==> printed == 0
    ensures differences2 == differences + KeyDifferences(OutputsOf(l), OutputsOf(r))
    ensures printed2 <= differences2 && printed2 <= firstLimit
    ensures !summaryOnly ==> printed2 == Min(differences2, firstLimit)
    ensures summaryOnly ==> printed2 == 0
  {
    differences2, printed2 := differences, printed;
    ghost var a, b := OutputsOf(l), OutputsOf(r);
    var maxLen := Max(|l|, |r|);
    ghost var m := Min(|l|, |r|);
    AgreeingBound(a, b);
    for i := 0 to maxLen
      invariant differences2 == differences + i - Agreeing(a[..Min(i, m)], b[..Min(i, m)])
      invariant printed2 <= differences2 && printed2 <= firstLimit
      invariant !summaryOnly ==> printed2 == Min(differences2, firstLimit)
      invariant summaryOnly ==> printed2 == 0
      invariant differences2 >= 0
    {
      if i < m {
        AgreeingPush(a, b, i);
      }
      if i >= |l| || i >= |r| || l[i].outputHash != r[i].outputHash {
        if !summaryOnly && printed2 < firstLimit {
          printed2 := printed2 + 1;
        }
        differences2 := differences2 + 1;
      }
    }
    AgreeingCut(a, b, m);
  }

  // ----- what the total counts

  /** The positions at which two lists differ, those beyond the end of one of them included. */
  function DifferingBelow(a: seq<string>, b: seq<string>, n: nat): set<nat> {
    set i: nat | i < n && !(i < |a| && i < |b| && a[i] == b[i])
  }

  lemma {:induction false} DifferingPush(a: seq<string>, b: seq<string>, n: nat)
    ensures |DifferingBelow(a, b, n + 1)|
         == |DifferingBelow(a, b, n)| + (if n < |a| && n < |b| && a[n] == b[n] then 0 else 1)
  {
    var front, all := DifferingBelow(a, b, n), DifferingBelow(a, b, n + 1);
    if n < |a| && n < |b| && a[n] == b[n] {
      assert all == front;
    } else {
      assert n !in front && all == front + {n};
    }
  }

  /** Within both lists. */
  lemma {:induction false} DifferingWithin(a: seq<string>, b: seq<string>, n: nat)
    requires n <= Min(|a|, |b|)
    ensures |DifferingBelow(a, b, n)| == n - Agreeing(a[..n], b[..n])
  {
    if n == 0 {
      assert DifferingBelow(a, b, 0) == {};
    } else {
      var i := n - 1;
      DifferingWithin(a, b, i);
      DifferingPush(a, b, i);
      AgreeingPush(a, b, i);
      assert i + 1 == n;
    }
  }

  /** Beyond the end of the shorter list. */
  lemma {:induction false} DifferingBeyond(a: seq<string>, b: seq<string>, m: nat, n: nat)
    requires m == Min(|a|, |b|) <= n
    ensures |DifferingBelow(a, b, n)| == |DifferingBelow(a, b, m)| + (n - m)
  {
    if m < n {
      var i := n - 1;
      DifferingBeyond(a, b, m, i);
      DifferingPush(a, b, i);
      assert i + 1 == n;
    }
  }

  lemma {:induction false} KeyDifferencesCount(a: seq<string>, b: seq<string>)
    ensures KeyDifferences(a, b) == |DifferingBelow(a, b, Max(|a|, |b|))|
  {
    var m := Min(|a|, |b|);
    DifferingWithin(a, b, m);
    DifferingBeyond(a, b, m, Max(|a|, |b|));
    AgreeingCut(a, b, m);
  }

  /** A key and a position at which the outputs of the two traces differ. */
  function DifferencesAt(left: seq<Row>, right: seq<Row>, k: Key): set<(Key, nat)> {
    var a, b := Outputs(left, k), Outputs(right, k);
    PairUp(k, DifferingBelow(a, b, Max(|a|, |b|)))
  }

  function Differences(keys: set<Key>, left: seq<Row>, right: seq<Row>): set<(Key, nat)> {
    set k, d | k in keys && d in DifferencesAt(left, right, k) :: d
  }

  function PairUp(k: Key, s: set<nat>): set<(Key, nat)> {
    set i | i in s :: (k, i)
  }

  lemma {:induction false} PairedCount(k: Key, s: set<nat>)
    ensures |PairUp(k, s)| == |s|
    decreases |s|
  {
    if s == {} {
      assert PairUp(k, s) == {};
    } else {
      var x :| x in s;
      var rest := s - {x};
      PairedCount(k, rest);
      assert (k, x) !in PairUp(k, rest);
      forall d | d in PairUp(k, s) ensures d in PairUp(k, rest) + {(k, x)} {
        assert d.1 in s;
      }
      forall d | d in PairUp(k, rest) + {(k, x)} ensures d in PairUp(k, s) {
        assert d.0 == k && d.1 in s && d == (k, d.1);
      }
      assert PairUp(k, s) == PairUp(k, rest) + {(k, x)};
    }
  }

  lemma {:induction false} DifferencesCount(keys: set<Key>, left: seq<Row>, right: seq<Row>)
    ensures SumOver(keys, left, right) == |Differences(keys, left, right)|
    decreases |keys|
  {
    if keys == {} {
      assert Differences(keys, left, right) == {};
    } else {
      var k :| k in keys;
      var a, b := Outputs(left, k), Outputs(right, k);
      SumOverRemove(keys, left, right, k);
      DifferencesCount(keys - {k}, left, right);
      KeyDifferencesCount(a, b);
      PairedCount(k, DifferingBelow(a, b, Max(|a|, |b|)));
      DifferencesSplit(keys, left, right, k);
    }
  }

  lemma {:induction false} DifferencesSplit(keys: set<Key>, left: seq<Row>, right: seq<Row>, k: Key)
    requires k in keys
    ensures |Differences(keys, left, right)| == |Differences(keys - {k}, left, right)| + |DifferencesAt(left, right, k)|
  {
    var rest, here := Differences(keys - {k}, left, right), DifferencesAt(left, right, k);
    assert forall d :: d in here ==> d.0 == k;
    assert rest !! here;
    assert Differences(keys, left, right) == rest + here;
  }

  /** The total is the number of pairs of a key and a position at which the two traces differ. */
  lemma {:induction false} TotalCounts(left: seq<Row>, right: seq<Row>)
    ensures Total(left, right) == |Differences(Keys(left) + Keys(right), left, right)|
  {
    DifferencesCount(Keys(left) + Keys(right), left, right);
  }

  /** One iteration over the keys, in any order; returns the status, the total and what was printed. */
  method CompareOccurrences(left: seq<Row>, right: seq<Row>, firstLimit: nat, summaryOnly: bool)
    returns (status: int, differences: nat, printed: nat)
    ensures differences == Total(left, right) == |Differences(Keys(left) + Keys(right), left, right)|
    ensures status == if differences != 0 then 1 else 0
    ensures printed == if summaryOnly then 0 else Min(differences, firstLimit)
  {
    var lmap := OccurrenceMap(left);
    var rmap := OccurrenceMap(right);
    var keys := lmap.Keys + rmap.Keys;
    var rest := keys;
    TotalCounts(left, right);
    differences, printed := 0, 0;
    while rest != {}
      invariant rest <= keys && differences + SumOver(rest, left, right) == SumOver(keys, left, right)
      invariant printed == if summaryOnly then 0 else Min(differences, firstLimit)
      decreases rest
    {
      var key :| key in rest;
      var l := if key in lmap then lmap[key] else [];
      var r := if key in rmap then rmap[key] else [];
      LookedUp(lmap, left, key);
      LookedUp(rmap, right, key);
      SumOverRemove(rest, left, right, key);
      differences, printed := CompareKey(l, r, firstLimit, summaryOnly, differences, printed);
      rest := rest - {key};
    }
    status := if differences != 0 then 1 else 0;
  }

  function Missing(left: seq<Row>, right: seq<Row>): set<Key> {
    (Keys(left) - Keys(right)) + (Keys(right) - Keys(left))
  }

  function Mismatched(left: seq<Row>, right: seq<Row>): set<Key> {
    set k | k in Keys(left) * Keys(right) && multiset(Outputs(left, k)) != multiset(Outputs(right, k))
  }

  lemma {:induction false} OneLess<K>(s: set<K>, rest: set<K>, x: K)
    requires x in rest
    ensures |s - (rest - {x})| == |s - rest| + (if x in s then 1 else 0)
  {
    if x in s {
      assert s - (rest - {x}) == (s - rest) + {x};
    } else {
      assert s - (rest - {x}) == s - rest;
    }
  }

  /** What the lookups in the two pair maps say about a key that one of them holds. */
  lemma {:induction false} Classified(lmap: map<Key, map<string, nat>>, rmap: map<Key, map<string, nat>>,
                                      left: seq<Row>, right: seq<Row>, k: Key)
    requires IsPairMap(lmap, left) && IsPairMap(rmap, right) && (k in lmap || k in rmap)
    ensures k in Missing(left, right) <==> !(k in lmap && k in rmap)
    ensures k in Mismatched(left, right) <==> k in lmap && k in rmap && lmap[k] != rmap[k]
  {
    TallyIsMultiset(Outputs(left, k), Outputs(right, k));
  }

  ghost function MissingPast(left: seq<Row>, right: seq<Row>, rest: set<Key>): nat {
    |Missing(left, right) - rest|
  }

  ghost function MismatchedPast(left: seq<Row>, right: seq<Row>, rest: set<Key>): nat {
    |Mismatched(left, right) - rest|
  }

  /** What taking one key off the rest adds to the counts. */
  lemma {:induction false} PastKey(lmap: map<Key, map<string, nat>>, rmap: map<Key, map<string, nat>>,
                                   left: seq<Row>, right: seq<Row>, rest: set<Key>, k: Key)
    requires IsPairMap(lmap, left) && IsPairMap(rmap, right) && (k in lmap || k in rmap) && k in rest
    ensures MissingPast(left, right, rest - {k})
         == MissingPast(left, right, rest) + (if k in lmap && k in rmap then 0 else 1)
    ensures MismatchedPast(left, right, rest - {k})
         == MismatchedPast(left, right, rest) + (if k in lmap && k in rmap && lmap[k] != rmap[k] then 1 else 0)
  {
    Classified(lmap, rmap, left, right, k);
    OneLess(Missing(left, right), rest, k);
    OneLess(Mismatched(left, right), rest, k);
  }

  lemma {:induction false} BothWithin(left: seq<Row>, right: seq<Row>)
    ensures MissingPast(left, right, Keys(left) + Keys(right)) == 0
    ensures MismatchedPast(left, right, Keys(left) + Keys(right)) == 0
    ensures MissingPast(left, right, {}) == |Missing(left, right)|
    ensures MismatchedPast(left, right, {}) == |Mismatched(left, right)|
  {
    var all := Keys(left) + Keys(right);
    assert Missing(left, right) - all == {} && Mismatched(left, right) - all == {};
    assert Missing(left, right) - {} == Missing(left, right) && Mismatched(left, right) - {} == Mismatched(left, right);
  }

  /** One iteration over the keys, in any order. */
  method ComparePairs(left: seq<Row>, right: seq<Row>) returns (status: int, missing: nat, mismatched: nat)
    ensures missing == |Missing(left, right)| && mismatched == |Mismatched(left, right)|
    ensures status == if missing + mismatched != 0 then 1 else 0
  {
    var lmap := PairMap(left);
    var rmap := PairMap(right);
    var keys := lmap.Keys + rmap.Keys;
    var rest := keys;
    missing, mismatched := 0, 0;
    BothWithin(left, right);
    while rest != {}
      invariant rest <= keys
      invariant missing == MissingPast(left, right, rest) && mismatched == MismatchedPast(left, right, rest)
      decreases rest
    {
      var key :| key in rest;
      PastKey(lmap, rmap, left, right, rest, key);
      rest := rest - {key};
      if key in lmap && key in rmap {
        if lmap[key] != rmap[key] {
          mismatched := mismatched + 1;
        }
      } else {
        missing := missing + 1;
      }
    }
    status := if missing + mismatched != 0 then 1 else 0;
  }

  /** The rows of the functions asked for. */
  predicate Keeps(only: set<string>, skip: set<string>, f: string) {
    (only == {} || f in only) && f !in skip
  }

  function Kept(rows: seq<Row>, only: set<string>, skip: set<string>): seq<Row> {
    if rows == [] then []
    else Kept(rows[..|rows| - 1], only, skip)
         + (if Keeps(only, skip, rows[|rows| - 1].function_) then [rows[|rows| - 1]] else [])
  }

  method FilterRows(rows: seq<Row>, only: set<string>, skip: set<string>) returns (kept: seq<Row>)
    ensures kept == Kept(rows, only, skip)
    ensures forall r :: r in kept <==> r in rows && (only == {} || r.function_ in only) && r.function_ !in skip
  {
    kept := [];
    for i := 0 to |rows|
      invariant kept == Kept(rows[..i], only, skip)
      invariant forall r :: r in kept <==> r in rows[..i] && (only == {} || r.function_ in only) && r.function_ !in skip
    {
      assert rows[..i + 1][..i] == rows[..i] && rows[..i + 1] == rows[..i] + [rows[i]];
      if (only == {} || rows[i].function_ in only) && rows[i].function_ !in skip {
        kept := kept + [rows[i]];
      }
    }
    assert rows[..|rows|] == rows;
  }
}
