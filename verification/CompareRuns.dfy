/** What exit status zero of the comparator means about the two traces. */
module CompareRuns {
  import opened Compare

  /** What the comparator keeps of a row: its key and its output. */
  datatype Item = Item(key: Key, output: string)

  function Strip(rows: seq<Row>): (r: seq<Item>)
    ensures |r| == |rows|
  {
    seq(|rows|, i requires 0 <= i < |rows| => Item(KeyOf(rows[i]), rows[i].outputHash))
  }

  // ----- reordering

  /** b is a with one pair of neighbours of different keys exchanged. */
  ghost predicate Swapped(a: seq<Item>, b: seq<Item>) {
    exists i :: 0 <= i < |a| - 1 && a[i].key != a[i + 1].key && b == Exchange(a, i)
  }

  function Exchange(a: seq<Item>, i: nat): seq<Item>
    requires i + 1 < |a|
  {
    a[i := a[i + 1]][i + 1 := a[i]]
  }

  ghost predicate Path(p: seq<seq<Item>>) {
    p != [] && forall i :: 0 < i < |p| ==> Swapped(p[i - 1], p[i])
  }

  ghost predicate Leads(p: seq<seq<Item>>, a: seq<Item>, b: seq<Item>) {
    Path(p) && p[0] == a && p[|p| - 1] == b
  }

  /** b comes from a by exchanging neighbours of different keys, any number of times. */
  ghost predicate Reachable(a: seq<Item>, b: seq<Item>) {
    exists p :: Leads(p, a, b)
  }

  lemma {:induction false} JoinPaths(p: seq<seq<Item>>, q: seq<seq<Item>>, a: seq<Item>, b: seq<Item>, c: seq<Item>)
    requires Leads(p, a, b) && Leads(q, b, c)
    ensures Leads(p + q[1..], a, c)
  {
    var r := p + q[1..];
    forall i | 0 < i < |r| ensures Swapped(r[i - 1], r[i]) {
      if i >= |p| {
        assert r[i] == q[i - |p| + 1] && r[i - 1] == q[i - |p|];
      }
    }
  }

  /** Adding the same last row everywhere keeps a path a path. */
  lemma {:induction false} ExtendPath(p: seq<seq<Item>>, a: seq<Item>, b: seq<Item>, e: Item) returns (q: seq<seq<Item>>)
    requires Leads(p, a, b)
    ensures Leads(q, a + [e], b + [e])
  {
    q := seq(|p|, i requires 0 <= i < |p| => p[i] + [e]);
    forall i | 0 < i < |q| ensures Swapped(q[i - 1], q[i]) {
      assert Swapped(p[i - 1], p[i]);
      var j :| 0 <= j < |p[i - 1]| - 1 && p[i - 1][j].key != p[i - 1][j + 1].key && p[i] == Exchange(p[i - 1], j);
      assert q[i] == Exchange(q[i - 1], j);
    }
  }

  /** A row whose key does not occur after it can be moved to the end. */
  lemma {:induction false} MoveToEnd(a: seq<Item>, j: nat) returns (p: seq<seq<Item>>)
    requires j < |a| && forall i :: j < i < |a| ==> a[i].key != a[j].key
    ensures Leads(p, a, a[..j] + a[j + 1..] + [a[j]])
    decreases |a| - j
  {
    if j + 1 == |a| {
      assert a[..j] + a[j + 1..] + [a[j]] == a;
      p := [a];
    } else {
      var b := Exchange(a, j);
      var q := MoveToEnd(b, j + 1);
      assert b[..j + 1] + b[j + 2..] + [b[j + 1]] == a[..j] + a[j + 1..] + [a[j]];
      assert Leads([a, b], a, b);
      JoinPaths([a, b], q, a, b, a[..j] + a[j + 1..] + [a[j]]);
      p := [a, b] + q[1..];
    }
  }

  // ----- the outputs of one key

  /** The outputs of one key, in order. */
  function Outs(a: seq<Item>, k: Key): seq<string> {
    if a == [] then []
    else Outs(a[..|a| - 1], k) + (if a[|a| - 1].key == k then [a[|a| - 1].output] else [])
  }

  ghost predicate SameOuts(a: seq<Item>, b: seq<Item>) {
    forall k :: Outs(a, k) == Outs(b, k)
  }

  lemma {:induction false} OutsOfStrip(rows: seq<Row>, k: Key)
    ensures Outs(Strip(rows), k) == Outputs(rows, k)
  {
    if rows != [] {
      var n := |rows| - 1;
      OutsOfStrip(rows[..n], k);
      assert Strip(rows)[..n] == Strip(rows[..n]);
    }
  }

  lemma {:induction false} OutsConcat(a: seq<Item>, b: seq<Item>, k: Key)
    ensures Outs(a + b, k) == Outs(a, k) + Outs(b, k)
  {
    if b == [] {
      assert a + b == a;
    } else {
      var n := |b| - 1;
      OutsConcat(a, b[..n], k);
      assert (a + b)[..|a| + n] == a + b[..n];
    }
  }

  lemma {:induction false} OutsAbsent(a: seq<Item>, k: Key)
    requires forall i :: 0 <= i < |a| ==> a[i].key != k
    ensures Outs(a, k) == []
  {
    if a != [] {
      OutsAbsent(a[..|a| - 1], k);
    }
  }

  lemma {:induction false} OutsOne(e: Item, k: Key)
    ensures Outs([e], k) == if e.key == k then [e.output] else []
  {
    assert Outs([e][..0], k) == [];
  }

  /** The last row of a key. */
  lemma {:induction false} LastOf(a: seq<Item>, k: Key) returns (j: nat)
    requires Outs(a, k) != []
    ensures j < |a| && a[j].key == k && Outs(a, k)[|Outs(a, k)| - 1] == a[j].output
    ensures forall i :: j < i < |a| ==> a[i].key != k
  {
    var n := |a| - 1;
    if a[n].key == k {
      j := n;
    } else {
      assert Outs(a, k) == Outs(a[..n], k);
      j := LastOf(a[..n], k);
    }
  }

  lemma {:induction false} OutsOfPair(head: seq<Item>, x: Item, y: Item, tail: seq<Item>, k: Key)
    ensures Outs(head + ([x] + [y]) + tail, k) == Outs(head, k)
         + ((if x.key == k then [x.output] else []) + (if y.key == k then [y.output] else [])) + Outs(tail, k)
  {
    OutsConcat(head + ([x] + [y]), tail, k);
    OutsConcat(head, [x] + [y], k);
    OutsConcat([x], [y], k);
    OutsOne(x, k);
    OutsOne(y, k);
  }

  lemma {:induction false} ExchangeKeepsOuts(a: seq<Item>, i: nat, k: Key)
    requires i + 1 < |a| && a[i].key != a[i + 1].key
    ensures Outs(Exchange(a, i), k) == Outs(a, k)
  {
    var x, y := a[i], a[i + 1];
    var head, tail := a[..i], a[i + 2..];
    assert a == head + ([x] + [y]) + tail;
    assert Exchange(a, i) == head + ([y] + [x]) + tail;
    OutsOfPair(head, x, y, tail, k);
    OutsOfPair(head, y, x, tail, k);
  }

  lemma {:induction false} PathKeepsOuts(p: seq<seq<Item>>, k: Key)
    requires Path(p)
    ensures Outs(p[0], k) == Outs(p[|p| - 1], k)
  {
    if |p| > 1 {
      var n := |p| - 1;
      PathKeepsOuts(p[..n], k);
      assert Swapped(p[n - 1], p[n]);
      var i :| 0 <= i < |p[n - 1]| - 1 && p[n - 1][i].key != p[n - 1][i + 1].key && p[n] == Exchange(p[n - 1], i);
      ExchangeKeepsOuts(p[n - 1], i, k);
    }
  }

  lemma {:induction false} LastKeyHasOuts(a: seq<Item>)
    ensures a != [] ==> Outs(a, a[|a| - 1].key) != []
  {
  }

  lemma {:induction false} Cancel(a: seq<string>, b: seq<string>, c: seq<string>)
    requires a + c == b + c
    ensures a == b
  {
    assert (a + c)[..|a|] == a && (b + c)[..|b|] == b;
    assert |a + c| == |b + c|;
  }

  /** Traces that agree key by key are reorderings of one another: the last row of the right is brought to the
      end of the left, and the rest follows. */
  lemma {:induction false} SameOutsConnect(a: seq<Item>, b: seq<Item>) returns (p: seq<seq<Item>>)
    requires SameOuts(a, b)
    ensures Leads(p, a, b)
    decreases |b|
  {
    if b == [] {
      LastKeyHasOuts(a);
      p := [a];
    } else {
      var e := b[|b| - 1];
      var b' := b[..|b| - 1];
      assert Outs(a, e.key) == Outs(b, e.key);
      var j := LastOf(a, e.key);
      var a' := a[..j] + a[j + 1..];
      assert a[j] == e;
      forall k ensures Outs(a', k) == Outs(b', k) {
        DropLast(a, j, k);
        assert Outs(a, k) == Outs(b, k);
        Cancel(Outs(a', k), Outs(b', k), if e.key == k then [e.output] else []);
      }
      var q := SameOutsConnect(a', b');
      var tail := ExtendPath(q, a', b', e);
      assert b' + [e] == b;
      var front := MoveToEnd(a, j);
      JoinPaths(front, tail, a, a' + [e], b);
      p := front + tail[1..];
    }
  }

  lemma {:induction false} DropLast(a: seq<Item>, j: nat, k: Key)
    requires j < |a| && forall i :: j < i < |a| ==> a[i].key != a[j].key
    ensures Outs(a, k) == Outs(a[..j] + a[j + 1..], k) + (if a[j].key == k then [a[j].output] else [])
  {
    var head, x, tail := a[..j], a[j], a[j + 1..];
    assert a == head + [x] + tail;
    OutsConcat(head + [x], tail, k);
    OutsConcat(head, [x], k);
    OutsConcat(head, tail, k);
    OutsOne(x, k);
    if x.key == k {
      OutsAbsent(tail, k);
    }
  }

  lemma {:induction false} ReachableIffSameOuts(a: seq<Item>, b: seq<Item>)
    ensures Reachable(a, b) <==> SameOuts(a, b)
  {
    if SameOuts(a, b) {
      var p := SameOutsConnect(a, b);
      assert Leads(p, a, b);
    }
    if Reachable(a, b) {
      var p :| Leads(p, a, b);
      forall k ensures Outs(a, k) == Outs(b, k) {
        PathKeepsOuts(p, k);
      }
    }
  }

  // ----- the occurrence status

  /** The traces agree key by key. */
  ghost predicate Agree(left: seq<Row>, right: seq<Row>) {
    forall k :: Outputs(left, k) == Outputs(right, k)
  }

  lemma {:induction false} ZeroIffAgree(left: seq<Row>, right: seq<Row>)
    ensures Total(left, right) >= 0
    ensures Total(left, right) == 0 <==> Agree(left, right)
  {
    var keys, f := Keys(left) + Keys(right), PerKey(left, right);
    forall k ensures f(k) >= 0 && (f(k) == 0 <==> Outputs(left, k) == Outputs(right, k)) {
      AgreeingBound(Outputs(left, k), Outputs(right, k));
    }
    SumZero(keys, f);
    forall k | k !in keys ensures Outputs(left, k) == Outputs(right, k) {
      AbsentKey(left, k);
      AbsentKey(right, k);
    }
  }

  /** The occurrence pass finds nothing exactly when the right trace is the left one with neighbours of different
      keys exchanged: any interleaving that keeps each key's order matches, and no other trace does. */
  lemma {:induction false} ZeroIffReachable(left: seq<Row>, right: seq<Row>)
    ensures Total(left, right) == 0 <==> Reachable(Strip(left), Strip(right))
  {
    ZeroIffAgree(left, right);
    ReachableIffSameOuts(Strip(left), Strip(right));
    forall k ensures Outs(Strip(left), k) == Outputs(left, k) && Outs(Strip(right), k) == Outputs(right, k) {
      OutsOfStrip(left, k);
      OutsOfStrip(right, k);
    }
    if SameOuts(Strip(left), Strip(right)) {
      forall k ensures Outputs(left, k) == Outputs(right, k) {
        assert Outs(Strip(left), k) == Outs(Strip(right), k);
      }
    }
  }

  lemma {:induction false} KeyDifferencesSymmetric(a: seq<string>, b: seq<string>)
    ensures KeyDifferences(a, b) == KeyDifferences(b, a)
  {
    AgreeingSymmetric(a, b);
  }

  /** Exchanging the sides does not change the number of differences. */
  lemma {:induction false} TotalSymmetric(left: seq<Row>, right: seq<Row>)
    ensures Total(left, right) == Total(right, left)
  {
    var keys := Keys(left) + Keys(right);
    assert keys == Keys(right) + Keys(left);
    forall k ensures PerKey(left, right)(k) == PerKey(right, left)(k) {
      KeyDifferencesSymmetric(Outputs(left, k), Outputs(right, k));
    }
    SumLinear(keys, PerKey(left, right), PerKey(right, left));
    SumLinear(keys, PerKey(right, left), PerKey(left, right));
  }

  // ----- counting rows

  ghost function Lengths(rows: seq<Row>): Key -> int {
    (k: Key) => |Outputs(rows, k)|
  }

  lemma {:induction false} SumBump(s: set<Key>, f: Key -> int, g: Key -> int, x: Key)
    requires x in s && g(x) == f(x) + 1 && forall y :: y in s && y != x ==> g(y) == f(y)
    ensures Sum(s, g) == Sum(s, f) + 1
  {
    SumRemove(s, f, x);
    SumRemove(s, g, x);
    SumLinear(s - {x}, f, g);
    SumLinear(s - {x}, g, f);
  }

  /** Every row belongs to one key. */
  lemma {:induction false} RowsAreSum(rows: seq<Row>, keys: set<Key>)
    requires Keys(rows) <= keys
    ensures Sum(keys, Lengths(rows)) == |rows|
  {
    if rows == [] {
      SumZero(keys, Lengths(rows));
    } else {
      var n := |rows| - 1;
      assert rows[..n + 1] == rows;
      KeysPush(rows, n);
      RowsAreSum(rows[..n], keys);
      SumBump(keys, Lengths(rows[..n]), Lengths(rows), KeyOf(rows[n]));
    }
  }

  /** The total is at least the difference in row counts. */
  lemma {:induction false} TotalCoversRowCounts(left: seq<Row>, right: seq<Row>)
    ensures Total(left, right) >= |left| - |right|
    ensures Total(left, right) >= |right| - |left|
  {
    var keys := Keys(left) + Keys(right);
    var d := (k: Key) => Lengths(left)(k) - Lengths(right)(k);
    var e := (k: Key) => Lengths(right)(k) - Lengths(left)(k);
    RowsAreSum(left, keys);
    RowsAreSum(right, keys);
    SumDifference(keys, Lengths(left), Lengths(right), d);
    SumDifference(keys, Lengths(right), Lengths(left), e);
    forall k ensures d(k) <= PerKey(left, right)(k) && e(k) <= PerKey(left, right)(k) {
      AgreeingBound(Outputs(left, k), Outputs(right, k));
    }
    SumLinear(keys, PerKey(left, right), d);
    SumLinear(keys, PerKey(left, right), e);
  }

  /** A missing or mismatched key has a difference. */
  lemma {:induction false} PairCosts(left: seq<Row>, right: seq<Row>, k: Key)
    ensures PerKey(left, right)(k) >= if k in Missing(left, right) + Mismatched(left, right) then 1 else 0
  {
    AgreeingBound(Outputs(left, k), Outputs(right, k));
    AbsentKey(left, k);
    AbsentKey(right, k);
  }

  /** The total is at least what the pair pass counts. */
  lemma {:induction false} TotalCoversPairs(left: seq<Row>, right: seq<Row>)
    ensures Total(left, right) >= |Missing(left, right)| + |Mismatched(left, right)|
  {
    var keys := Keys(left) + Keys(right);
    var hit := Missing(left, right) + Mismatched(left, right);
    assert Missing(left, right) !! Mismatched(left, right);
    var one := (k: Key) => if k in hit then 1 else 0;
    SumCounts(keys, hit, one);
    forall k | k in keys ensures one(k) <= PerKey(left, right)(k) {
      PairCosts(left, right, k);
    }
    SumLinear(keys, PerKey(left, right), one);
  }

  // ----- the other two passes add nothing to the exit status

  /** The functions of a trace, counted through its keys. */
  lemma {:induction false} CallsAreSum(rows: seq<Row>, keys: set<Key>, f: string)
    requires Keys(rows) <= keys
    ensures Sum(keys, CallsOf(rows, f)) == CallCount(rows, f)
  {
    if rows == [] {
      SumZero(keys, CallsOf(rows, f));
    } else {
      var n := |rows| - 1;
      assert rows[..n + 1] == rows;
      KeysPush(rows, n);
      CallsAreSum(rows[..n], keys, f);
      if rows[n].function_ == f {
        SumBump(keys, CallsOf(rows[..n], f), CallsOf(rows, f), KeyOf(rows[n]));
      } else {
        SumLinear(keys, CallsOf(rows[..n], f), CallsOf(rows, f));
        SumLinear(keys, CallsOf(rows, f), CallsOf(rows[..n], f));
      }
    }
  }

  ghost function CallsOf(rows: seq<Row>, f: string): Key -> int {
    (k: Key) => if k.function_ == f then |Outputs(rows, k)| else 0
  }

  /** Traces that agree key by key have the same call counts, the same keys and the same outputs per key. */
  lemma {:induction false} AgreeForcesOthers(left: seq<Row>, right: seq<Row>)
    requires Agree(left, right)
    ensures forall f :: CallCount(left, f) == CallCount(right, f)
    ensures Missing(left, right) == {} && Mismatched(left, right) == {}
  {
    var keys := Keys(left) + Keys(right);
    forall f ensures CallCount(left, f) == CallCount(right, f) {
      CallsAreSum(left, keys, f);
      CallsAreSum(right, keys, f);
      SumLinear(keys, CallsOf(left, f), CallsOf(right, f));
      SumLinear(keys, CallsOf(right, f), CallsOf(left, f));
    }
    forall k ensures k in Keys(left) <==> k in Keys(right) {
      AbsentKey(left, k);
      AbsentKey(right, k);
    }
  }

  // ----- filters

  lemma {:induction false} KeptPush(rows: seq<Row>, only: set<string>, skip: set<string>, r: Row, k: Key)
    ensures Outputs(Kept(rows + [r], only, skip), k)
         == Outputs(Kept(rows, only, skip), k) + (if Keeps(only, skip, r.function_) && KeyOf(r) == k then [r.outputHash] else [])
  {
    assert (rows + [r])[..|rows|] == rows;
    var before := Kept(rows, only, skip);
    if Keeps(only, skip, r.function_) {
      assert (before + [r])[..|before|] == before;
    } else {
      assert before + [] == before;
    }
  }

  lemma {:induction false} KeptWhen(rows: seq<Row>, only: set<string>, skip: set<string>, k: Key, keeps: bool)
    requires keeps == Keeps(only, skip, k.function_)
    ensures Outputs(Kept(rows, only, skip), k) == if keeps then Outputs(rows, k) else []
  {
    if rows != [] {
      var front, last := rows[..|rows| - 1], rows[|rows| - 1];
      assert rows == front + [last];
      KeptWhen(front, only, skip, k, keeps);
      KeptPush(front, only, skip, last, k);
      if KeyOf(last) != k {
        assert Outputs(front, k) + [] == Outputs(front, k);
      }
    }
  }

  /** A filter drops all rows of a key or none. */
  lemma {:induction false} KeptOutputs(rows: seq<Row>, only: set<string>, skip: set<string>, k: Key)
    ensures Outputs(Kept(rows, only, skip), k)
         == if (only == {} || k.function_ in only) && k.function_ !in skip then Outputs(rows, k) else []
  {
    KeptWhen(rows, only, skip, k, Keeps(only, skip, k.function_));
  }

  /** Filtering both sides the same way keeps a match. */
  lemma {:induction false} FilterKeepsMatch(left: seq<Row>, right: seq<Row>, only: set<string>, skip: set<string>)
    requires Total(left, right) == 0
    ensures Total(Kept(left, only, skip), Kept(right, only, skip)) == 0
  {
    var l, r := Kept(left, only, skip), Kept(right, only, skip);
    ZeroIffAgree(left, right);
    forall k ensures Outputs(l, k) == Outputs(r, k) {
      KeptOutputs(left, only, skip, k);
      KeptOutputs(right, only, skip, k);
    }
    ZeroIffAgree(l, r);
  }

  /** Filtered traces match exactly when the outputs agree for every key of a function that is asked for and not
      skipped. */
  lemma {:induction false} FilteredMatch(left: seq<Row>, right: seq<Row>, only: set<string>, skip: set<string>)
    ensures Total(Kept(left, only, skip), Kept(right, only, skip)) == 0
       <==> forall k: Key :: (only == {} || k.function_ in only) && k.function_ !in skip ==> Outputs(left, k) == Outputs(right, k)
  {
    var l, r := Kept(left, only, skip), Kept(right, only, skip);
    ZeroIffAgree(l, r);
    forall k: Key ensures Outputs(l, k) == Outputs(r, k) <==>
                          ((only == {} || k.function_ in only) && k.function_ !in skip ==> Outputs(left, k) == Outputs(right, k))
    {
      KeptOutputs(left, only, skip, k);
      KeptOutputs(right, only, skip, k);
    }
  }

  /** Traces match exactly when they match function by function. */
  lemma {:induction false} MatchesByFunction(left: seq<Row>, right: seq<Row>)
    ensures Total(left, right) == 0
       <==> forall f: string :: Total(Kept(left, {f}, {}), Kept(right, {f}, {})) == 0
  {
    if forall f: string :: Total(Kept(left, {f}, {}), Kept(right, {f}, {})) == 0 {
      forall k: Key ensures Outputs(left, k) == Outputs(right, k) {
        var f := k.function_;
        assert Total(Kept(left, {f}, {}), Kept(right, {f}, {})) == 0;
        ZeroIffAgree(Kept(left, {f}, {}), Kept(right, {f}, {}));
        KeptOutputs(left, {f}, {}, k);
        KeptOutputs(right, {f}, {}, k);
        assert Outputs(Kept(left, {f}, {}), k) == Outputs(Kept(right, {f}, {}), k);
      }
      ZeroIffAgree(left, right);
    }
    if Total(left, right) == 0 {
      forall f: string ensures Total(Kept(left, {f}, {}), Kept(right, {f}, {})) == 0 {
        FilterKeepsMatch(left, right, {f}, {});
      }
    }
  }

  // ----- the exit status

  /** Bitwise or of two statuses. */
  function Either(a: int, b: int): int {
    if a == 0 then b else if b == 0 then a else 1
  }

  /** The main function after its arguments and files have been read. */
  method ExitStatus(left: seq<Row>, right: seq<Row>, only: set<string>, skip: set<string>, firstLimit: nat,
                    summaryOnly: bool)
    returns (status: int)
    ensures status == 0 || status == 1
    ensures status == 0 <==> Reachable(Strip(Kept(left, only, skip)), Strip(Kept(right, only, skip)))
    ensures status == 0 <==> Total(Kept(left, only, skip), Kept(right, only, skip)) == 0
    ensures status == 0 <==> Total(Kept(right, only, skip), Kept(left, only, skip)) == 0
    ensures status == 0 <==>
      forall k: Key :: (only == {} || k.function_ in only) && k.function_ !in skip ==> Outputs(left, k) == Outputs(right, k)
  {
    var l := FilterRows(left, only, skip);
    var r := FilterRows(right, only, skip);
    status := 0;
    var counts := CompareCounts(l, r);
    status := Either(status, counts);
    var occurrences, differences, printed := CompareOccurrences(l, r, firstLimit, summaryOnly);
    status := Either(status, occurrences);
    var pairs, missing, mismatched := ComparePairs(l, r);
    status := Either(status, pairs);
    ZeroIffAgree(l, r);
    ZeroIffReachable(l, r);
    TotalSymmetric(l, r);
    FilteredMatch(left, right, only, skip);
    if Total(l, r) == 0 {
      AgreeForcesOthers(l, r);
    }
  }
}
