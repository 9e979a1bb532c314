/** The text rows both recorders write and the comparator's reader. */
module TraceFile {
  import opened Bytes
  import opened Text

  /** What one row reports. */
  datatype RowData = RowData(
    runId: string, side: string, thread: nat, number: nat, function_: string, inputHash: u64, outputHash: u64,
    inputLen: nat, outputLen: nat, elapsed: nat, file: string, line: nat, deepSeq: Option<nat>,
    values: Option<string>)

  const TAB: char := '\t'
  const NEWLINE: char := '\n'

  // ----- hexadecimal

  function HexDigit(d: nat): (c: char)
    requires d < 16
    ensures c == HexChars()[d]
  {
    HexChars()[d]
  }

  function HexChars(): (s: string)
    ensures |s| == 16
  {
    "0123456789abcdef"
  }

  /** `k` lower-case hexadecimal digits. */
  function Hex(n: nat, k: nat): (s: string)
    ensures |s| == k
  {
    if k == 0 then "" else Hex(n / 16, k - 1) + [HexDigit(n % 16)]
  }

  function Pow16(k: nat): nat {
    if k == 0 then 1 else 16 * Pow16(k - 1)
  }

  lemma {:induction false} HexDigitInjective(a: nat, b: nat)
    requires a < 16 && b < 16 && HexDigit(a) == HexDigit(b)
    ensures a == b
  {
    var s := HexChars();
    assert s == "0123456789abcdef";
  }

  lemma {:induction false} HexInjective(m: nat, n: nat, k: nat)
    requires m < Pow16(k) && n < Pow16(k) && Hex(m, k) == Hex(n, k)
    ensures m == n
  {
    if k > 0 {
      var a, b := Hex(m / 16, k - 1), Hex(n / 16, k - 1);
      assert (a + [HexDigit(m % 16)])[..k - 1] == a && (b + [HexDigit(n % 16)])[..k - 1] == b;
      assert (a + [HexDigit(m % 16)])[k - 1] == (b + [HexDigit(n % 16)])[k - 1];
      HexInjective(m / 16, n / 16, k - 1);
      HexDigitInjective(m % 16, n % 16);
    }
  }

  function HashText(h: u64): (s: string)
    ensures |s| == 16
  {
    Hex(h, 16)
  }

  /** Equal hash columns mean equal hashes. */
  lemma {:induction false} HashTextInjective(a: u64, b: u64)
    requires HashText(a) == HashText(b)
    ensures a == b
  {
    assert Pow16(8) == TWO32;
    assert Pow16(16) == TWO64;
    HexInjective(a, b, 16);
  }

  lemma {:induction false} HexLacks(n: nat, k: nat, c: char)
    requires forall d :: 0 <= d < 16 ==> HexChars()[d] != c
    ensures Lacks(Hex(n, k), c)
  {
    if k > 0 {
      HexLacks(n / 16, k - 1, c);
    }
  }

  // ----- the columns

  function DeepField(deepSeq: Option<nat>): string {
    match deepSeq
    case None => "-"
    case Some(n) => Decimal(n)
  }

  /** The thirteen columns that every row has. */
  function Fixed(d: RowData): (cols: seq<string>)
    ensures |cols| == 13
  {
    [d.runId, d.side, Decimal(d.thread), Decimal(d.number), d.function_, HashText(d.inputHash), HashText(d.outputHash),
     Decimal(d.inputLen), Decimal(d.outputLen), Decimal(d.elapsed), d.file, Decimal(d.line), DeepField(d.deepSeq)]
  }

  function Columns(d: RowData): (cols: seq<string>)
    ensures |cols| == if d.values.Some? then 14 else 13
  {
    if d.values.Some? then Fixed(d) + [d.values.value] else Fixed(d)
  }

  function LineOf(d: RowData): string {
    Join(Columns(d), TAB)
  }

  /** The row that `tracehash_finish` prints. */
  function CRow(d: RowData): string {
    LineOf(d) + [NEWLINE]
  }

  lemma {:induction false} ColumnsLack(d: RowData, c: char)
    requires c == TAB || c == NEWLINE
    requires AllLack([d.runId, d.side, d.function_, d.file], c)
    requires d.values.Some? ==> Lacks(d.values.value, c)
    ensures AllLack(Columns(d), c)
  {
    var texts := [d.runId, d.side, d.function_, d.file];
    assert Lacks(texts[0], c) && Lacks(texts[1], c) && Lacks(texts[2], c) && Lacks(texts[3], c);
    HashLacks(d.inputHash, c);
    HashLacks(d.outputHash, c);
    DeepLacks(d.deepSeq, c);
  }

  lemma {:induction false} HashLacks(h: u64, c: char)
    requires c == TAB || c == NEWLINE
    ensures Lacks(HashText(h), c)
  {
    HexLacks(h, 16, c);
  }

  lemma {:induction false} DeepLacks(deepSeq: Option<nat>, c: char)
    requires c == TAB || c == NEWLINE
    ensures Lacks(DeepField(deepSeq), c)
  {
  }

  // ----- the Rust row: placeholders, filled in at the end

  // ----- the row, column by column

  /** The hexadecimal digit of a number at a position, the lowest being position 0. */
  function Nibble(n: nat, j: nat): (d: nat)
    ensures d < 16
  {
    if j == 0 then n % 16 else Nibble(n / 16, j - 1)
  }

  /** A hash column is written in lower case, the most significant digit first, with leading zeros. */
  lemma {:induction false} HexAt(n: nat, k: nat, i: nat)
    requires i < k
    ensures Hex(n, k)[i] == "0123456789abcdef"[Nibble(n, k - 1 - i)]
  {
    if i < k - 1 {
      HexAt(n / 16, k - 1, i);
    }
  }

  /** The fourteen columns in the order of the format string, tabs between them and a line feed behind. */
  lemma {:induction false} RowIs(d: RowData)
    ensures CRow(d) == Join(
      [d.runId, d.side, Decimal(d.thread), Decimal(d.number), d.function_, HashText(d.inputHash), HashText(d.outputHash),
       Decimal(d.inputLen), Decimal(d.outputLen), Decimal(d.elapsed), d.file, Decimal(d.line),
       if d.deepSeq.None? then "-" else Decimal(d.deepSeq.value)]
      + (if d.values.None? then [] else [d.values.value]), '\t') + "\n"
  {
    assert Fixed(d) + [] == Fixed(d);
  }

  const RUN_ID := "{run_id}"
  const SIDE := "{side}"

  /** `str::replace`: every occurrence, from the left. */
  function Replace(s: string, pattern: string, with_: string): string
    requires pattern != ""
    decreases |s|
  {
    if s == "" then ""
    else if pattern <= s then with_ + Replace(s[|pattern|..], pattern, with_)
    else [s[0]] + Replace(s[1..], pattern, with_)
  }

  /** The row that `finish` writes: the placeholders stand in the first two columns, and every occurrence of them in
      the row is filled in. */
  function RustText(d: RowData): string {
    Replace(Replace(CRow(d.(runId := RUN_ID, side := SIDE)), RUN_ID, d.runId), SIDE, d.side)
  }

  method RustRow(d: RowData) returns (row: string)
    ensures row == RustText(d)
  {
    ghost var blank := d.(runId := RUN_ID, side := SIDE);
    var deepSeqField := match d.deepSeq case Some(n) => Decimal(n) case None => "-";
    row := Join([RUN_ID, SIDE, Decimal(d.thread), Decimal(d.number), d.function_, HashText(d.inputHash),
                 HashText(d.outputHash), Decimal(d.inputLen), Decimal(d.outputLen), Decimal(d.elapsed), d.file,
                 Decimal(d.line), deepSeqField], TAB);
    assert row == Join(Fixed(blank), TAB);
    if d.values.Some? {
      JoinPush(Fixed(blank), d.values.value);
      row := row + [TAB] + d.values.value;
    }
    row := row + [NEWLINE];
    row := Replace(Replace(row, RUN_ID, d.runId), SIDE, d.side);
  }

  lemma {:induction false} JoinPush(parts: seq<string>, last: string)
    requires parts != []
    ensures Join(parts + [last], TAB) == Join(parts, TAB) + [TAB] + last
  {
    if |parts| == 1 {
      assert (parts + [last])[1..] == [last];
    } else {
      assert (parts + [last])[1..] == parts[1..] + [last];
      JoinPush(parts[1..], last);
      var a, b := parts[0] + [TAB], Join(parts[1..], TAB);
      assert a + (b + [TAB] + last) == a + b + [TAB] + last;
    }
  }

  /** No match crosses a separator that the pattern lacks. */
  lemma {:induction false} ReplaceAcross(a: string, c: char, rest: string, pattern: string, with_: string)
    requires pattern != "" && Lacks(pattern, c)
    ensures Replace(a + [c] + rest, pattern, with_)
         == Replace(a, pattern, with_) + [c] + Replace(rest, pattern, with_)
    decreases |a|
  {
    var t := a + [c] + rest;
    PrefixAcross(a, c, rest, pattern);
    if a == "" {
      assert t[1..] == rest;
    } else if pattern <= a {
      var n := |pattern|;
      assert t[n..] == a[n..] + [c] + rest;
      ReplaceAcross(a[n..], c, rest, pattern, with_);
      var x, y := Replace(a[n..], pattern, with_), Replace(rest, pattern, with_);
      InFront(with_, x, [c], y);
    } else {
      assert t[1..] == a[1..] + [c] + rest;
      ReplaceAcross(a[1..], c, rest, pattern, with_);
      var x, y := Replace(a[1..], pattern, with_), Replace(rest, pattern, with_);
      InFront([a[0]], x, [c], y);
    }
  }

  lemma {:induction false} InFront(head: string, x: string, sep: string, y: string)
    ensures head + (x + sep + y) == head + x + sep + y
  {
  }

  lemma {:induction false} PrefixAcross(a: string, c: char, rest: string, pattern: string)
    requires pattern != "" && Lacks(pattern, c)
    ensures pattern <= a + [c] + rest <==> pattern <= a
  {
    var t := a + [c] + rest;
    if |pattern| > |a| {
      assert t[|a|] == c && pattern[|a|] != c;
    } else {
      assert t[..|pattern|] == a[..|pattern|];
    }
  }

  function ReplaceEach(parts: seq<string>, pattern: string, with_: string): (r: seq<string>)
    requires pattern != ""
    ensures |r| == |parts|
  {
    seq(|parts|, i requires 0 <= i < |parts| => Replace(parts[i], pattern, with_))
  }

  lemma {:induction false} ReplaceJoin(parts: seq<string>, pattern: string, with_: string)
    requires parts != [] && pattern != "" && Lacks(pattern, TAB)
    ensures Replace(Join(parts, TAB), pattern, with_) == Join(ReplaceEach(parts, pattern, with_), TAB)
  {
    var each := ReplaceEach(parts, pattern, with_);
    if |parts| > 1 {
      ReplaceAcross(parts[0], TAB, Join(parts[1..], TAB), pattern, with_);
      ReplaceJoin(parts[1..], pattern, with_);
      assert each[1..] == ReplaceEach(parts[1..], pattern, with_);
    }
  }

  /** The pattern does not occur. */
  predicate Free(s: string, pattern: string) {
    forall i :: 0 <= i < |s| ==> !(pattern <= s[i..])
  }

  lemma {:induction false} ReplaceNothing(s: string, pattern: string, with_: string)
    requires pattern != "" && Free(s, pattern)
    ensures Replace(s, pattern, with_) == s
  {
    if s != "" {
      assert s[0..] == s;
      forall i | 0 <= i < |s[1..]| ensures !(pattern <= s[1..][i..]) {
        assert s[1..][i..] == s[i + 1..];
      }
      ReplaceNothing(s[1..], pattern, with_);
    }
  }

  lemma {:induction false} LacksBrace(s: string, pattern: string)
    requires pattern != "" && Lacks(s, pattern[0])
    ensures Free(s, pattern)
  {
    forall i | 0 <= i < |s| ensures !(pattern <= s[i..]) {
      assert s[i..][0] == s[i];
    }
  }

  // ----- the two rows

  function FillIn(s: string, d: RowData): string {
    Replace(Replace(s, RUN_ID, d.runId), SIDE, d.side)
  }

  /** The row data with the placeholders filled in wherever they stand: in the two columns meant for them, and in
      any text that happens to spell them. */
  function Filled(d: RowData): RowData {
    d.(runId := Replace(d.runId, SIDE, d.side), function_ := FillIn(d.function_, d), file := FillIn(d.file, d),
       values := if d.values.Some? then Some(FillIn(d.values.value, d)) else None)
  }

  lemma {:induction false} FillKeeps(s: string, d: RowData)
    requires Free(s, RUN_ID) && Free(s, SIDE)
    ensures FillIn(s, d) == s
  {
    ReplaceNothing(s, RUN_ID, d.runId);
    ReplaceNothing(s, SIDE, d.side);
  }

  lemma {:induction false} FillKeepsPlain(s: string, d: RowData)
    requires Lacks(s, '{')
    ensures FillIn(s, d) == s
  {
    LacksBrace(s, RUN_ID);
    LacksBrace(s, SIDE);
    FillKeeps(s, d);
  }

  lemma {:induction false} FillNumbers(d: RowData)
    ensures forall n: nat :: FillIn(Decimal(n), d) == Decimal(n)
    ensures forall h: u64 :: FillIn(HashText(h), d) == HashText(h)
    ensures FillIn(DeepField(d.deepSeq), d) == DeepField(d.deepSeq)
  {
    forall n: nat ensures FillIn(Decimal(n), d) == Decimal(n) {
      DecimalLacks(n, '{');
      FillKeepsPlain(Decimal(n), d);
    }
    forall h: u64 ensures FillIn(HashText(h), d) == HashText(h) {
      HexLacks(h, 16, '{');
      FillKeepsPlain(HashText(h), d);
    }
    FillKeepsPlain("-", d);
  }

  lemma {:induction false} FillPlaceholders(d: RowData)
    ensures FillIn(RUN_ID, d) == Replace(d.runId, SIDE, d.side)
    ensures FillIn(SIDE, d) == d.side
  {
    assert RUN_ID[|RUN_ID|..] == "" && d.runId + "" == d.runId;
    assert Replace(RUN_ID, RUN_ID, d.runId) == d.runId;
    ReplaceNothing(SIDE, RUN_ID, d.runId);
    assert SIDE[|SIDE|..] == "" && d.side + "" == d.side;
    assert Replace(SIDE, SIDE, d.side) == d.side;
  }

  function FillEach(parts: seq<string>, d: RowData): (r: seq<string>)
    ensures |r| == |parts|
  {
    seq(|parts|, i requires 0 <= i < |parts| => FillIn(parts[i], d))
  }

  lemma {:induction false} FillLine(parts: seq<string>, d: RowData)
    requires parts != []
    ensures Replace(Replace(Join(parts, TAB) + [NEWLINE], RUN_ID, d.runId), SIDE, d.side)
         == Join(FillEach(parts, d), TAB) + [NEWLINE]
  {
    var once := ReplaceEach(parts, RUN_ID, d.runId);
    LineOnce(parts, RUN_ID, d.runId);
    LineOnce(once, SIDE, d.side);
    assert ReplaceEach(once, SIDE, d.side) == FillEach(parts, d);
  }

  lemma {:induction false} LineOnce(parts: seq<string>, pattern: string, with_: string)
    requires parts != [] && pattern != "" && Lacks(pattern, TAB) && Lacks(pattern, NEWLINE)
    ensures Replace(Join(parts, TAB) + [NEWLINE], pattern, with_)
         == Join(ReplaceEach(parts, pattern, with_), TAB) + [NEWLINE]
  {
    var s := Join(parts, TAB);
    ReplaceAcross(s, NEWLINE, "", pattern, with_);
    assert s + [NEWLINE] + "" == s + [NEWLINE];
    ReplaceJoin(parts, pattern, with_);
    var t := Replace(s, pattern, with_);
    assert t + [NEWLINE] + "" == t + [NEWLINE];
  }

  function MapText(parts: seq<string>, f: string -> string): (r: seq<string>)
    ensures |r| == |parts|
  {
    seq(|parts|, i requires 0 <= i < |parts| => f(parts[i]))
  }

  /** A change to the user texts of a row, as a change to its columns. */
  lemma {:induction false} ColumnsMapped(a: RowData, b: RowData, f: string -> string)
    requires a.(runId := b.runId, side := b.side, function_ := b.function_, file := b.file, values := b.values) == b
    requires b.runId == f(a.runId) && b.side == f(a.side) && b.function_ == f(a.function_) && b.file == f(a.file)
    requires b.values == if a.values.Some? then Some(f(a.values.value)) else None
    requires (forall n: nat :: f(Decimal(n)) == Decimal(n)) && (forall h: u64 :: f(HashText(h)) == HashText(h))
    requires f(DeepField(a.deepSeq)) == DeepField(a.deepSeq)
    ensures MapText(Columns(a), f) == Columns(b)
  {
    FixedMapped(a, b, f);
    if a.values.Some? {
      assert MapText(Columns(a), f) == MapText(Fixed(a), f) + [f(a.values.value)];
    }
  }

  lemma {:induction false} FixedMapped(a: RowData, b: RowData, f: string -> string)
    requires a.(runId := b.runId, side := b.side, function_ := b.function_, file := b.file, values := b.values) == b
    requires b.runId == f(a.runId) && b.side == f(a.side) && b.function_ == f(a.function_) && b.file == f(a.file)
    requires (forall n: nat :: f(Decimal(n)) == Decimal(n)) && (forall h: u64 :: f(HashText(h)) == HashText(h))
    requires f(DeepField(a.deepSeq)) == DeepField(a.deepSeq)
    ensures MapText(Fixed(a), f) == Fixed(b)
  {
    var x, y := Fixed(a), Fixed(b);
    assert x[0] == a.runId && x[1] == a.side && x[4] == a.function_ && x[10] == a.file;
    assert f(x[2]) == y[2] && f(x[3]) == y[3] && f(x[5]) == y[5] && f(x[6]) == y[6] && f(x[7]) == y[7];
    assert f(x[8]) == y[8] && f(x[9]) == y[9] && f(x[11]) == y[11] && f(x[12]) == y[12];
  }

  lemma {:induction false} FilledColumns(d: RowData)
    ensures FillEach(Columns(d.(runId := RUN_ID, side := SIDE)), d) == Columns(Filled(d))
  {
    var blank := d.(runId := RUN_ID, side := SIDE);
    FillNumbers(d);
    FillPlaceholders(d);
    var fill := (s: string) => FillIn(s, d);
    ColumnsMapped(blank, Filled(d), fill);
    FillIsMap(Columns(blank), d, fill);
  }

  lemma {:induction false} FillIsMap(parts: seq<string>, d: RowData, f: string -> string)
    requires forall s :: f(s) == FillIn(s, d)
    ensures FillEach(parts, d) == MapText(parts, f)
  {
  }

  /** The row Rust writes is the row C would write for the filled-in data. */
  lemma {:induction false} RustRowIsFilled(d: RowData)
    ensures RustText(d) == CRow(Filled(d))
  {
    FillLine(Columns(d.(runId := RUN_ID, side := SIDE)), d);
    FilledColumns(d);
  }

  /** No user text spells a placeholder that would be filled in by mistake. A run id may spell its own, and a side
      either. */
  predicate NoPlaceholders(d: RowData) {
    && Free(d.runId, SIDE)
    && Free(d.function_, RUN_ID) && Free(d.function_, SIDE)
    && Free(d.file, RUN_ID) && Free(d.file, SIDE)
    && (d.values.Some? ==> Free(d.values.value, RUN_ID) && Free(d.values.value, SIDE))
  }

  /** Without stray placeholders both recorders write the same text for the same data. */
  lemma {:induction false} SameRows(d: RowData)
    requires NoPlaceholders(d)
    ensures RustText(d) == CRow(d)
  {
    RustRowIsFilled(d);
    ReplaceNothing(d.runId, SIDE, d.side);
    FillKeeps(d.function_, d);
    FillKeeps(d.file, d);
    if d.values.Some? {
      FillKeeps(d.values.value, d);
    }
    assert Filled(d) == d;
  }

  // ----- when the rows are equal: every replacement takes away a brace

  function Count(s: string, c: char): nat {
    if s == "" then 0 else (if s[0] == c then 1 else 0) + Count(s[1..], c)
  }

  lemma {:induction false} CountConcat(a: string, b: string, c: char)
    ensures Count(a + b, c) == Count(a, c) + Count(b, c)
  {
    if a == "" {
      assert a + b == b;
    } else {
      CountConcat(a[1..], b, c);
      assert (a + b)[1..] == a[1..] + b;
    }
  }

  lemma {:induction false} CountNone(s: string, c: char)
    ensures Count(s, c) == 0 <==> Lacks(s, c)
  {
    if s != "" {
      CountNone(s[1..], c);
      assert Lacks(s, c) <==> s[0] != c && Lacks(s[1..], c) by {
        if s[0] != c && Lacks(s[1..], c) {
          forall i | 0 <= i < |s| ensures s[i] != c {
            assert i > 0 ==> s[i] == s[1..][i - 1];
          }
        }
      }
    }
  }

  /** Replacing a pattern by text without one of its characters lowers the count of that character, unless there is
      nothing to replace. */
  lemma {:induction false} ReplaceLowers(s: string, pattern: string, with_: string, c: char)
    requires pattern != "" && pattern[0] == c && Lacks(with_, c)
    ensures Count(Replace(s, pattern, with_), c) <= Count(s, c)
    ensures Count(Replace(s, pattern, with_), c) == Count(s, c) <==> Free(s, pattern)
    decreases |s|
  {
    if s == "" {
    } else if pattern <= s {
      var rest := s[|pattern|..];
      ReplaceLowers(rest, pattern, with_, c);
      CountConcat(with_, Replace(rest, pattern, with_), c);
      CountNone(with_, c);
      assert s == pattern + rest;
      CountConcat(pattern, rest, c);
      assert s[0..] == s;
    } else {
      var rest := s[1..];
      ReplaceLowers(rest, pattern, with_, c);
      assert ([s[0]] + Replace(rest, pattern, with_))[1..] == Replace(rest, pattern, with_);
      FreeTail(s, pattern);
    }
  }

  lemma {:induction false} FreeTail(s: string, pattern: string)
    requires s != "" && !(pattern <= s)
    ensures Free(s, pattern) <==> Free(s[1..], pattern)
  {
    assert s[0..] == s;
    forall i | 0 <= i < |s[1..]| ensures s[1..][i..] == s[i + 1..] {
    }
    if Free(s[1..], pattern) {
      forall i | 0 <= i < |s| ensures !(pattern <= s[i..]) {
        if i > 0 {
          assert s[i..] == s[1..][i - 1..];
        }
      }
    }
    if Free(s, pattern) {
      forall i | 0 <= i < |s[1..]| ensures !(pattern <= s[1..][i..]) {
        assert s[1..][i..] == s[i + 1..];
      }
    }
  }

  /** The texts that fill in the placeholders hold no brace. */
  predicate PlainSetting(d: RowData) {
    Lacks(d.runId, '{') && Lacks(d.side, '{')
  }

  lemma {:induction false} FillLowers(s: string, d: RowData)
    requires PlainSetting(d)
    ensures Count(FillIn(s, d), '{') <= Count(s, '{')
    ensures Count(FillIn(s, d), '{') == Count(s, '{') <==> Free(s, RUN_ID) && Free(s, SIDE)
  {
    var once := Replace(s, RUN_ID, d.runId);
    ReplaceLowers(s, RUN_ID, d.runId, '{');
    ReplaceLowers(once, SIDE, d.side, '{');
    if Free(s, RUN_ID) {
      ReplaceNothing(s, RUN_ID, d.runId);
    }
  }

  function CountAll(parts: seq<string>, c: char): nat {
    if parts == [] then 0 else Count(parts[0], c) + CountAll(parts[1..], c)
  }

  lemma {:induction false} CountJoin(parts: seq<string>, c: char)
    requires c != TAB
    ensures Count(Join(parts, TAB), c) == CountAll(parts, c)
  {
    if |parts| > 1 {
      CountJoin(parts[1..], c);
      CountConcat(parts[0] + [TAB], Join(parts[1..], TAB), c);
      CountConcat(parts[0], [TAB], c);
      assert [TAB][1..] == "";
    } else if |parts| == 1 {
      assert parts[1..] == [];
    }
  }

  lemma {:induction false} CountAllLower(a: seq<string>, b: seq<string>, c: char, i: nat)
    requires |a| == |b| && i < |a| && Count(a[i], c) < Count(b[i], c)
    requires forall j :: 0 <= j < |a| ==> Count(a[j], c) <= Count(b[j], c)
    ensures CountAll(a, c) < CountAll(b, c)
  {
    if i == 0 {
      CountAllAtMost(a[1..], b[1..], c);
    } else {
      CountAllLower(a[1..], b[1..], c, i - 1);
    }
  }

  lemma {:induction false} CountAllAtMost(a: seq<string>, b: seq<string>, c: char)
    requires |a| == |b| && forall j :: 0 <= j < |a| ==> Count(a[j], c) <= Count(b[j], c)
    ensures CountAll(a, c) <= CountAll(b, c)
  {
    if a != [] {
      CountAllAtMost(a[1..], b[1..], c);
    }
  }

  lemma {:induction false} CountRow(d: RowData)
    ensures Count(CRow(d), '{') == CountAll(Columns(d), '{')
  {
    CountJoin(Columns(d), '{');
    CountConcat(LineOf(d), [NEWLINE], '{');
    assert [NEWLINE][1..] == "";
  }

  /** Two rows whose columns differ in one place only towards fewer braces are different. */
  lemma {:induction false} FewerBraces(a: RowData, b: RowData, i: nat)
    requires |Columns(a)| == |Columns(b)| && i < |Columns(a)|
    requires Count(Columns(a)[i], '{') < Count(Columns(b)[i], '{')
    requires forall j :: 0 <= j < |Columns(a)| ==> Count(Columns(a)[j], '{') <= Count(Columns(b)[j], '{')
    ensures CRow(a) != CRow(b)
  {
    CountAllLower(Columns(a), Columns(b), '{', i);
    CountRow(a);
    CountRow(b);
  }

  /** Column by column, the filled-in data has no more braces. */
  lemma {:induction false} FilledLower(d: RowData)
    requires PlainSetting(d)
    ensures var a, b := Columns(Filled(d)), Columns(d);
            |a| == |b| && forall j :: 0 <= j < |a| ==> Count(a[j], '{') <= Count(b[j], '{')
  {
    LacksBrace(d.runId, SIDE);
    ReplaceNothing(d.runId, SIDE, d.side);
    FillLowers(d.function_, d);
    FillLowers(d.file, d);
    if d.values.Some? {
      FillLowers(d.values.value, d);
    }
    LowerByTexts(Filled(d), d);
  }

  lemma {:induction false} LowerByTexts(a: RowData, b: RowData)
    requires a.(function_ := b.function_, file := b.file, values := b.values) == b && (a.values.Some? <==> b.values.Some?)
    requires Count(a.function_, '{') <= Count(b.function_, '{') && Count(a.file, '{') <= Count(b.file, '{')
    requires a.values.Some? ==> Count(a.values.value, '{') <= Count(b.values.value, '{')
    ensures |Columns(a)| == |Columns(b)|
    ensures forall j :: 0 <= j < |Columns(a)| ==> Count(Columns(a)[j], '{') <= Count(Columns(b)[j], '{')
  {
    forall j | 0 <= j < |Columns(a)| ensures Count(Columns(a)[j], '{') <= Count(Columns(b)[j], '{') {
      assert j != 4 && j != 10 && j != 13 ==> Columns(a)[j] == Columns(b)[j];
    }
  }

  /** A column with a placeholder of its own makes the rows differ. */
  lemma {:induction false} StrayAt(d: RowData, i: nat, s: string)
    requires PlainSetting(d) && i < |Columns(d)| && |Columns(Filled(d))| == |Columns(d)|
    requires Columns(d)[i] == s && Columns(Filled(d))[i] == FillIn(s, d)
    requires !Free(s, RUN_ID) || !Free(s, SIDE)
    ensures RustText(d) != CRow(d)
  {
    RustRowIsFilled(d);
    FilledLower(d);
    FillLowers(s, d);
    FewerBraces(Filled(d), d, i);
  }

  lemma {:induction false} StrayFunction(d: RowData)
    requires PlainSetting(d) && (!Free(d.function_, RUN_ID) || !Free(d.function_, SIDE))
    ensures RustText(d) != CRow(d)
  {
    StrayAt(d, 4, d.function_);
  }

  lemma {:induction false} StrayFile(d: RowData)
    requires PlainSetting(d) && (!Free(d.file, RUN_ID) || !Free(d.file, SIDE))
    ensures RustText(d) != CRow(d)
  {
    StrayAt(d, 10, d.file);
  }

  lemma {:induction false} StrayValues(d: RowData)
    requires PlainSetting(d) && d.values.Some? && (!Free(d.values.value, RUN_ID) || !Free(d.values.value, SIDE))
    ensures RustText(d) != CRow(d)
  {
    StrayAt(d, 13, d.values.value);
  }

  /** When run id and side hold no brace, both recorders write the same row exactly when no other text of the row spells
      a placeholder. */
  lemma {:induction false} SameRowsIff(d: RowData)
    requires PlainSetting(d)
    ensures RustText(d) == CRow(d) <==> NoPlaceholders(d)
  {
    LacksBrace(d.runId, SIDE);
    if NoPlaceholders(d) {
      SameRows(d);
    } else if !Free(d.function_, RUN_ID) || !Free(d.function_, SIDE) {
      StrayFunction(d);
    } else if !Free(d.file, RUN_ID) || !Free(d.file, SIDE) {
      StrayFile(d);
    } else {
      StrayValues(d);
    }
  }

  /** A function named like a placeholder makes the rows differ. */
  lemma {:induction false} StrayPlaceholder(d: RowData)
    requires PlainSetting(d) && (d.function_ == RUN_ID || d.function_ == SIDE)
    ensures RustText(d) != CRow(d)
  {
    assert d.function_[0..] == d.function_;
    SameRowsIff(d);
  }

  /** A side that is its own placeholder hides the replacement: the condition on braces is needed. */
  lemma {:induction false} SideHidesReplacement(d: RowData)
    requires d.side == SIDE && d.function_ == SIDE && d.runId == "" && d.file == "" && d.values == None
    ensures RustText(d) == CRow(d) && !NoPlaceholders(d)
  {
    RustRowIsFilled(d);
    FillPlaceholders(d);
    assert Filled(d) == d;
    assert d.function_[0..] == SIDE;
  }
}
