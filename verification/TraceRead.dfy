/** The comparator's reader, and what comparing two written traces says about the calls. */
module TraceRead {
  import opened Bytes
  import opened Text
  import opened Compare
  import opened CompareRuns
  import opened TraceFile

  // ----- lines

  /** Unicode white space, as `trim` sees it. */
  predicate IsWhite(c: char) {
    || '\t' <= c <= '\r' || c == ' ' || c == '\U{85}' || c == '\U{A0}' || c == '\U{1680}'
    || '\U{2000}' <= c <= '\U{200A}' || c == '\U{2028}' || c == '\U{2029}' || c == '\U{202F}' || c == '\U{205F}'
    || c == '\U{3000}'
  }

  predicate IsBlank(s: string) {
    forall i :: 0 <= i < |s| ==> IsWhite(s[i])
  }

  predicate EndsInReturn(s: string) {
    s != "" && s[|s| - 1] == '\r'
  }

  function StripReturn(s: string): string {
    if EndsInReturn(s) then s[..|s| - 1] else s
  }

  /** `BufRead::lines`: the line ending is dropped, with a carriage return before it. */
  function Lines(text: string): seq<string>
    decreases |text|
  {
    if text == "" then []
    else
      var n := Find(text, NEWLINE);
      if n == |text| then [text] else [StripReturn(text[..n])] + Lines(text[n + 1..])
  }

  // ----- one line

  /** A `deep_seq` column: a dash or decimal digits. */
  predicate IsDeepField(s: string) {
    s == "-" || (s != "" && AllDigits(s))
  }

  /** The values column, when the row has one. */
  function ValuesOf(cols: seq<string>): Option<string>
    requires |cols| >= 12
  {
    if |cols| == 12 then None
    else if |cols| == 13 then (if IsDeepField(cols[12]) then None else Some(cols[12]))
    else Some(cols[13])
  }

  /** The row of a line; blank and short lines are skipped. */
  function ReadLine(line: string): Option<Row> {
    if IsBlank(line) then None
    else
      var cols := Split(line, TAB);
      if |cols| < 12 then None else Some(Row(cols[4], cols[5], cols[6], ValuesOf(cols)))
  }

  function RowsOfLines(lines: seq<string>): seq<Row> {
    if lines == [] then []
    else
      RowsOfLines(lines[..|lines| - 1])
      + match ReadLine(lines[|lines| - 1]) case None => [] case Some(row) => [row]
  }

  method ReadRows(text: string) returns (rows: seq<Row>)
    ensures rows == RowsOfLines(Lines(text))
  {
    rows := [];
    var lines := Lines(text);
    for i := 0 to |lines|
      invariant rows == RowsOfLines(lines[..i])
    {
      assert lines[..i + 1][..i] == lines[..i];
      var line := lines[i];
      if IsBlank(line) {
        continue;
      }
      var cols := Split(line, TAB);
      if |cols| < 12 {
        continue;
      }
      var values := match |cols|
        case 12 => None
        case 13 => if IsDeepField(cols[12]) then None else Some(cols[12])
        case _ => Some(cols[13]);
      rows := rows + [Row(cols[4], cols[5], cols[6], values)];
    }
    assert lines[..|lines|] == lines;
  }

  // ----- reading what was written

  /** The user texts hold no tab or line feed, and the last column does not end in a carriage return. */
  predicate Clean(d: RowData) {
    && AllLack([d.runId, d.side, d.function_, d.file], TAB) && AllLack([d.runId, d.side, d.function_, d.file], NEWLINE)
    && (d.values.Some? ==>
          Lacks(d.values.value, TAB) && Lacks(d.values.value, NEWLINE) && !EndsInReturn(d.values.value))
  }

  /** The row the comparator should see. */
  function ToRow(d: RowData): Row {
    Row(d.function_, HashText(d.inputHash), HashText(d.outputHash), d.values)
  }

  lemma {:induction false} JoinLacks(parts: seq<string>, c: char)
    requires AllLack(parts, c) && c != TAB
    ensures Lacks(Join(parts, TAB), c)
  {
    if |parts| > 1 {
      JoinLacks(parts[1..], c);
    }
  }

  lemma {:induction false} JoinEnd(parts: seq<string>)
    requires parts != [] && parts[|parts| - 1] != "" && !EndsInReturn(parts[|parts| - 1])
    ensures !EndsInReturn(Join(parts, TAB)) && Join(parts, TAB) != ""
  {
    if |parts| > 1 {
      JoinEnd(parts[1..]);
    }
  }

  lemma {:induction false} JoinEndEmpty(parts: seq<string>)
    requires |parts| > 1 && parts[|parts| - 1] == ""
    ensures !EndsInReturn(Join(parts, TAB))
  {
    if |parts| > 2 {
      JoinEndEmpty(parts[1..]);
      assert Join(parts[1..], TAB) != "";
    } else {
      assert parts[1..] == [""];
    }
  }

  lemma {:induction false} JoinNotBlank(parts: seq<string>, i: nat)
    requires i < |parts| && !IsBlank(parts[i])
    ensures !IsBlank(Join(parts, TAB))
  {
    if i == 0 {
      var j :| 0 <= j < |parts[0]| && !IsWhite(parts[0][j]);
      assert Join(parts, TAB)[j] == parts[0][j];
    } else {
      JoinNotBlank(parts[1..], i - 1);
      var rest := Join(parts[1..], TAB);
      var j :| 0 <= j < |rest| && !IsWhite(rest[j]);
      assert Join(parts, TAB)[|parts[0]| + 1 + j] == rest[j];
    }
  }

  lemma {:induction false} HashNotBlank(h: u64)
    ensures !IsBlank(HashText(h))
  {
    var s := HashText(h);
    HexCharsAreDark(h % 16);
    assert s[15] == HexDigit(h % 16);
  }

  lemma {:induction false} HexCharsAreDark(d: nat)
    requires d < 16
    ensures !IsWhite(HexDigit(d))
  {
    assert HexChars() == "0123456789abcdef";
  }

  lemma {:induction false} DeepFieldShape(deepSeq: Option<nat>)
    ensures IsDeepField(DeepField(deepSeq)) && !EndsInReturn(DeepField(deepSeq)) && DeepField(deepSeq) != ""
  {
    var s := DeepField(deepSeq);
    assert deepSeq.Some? ==> IsDigit(s[|s| - 1]);
  }

  /** The characters that make a line blank: those of the White_Space property. */
  lemma {:induction false} BlankIs(s: string)
    ensures IsBlank(s) <==> forall i :: 0 <= i < |s| ==>
      var c := s[i] as int;
      || 9 <= c <= 13 || c == 0x20 || c == 0x85 || c == 0xA0 || c == 0x1680 || 0x2000 <= c <= 0x200A
      || c == 0x2028 || c == 0x2029 || c == 0x202F || c == 0x205F || c == 0x3000
  {
  }

  /** What is read of a line, by its columns: function, input hash and output hash are the fifth, sixth and seventh; with
      twelve columns there are no values, with thirteen the last one is values unless it is a dash or all digits, and
      with more the fourteenth one is. */
  lemma {:induction false} LineIs(cols: seq<string>)
    requires cols != [] && AllLack(cols, '\t')
    ensures ReadLine(Join(cols, '\t')) ==
      if IsBlank(Join(cols, '\t')) || |cols| < 12 then None
      else Some(Row(cols[4], cols[5], cols[6],
        if |cols| == 12 then None
        else if |cols| == 13 then
          (if cols[12] == "-" || (cols[12] != "" && AllDigits(cols[12])) then None else Some(cols[12]))
        else Some(cols[13])))
  {
    SplitOfJoin(cols, TAB);
  }

  /** A written row reads back as its function, hashes and values, with or without the values column. */
  lemma {:induction false} ReadWrittenLine(d: RowData)
    requires Clean(d)
    ensures ReadLine(LineOf(d)) == Some(ToRow(d))
  {
    var cols := Columns(d);
    ColumnsLack(d, TAB);
    SplitOfJoin(cols, TAB);
    HashNotBlank(d.inputHash);
    assert cols[5] == HashText(d.inputHash);
    JoinNotBlank(cols, 5);
    DeepFieldShape(d.deepSeq);
    assert cols[12] == DeepField(d.deepSeq);
  }

  lemma {:induction false} RowEnds(d: RowData)
    requires Clean(d)
    ensures IsLine(LineOf(d))
  {
    var cols := Columns(d);
    ColumnsLack(d, NEWLINE);
    JoinLacks(cols, NEWLINE);
    DeepFieldShape(d.deepSeq);
    if cols[|cols| - 1] == "" {
      JoinEndEmpty(cols);
    } else {
      JoinEnd(cols);
    }
  }

  function LinesOf(ds: seq<RowData>): (lines: seq<string>)
    ensures |lines| == |ds|
  {
    seq(|ds|, i requires 0 <= i < |ds| => LineOf(ds[i]))
  }

  function Unlines(lines: seq<string>): string {
    if lines == [] then "" else Unlines(lines[..|lines| - 1]) + (lines[|lines| - 1] + [NEWLINE])
  }

  /** The file after some rows have been written to it. */
  function FileText(ds: seq<RowData>): string {
    Unlines(LinesOf(ds))
  }

  lemma {:induction false} FileGrows(ds: seq<RowData>, d: RowData)
    ensures FileText(ds + [d]) == FileText(ds) + CRow(d)
  {
    assert LinesOf(ds + [d]) == LinesOf(ds) + [LineOf(d)];
    assert (LinesOf(ds) + [LineOf(d)])[..|ds|] == LinesOf(ds);
  }

  function ToRows(ds: seq<RowData>): (rows: seq<Row>)
    ensures |rows| == |ds|
  {
    seq(|ds|, i requires 0 <= i < |ds| => ToRow(ds[i]))
  }

  predicate AllClean(ds: seq<RowData>) {
    forall i :: 0 <= i < |ds| ==> Clean(ds[i])
  }

  predicate IsLine(line: string) {
    Lacks(line, NEWLINE) && !EndsInReturn(line)
  }

  lemma {:induction false} FirstLine(line: string, rest: string)
    requires IsLine(line)
    ensures Lines(line + [NEWLINE] + rest) == [line] + Lines(rest)
  {
    var text := line + [NEWLINE] + rest;
    FindAt(line, NEWLINE, rest);
    assert text[..|line|] == line && text[|line| + 1..] == rest;
  }

  /** A line ends at a line feed, and a carriage return before it is not part of the line; a last line may lack its
      line feed. */
  lemma {:induction false} LineEnds(line: string, rest: string)
    requires Lacks(line, '\n')
    ensures Lines(line + "\r\n" + rest) == [line] + Lines(rest)
    ensures line == "" || line[|line| - 1] != '\r' ==> Lines(line + "\n" + rest) == [line] + Lines(rest)
    ensures line != "" ==> Lines(line) == [line]
    ensures Lines("") == []
  {
    var ended := line + ['\r'];
    var text := ended + [NEWLINE] + rest;
    assert line + "\r\n" + rest == text && line + "\n" + rest == line + [NEWLINE] + rest;
    FindAt(ended, NEWLINE, rest);
    assert text[..|ended|] == ended && text[|ended| + 1..] == rest && ended[..|ended| - 1] == line;
    if !EndsInReturn(line) {
      FirstLine(line, rest);
    }
    FindAt(line, NEWLINE, "");
  }

  lemma {:induction false} UnlinesConcat(lines: seq<string>, rest: string)
    requires forall i :: 0 <= i < |lines| ==> IsLine(lines[i])
    ensures Lines(Unlines(lines) + rest) == lines + Lines(rest)
    decreases |lines|
  {
    if lines == [] {
      assert Unlines(lines) + rest == rest;
    } else {
      var n, last := |lines| - 1, lines[|lines| - 1];
      UnlinesShape(lines, rest);
      UnlinesConcat(lines[..n], last + [NEWLINE] + rest);
      FirstLine(last, rest);
      Regroup(lines, Lines(rest));
    }
  }

  lemma {:induction false} UnlinesShape(lines: seq<string>, rest: string)
    requires lines != []
    ensures Unlines(lines) + rest == Unlines(lines[..|lines| - 1]) + (lines[|lines| - 1] + [NEWLINE] + rest)
  {
  }

  lemma {:induction false} Regroup(lines: seq<string>, more: seq<string>)
    requires lines != []
    ensures lines[..|lines| - 1] + ([lines[|lines| - 1]] + more) == lines + more
  {
  }

  lemma {:induction false} RowsOfAll(lines: seq<string>, rows: seq<Row>)
    requires |lines| == |rows| && forall i :: 0 <= i < |lines| ==> ReadLine(lines[i]) == Some(rows[i])
    ensures RowsOfLines(lines) == rows
  {
    if lines != [] {
      var n := |lines| - 1;
      RowsOfAll(lines[..n], rows[..n]);
      assert rows == rows[..n] + [rows[n]];
    }
  }

  /** A trace file reads back as the rows written to it, in order. */
  lemma {:induction false} FileRoundTrip(ds: seq<RowData>)
    requires AllClean(ds)
    ensures RowsOfLines(Lines(FileText(ds))) == ToRows(ds)
  {
    var lines := LinesOf(ds);
    forall i | 0 <= i < |ds| ensures IsLine(lines[i]) && ReadLine(lines[i]) == Some(ToRows(ds)[i]) {
      RowEnds(ds[i]);
      ReadWrittenLine(ds[i]);
    }
    UnlinesConcat(lines, "");
    assert Unlines(lines) + "" == Unlines(lines) && lines + [] == lines;
    RowsOfAll(lines, ToRows(ds));
  }

  // ----- the thirteenth column

  /** A row of the older layout, with a values column and no `deep_seq`, keeps its values unless they look like a
      `deep_seq`. */
  lemma {:induction false} LegacyValues(cols: seq<string>)
    requires |cols| == 13 && AllLack(cols, TAB) && !IsBlank(Join(cols, TAB))
    ensures ReadLine(Join(cols, TAB)) == Some(Row(cols[4], cols[5], cols[6], Some(cols[12])))
       <==> cols[12] == "" || (cols[12] != "-" && exists i :: 0 <= i < |cols[12]| && !IsDigit(cols[12][i]))
  {
    SplitOfJoin(cols, TAB);
  }

  /** The text of the values column: `label=value` items. */
  function ValuesText(items: seq<(string, string)>): string {
    if items == [] then ""
    else if |items| == 1 then items[0].0 + "=" + items[0].1
    else ValuesText(items[..|items| - 1]) + ";" + items[|items| - 1].0 + "=" + items[|items| - 1].1
  }

  /** Such a text is never taken for a `deep_seq`, and a `deep_seq` never for such a text. */
  lemma {:induction false} ValuesAreNoDeepField(items: seq<(string, string)>, deepSeq: Option<nat>)
    ensures !IsDeepField(ValuesText(items)) && IsDeepField(DeepField(deepSeq))
  {
    DeepFieldShape(deepSeq);
    if items != [] {
      var last := items[|items| - 1];
      var front := (if |items| == 1 then "" else ValuesText(items[..|items| - 1]) + ";") + last.0;
      assert ValuesText(items) == front + "=" + last.1;
      assert ValuesText(items)[|front|] == '=';
      assert !IsDigit('=');
    }
  }

  // ----- what a comparison of two files means for the calls

  /** The output hashes of the calls of one function with one input hash, in order. */
  function OutputsAt(ds: seq<RowData>, f: string, input: u64): seq<u64> {
    if ds == [] then []
    else
      var last := ds[|ds| - 1];
      OutputsAt(ds[..|ds| - 1], f, input)
      + (if last.function_ == f && last.inputHash == input then [last.outputHash] else [])
  }

  function Texts(hashes: seq<u64>): (r: seq<string>)
    ensures |r| == |hashes|
  {
    seq(|hashes|, i requires 0 <= i < |hashes| => HashText(hashes[i]))
  }

  lemma {:induction false} TextsInjective(a: seq<u64>, b: seq<u64>)
    requires Texts(a) == Texts(b)
    ensures a == b
  {
    assert |Texts(a)| == |Texts(b)|;
    forall i | 0 <= i < |a| ensures a[i] == b[i] {
      assert Texts(a)[i] == HashText(a[i]) && Texts(b)[i] == HashText(b[i]);
      HashTextInjective(a[i], b[i]);
    }
  }

  lemma {:induction false} OutputsOfRows(ds: seq<RowData>, f: string, input: u64)
    ensures Outputs(ToRows(ds), Key(f, HashText(input))) == Texts(OutputsAt(ds, f, input))
  {
    if ds != [] {
      var n, last := |ds| - 1, ds[|ds| - 1];
      OutputsOfRows(ds[..n], f, input);
      assert ToRows(ds)[..n] == ToRows(ds[..n]);
      if last.inputHash != input && HashText(last.inputHash) == HashText(input) {
        HashTextInjective(last.inputHash, input);
      }
    }
  }

  lemma {:induction false} ForeignKey(ds: seq<RowData>, k: Key)
    requires forall h: u64 :: HashText(h) != k.inputHash
    ensures Outputs(ToRows(ds), k) == []
  {
    if ds != [] {
      var n := |ds| - 1;
      ForeignKey(ds[..n], k);
      assert ToRows(ds)[..n] == ToRows(ds[..n]);
      assert HashText(ds[n].inputHash) != k.inputHash;
    }
  }

  lemma {:induction false} KeyMatchIff(left: seq<RowData>, right: seq<RowData>, f: string, input: u64)
    ensures Outputs(ToRows(left), Key(f, HashText(input))) == Outputs(ToRows(right), Key(f, HashText(input)))
       <==> OutputsAt(left, f, input) == OutputsAt(right, f, input)
  {
    OutputsOfRows(left, f, input);
    OutputsOfRows(right, f, input);
    if Texts(OutputsAt(left, f, input)) == Texts(OutputsAt(right, f, input)) {
      TextsInjective(OutputsAt(left, f, input), OutputsAt(right, f, input));
    }
  }

  ghost predicate SameOutputs(left: seq<RowData>, right: seq<RowData>) {
    forall f: string, input: u64 :: OutputsAt(left, f, input) == OutputsAt(right, f, input)
  }

  lemma {:induction false} AgreeAt(left: seq<RowData>, right: seq<RowData>, k: Key)
    requires SameOutputs(left, right)
    ensures Outputs(ToRows(left), k) == Outputs(ToRows(right), k)
  {
    if input: u64 :| HashText(input) == k.inputHash {
      assert k == Key(k.function_, HashText(input));
      KeyMatchIff(left, right, k.function_, input);
    } else {
      ForeignKey(left, k);
      ForeignKey(right, k);
    }
  }

  lemma {:induction false} RowsMatchIff(left: seq<RowData>, right: seq<RowData>)
    ensures Total(ToRows(left), ToRows(right)) == 0 <==> SameOutputs(left, right)
  {
    ZeroIffAgree(ToRows(left), ToRows(right));
    if SameOutputs(left, right) {
      forall k: Key ensures Outputs(ToRows(left), k) == Outputs(ToRows(right), k) {
        AgreeAt(left, right, k);
      }
    }
    if Agree(ToRows(left), ToRows(right)) {
      forall f: string, input: u64 ensures OutputsAt(left, f, input) == OutputsAt(right, f, input) {
        KeyMatchIff(left, right, f, input);
      }
    }
  }

  /** Comparing two written traces finds nothing exactly when, for every function and input hash, the same output
      hashes come in the same order. */
  lemma {:induction false} FilesMatchIff(left: seq<RowData>, right: seq<RowData>)
    requires AllClean(left) && AllClean(right)
    ensures Total(RowsOfLines(Lines(FileText(left))), RowsOfLines(Lines(FileText(right)))) == 0
       <==> SameOutputs(left, right)
  {
    FileRoundTrip(left);
    FileRoundTrip(right);
    RowsMatchIff(left, right);
  }
}
