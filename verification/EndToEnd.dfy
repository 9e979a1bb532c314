/** From probe calls to the comparator's exit status: each recorder runs its calls and writes its trace, and the
    comparator reads the two. */
module EndToEnd {
  import opened Bytes
  import opened Probes
  import opened CallSpec
  import opened Agreement
  import R = RustCall
  import opened Compare
  import opened CompareRuns
  import opened Text
  import opened TraceFile
  import opened TraceRead

  /** A finished call: its function and its operations on either side. */
  datatype Probed = Probed(function_: Name, ops: seq<SidedOp>)

  /** What else a row holds: it may differ between two runs of the same call. */
  datatype Setting = Setting(runId: string, side: string, thread: nat, number: nat, elapsed: nat, file: string,
                             line: nat, deepSeq: Option<nat>, values: Option<string>)

  function RowFrom(s: Setting, f: string, r: Report): RowData {
    RowData(s.runId, s.side, s.thread, s.number, f, r.inputHash, r.outputHash, r.inputLen, r.outputLen, s.elapsed,
            s.file, s.line, s.deepSeq, s.values)
  }

  /** What the Rust recorder reports of some calls. The rows hold nothing of the log body, so its number is left at 0. */
  function RustReports(cfg: Config, calls: seq<Probed>): (rs: seq<Report>)
    ensures |rs| == |calls|
  {
    seq(|calls|, i requires 0 <= i < |calls| => RustReport(cfg, calls[i].function_, calls[i].ops, 0))
  }

  function CReports(cfg: Config, calls: seq<Probed>): (rs: seq<Report>)
    ensures |rs| == |calls|
  {
    seq(|calls|, i requires 0 <= i < |calls| => CReport(cfg, calls[i].function_, calls[i].ops, 0))
  }

  /** The names of the functions, as text. */
  function Functions(calls: seq<Probed>, text: Name -> string): (fs: seq<string>)
    ensures |fs| == |calls|
  {
    seq(|calls|, i requires 0 <= i < |calls| => text(calls[i].function_))
  }

  function Rows(settings: seq<Setting>, fs: seq<string>, reports: seq<Report>): (ds: seq<RowData>)
    requires |settings| == |fs| == |reports|
    ensures |ds| == |settings|
  {
    seq(|settings|, i requires 0 <= i < |settings| => RowFrom(settings[i], fs[i], reports[i]))
  }

  /** The trace that the Rust recorder writes of some calls, row after row; nothing is written when the trace is off.
      `text` reads a function name as text. */
  function RustFile(cfg: Config, calls: seq<Probed>, text: Name -> string, settings: seq<Setting>): string
    requires |settings| == |calls|
  {
    if calls == [] then ""
    else
      var n := |calls| - 1;
      var row := RowFrom(settings[n], text(calls[n].function_), RustReport(cfg, calls[n].function_, calls[n].ops, 0));
      RustFile(cfg, calls[..n], text, settings[..n]) + (if cfg.tsv then RustText(row) else "")
  }

  /** The trace that the C recorder writes of some calls. */
  function CFile(cfg: Config, calls: seq<Probed>, text: Name -> string, settings: seq<Setting>): string
    requires |settings| == |calls|
  {
    if calls == [] then ""
    else
      var n := |calls| - 1;
      var row := RowFrom(settings[n], text(calls[n].function_), CReport(cfg, calls[n].function_, calls[n].ops, 0));
      CFile(cfg, calls[..n], text, settings[..n]) + (if cfg.tsv then CRow(row) else "")
  }

  // ----- writing

  predicate AllOpsPortable(calls: seq<Probed>) {
    forall i :: 0 <= i < |calls| ==> R.AllPortable(calls[i].ops)
  }

  lemma {:induction false} RustFilePush(cfg: Config, calls: seq<Probed>, text: Name -> string, settings: seq<Setting>, i: nat)
    requires |settings| == |calls| && i < |calls|
    ensures var row := RowFrom(settings[i], text(calls[i].function_), RustReport(cfg, calls[i].function_, calls[i].ops, 0));
            RustFile(cfg, calls[..i + 1], text, settings[..i + 1])
            == RustFile(cfg, calls[..i], text, settings[..i]) + (if cfg.tsv then RustText(row) else "")
  {
    assert calls[..i + 1][..i] == calls[..i] && settings[..i + 1][..i] == settings[..i];
  }

  method WriteRust(cfg: Config, calls: seq<Probed>, text: Name -> string, settings: seq<Setting>) returns (out: string)
    requires |settings| == |calls| && AllOpsPortable(calls)
    ensures out == RustFile(cfg, calls, text, settings)
  {
    out := "";
    for i := 0 to |calls|
      invariant out == RustFile(cfg, calls[..i], text, settings[..i])
    {
      RustFilePush(cfg, calls, text, settings, i);
      var report := RecordRust(cfg, calls[i].function_, calls[i].ops, 0);
      if cfg.tsv {
        var row := RustRow(RowFrom(settings[i], text(calls[i].function_), report));
        out := out + row;
      }
    }
    assert calls[..|calls|] == calls && settings[..|calls|] == settings;
  }

  lemma {:induction false} CFilePush(cfg: Config, calls: seq<Probed>, text: Name -> string, settings: seq<Setting>, i: nat)
    requires |settings| == |calls| && i < |calls|
    ensures var row := RowFrom(settings[i], text(calls[i].function_), CReport(cfg, calls[i].function_, calls[i].ops, 0));
            CFile(cfg, calls[..i + 1], text, settings[..i + 1])
            == CFile(cfg, calls[..i], text, settings[..i]) + (if cfg.tsv then CRow(row) else "")
  {
    assert calls[..i + 1][..i] == calls[..i] && settings[..i + 1][..i] == settings[..i];
  }

  method WriteC(cfg: Config, calls: seq<Probed>, text: Name -> string, settings: seq<Setting>) returns (out: string)
    requires |settings| == |calls|
    ensures out == CFile(cfg, calls, text, settings)
  {
    out := "";
    for i := 0 to |calls|
      invariant out == CFile(cfg, calls[..i], text, settings[..i])
    {
      CFilePush(cfg, calls, text, settings, i);
      var report := RecordC(cfg, calls[i].function_, calls[i].ops, 0);
      if cfg.tsv {
        out := out + CRow(RowFrom(settings[i], text(calls[i].function_), report));
      }
    }
    assert calls[..|calls|] == calls && settings[..|calls|] == settings;
  }

  // ----- reading

  /** The texts of a row are free of column and line separators and of placeholders. */
  predicate Tidy(s: Setting, f: string) {
    var d := RowFrom(s, f, Report(0, 0, 0, 0, []));
    Clean(d) && NoPlaceholders(d)
  }

  predicate AllTidy(settings: seq<Setting>, fs: seq<string>)
    requires |settings| == |fs|
  {
    forall i :: 0 <= i < |fs| ==> Tidy(settings[i], fs[i])
  }

  lemma {:induction false} StaysTidy(s: Setting, f: string, r: Report)
    requires Tidy(s, f)
    ensures Clean(RowFrom(s, f, r)) && NoPlaceholders(RowFrom(s, f, r))
  {
  }

  /** The row of a report, column by column: its hashes and lengths stand between what the setting gives. */
  lemma {:induction false} RowOfReport(s: Setting, f: string, r: Report)
    requires Tidy(s, f)
    ensures RustText(RowFrom(s, f, r)) == CRow(RowFrom(s, f, r)) == Join(
      [s.runId, s.side, Decimal(s.thread), Decimal(s.number), f, HashText(r.inputHash), HashText(r.outputHash),
       Decimal(r.inputLen), Decimal(r.outputLen), Decimal(s.elapsed), s.file, Decimal(s.line),
       if s.deepSeq.None? then "-" else Decimal(s.deepSeq.value)]
      + (if s.values.None? then [] else [s.values.value]), '\t') + "\n"
  {
    StaysTidy(s, f, r);
    SameRows(RowFrom(s, f, r));
    RowIs(RowFrom(s, f, r));
  }

  lemma {:induction false} RowsAreClean(settings: seq<Setting>, fs: seq<string>, reports: seq<Report>)
    requires |settings| == |fs| == |reports| && AllTidy(settings, fs)
    ensures AllClean(Rows(settings, fs, reports))
  {
    forall i | 0 <= i < |fs| ensures Clean(Rows(settings, fs, reports)[i]) {
      StaysTidy(settings[i], fs[i], reports[i]);
    }
  }

  lemma {:induction false} RowsPush(settings: seq<Setting>, fs: seq<string>, reports: seq<Report>)
    requires |settings| == |fs| == |reports| && settings != []
    ensures var n := |settings| - 1;
            Rows(settings, fs, reports)
            == Rows(settings[..n], fs[..n], reports[..n]) + [RowFrom(settings[n], fs[n], reports[n])]
  {
  }

  /** The rows of a run, and one row more. */
  function RustRows(cfg: Config, calls: seq<Probed>, text: Name -> string, settings: seq<Setting>): (ds: seq<RowData>)
    requires |settings| == |calls|
  {
    Rows(settings, Functions(calls, text), RustReports(cfg, calls))
  }

  function CRows(cfg: Config, calls: seq<Probed>, text: Name -> string, settings: seq<Setting>): (ds: seq<RowData>)
    requires |settings| == |calls|
  {
    Rows(settings, Functions(calls, text), CReports(cfg, calls))
  }

  lemma {:induction false} RunPush(cfg: Config, calls: seq<Probed>, text: Name -> string, settings: seq<Setting>)
    requires |settings| == |calls| && calls != []
    ensures var n := |calls| - 1;
            var call, f := calls[n], text(calls[n].function_);
            && RustRows(cfg, calls, text, settings) == RustRows(cfg, calls[..n], text, settings[..n])
               + [RowFrom(settings[n], f, RustReport(cfg, call.function_, call.ops, 0))]
            && CRows(cfg, calls, text, settings) == CRows(cfg, calls[..n], text, settings[..n])
               + [RowFrom(settings[n], f, CReport(cfg, call.function_, call.ops, 0))]
  {
    var n, fs := |calls| - 1, Functions(calls, text);
    assert Functions(calls[..n], text) == fs[..n];
    assert RustReports(cfg, calls[..n]) == RustReports(cfg, calls)[..n];
    assert CReports(cfg, calls[..n]) == CReports(cfg, calls)[..n];
    RowsPush(settings, fs, RustReports(cfg, calls));
    RowsPush(settings, fs, CReports(cfg, calls));
  }

  lemma {:induction false} LastRow(ds: seq<RowData>, setting: Setting, f: string, report: Report)
    requires Tidy(setting, f)
    ensures FileText(ds + [RowFrom(setting, f, report)]) == FileText(ds) + RustText(RowFrom(setting, f, report))
  {
    StaysTidy(setting, f, report);
    SameRows(RowFrom(setting, f, report));
    FileGrows(ds, RowFrom(setting, f, report));
  }

  lemma {:induction false} NoRows()
    ensures FileText([]) == ""
  {
    assert LinesOf([]) == [];
  }

  /** Without stray placeholders the Rust file is made of the rows that C would write. */
  lemma {:induction false} RustFileIsRows(cfg: Config, calls: seq<Probed>, text: Name -> string, settings: seq<Setting>)
    requires |settings| == |calls| && AllTidy(settings, Functions(calls, text)) && cfg.tsv
    ensures RustFile(cfg, calls, text, settings) == FileText(RustRows(cfg, calls, text, settings))
  {
    NoRows();
    if calls != [] {
      var n := |calls| - 1;
      var call, f := calls[n], text(calls[n].function_);
      TidyFront(settings, calls, text);
      RustFileIsRows(cfg, calls[..n], text, settings[..n]);
      RunPush(cfg, calls, text, settings);
      LastRow(RustRows(cfg, calls[..n], text, settings[..n]), settings[n], f,
              RustReport(cfg, call.function_, call.ops, 0));
    }
  }

  lemma {:induction false} TidyFront(settings: seq<Setting>, calls: seq<Probed>, text: Name -> string)
    requires |settings| == |calls| && calls != [] && AllTidy(settings, Functions(calls, text))
    ensures var n := |calls| - 1;
            AllTidy(settings[..n], Functions(calls[..n], text)) && Tidy(settings[n], text(calls[n].function_))
  {
    var n, fs := |calls| - 1, Functions(calls, text);
    assert fs[n] == text(calls[n].function_);
    assert Functions(calls[..n], text) == fs[..n];
  }

  lemma {:induction false} CFileIsRows(cfg: Config, calls: seq<Probed>, text: Name -> string, settings: seq<Setting>)
    requires |settings| == |calls| && cfg.tsv
    ensures CFile(cfg, calls, text, settings) == FileText(CRows(cfg, calls, text, settings))
  {
    NoRows();
    if calls != [] {
      var n := |calls| - 1;
      var call, f := calls[n], text(calls[n].function_);
      CFileIsRows(cfg, calls[..n], text, settings[..n]);
      RunPush(cfg, calls, text, settings);
      FileGrows(CRows(cfg, calls[..n], text, settings[..n]),
                RowFrom(settings[n], f, CReport(cfg, call.function_, call.ops, 0)));
    }
  }

  /** With the trace off neither recorder writes a row. */
  lemma {:induction false} NothingWritten(cfg: Config, calls: seq<Probed>, text: Name -> string, settings: seq<Setting>)
    requires |settings| == |calls| && !cfg.tsv
    ensures RustFile(cfg, calls, text, settings) == CFile(cfg, calls, text, settings) == ""
  {
    if calls != [] {
      NothingWritten(cfg, calls[..|calls| - 1], text, settings[..|calls| - 1]);
    }
  }

  /** What the comparator sees of a call: function, input hash and output hash. */
  function Items(fs: seq<string>, reports: seq<Report>): (items: seq<Item>)
    requires |fs| == |reports|
    ensures |items| == |fs|
  {
    seq(|fs|, i requires 0 <= i < |fs| =>
      Item(Key(fs[i], HashText(reports[i].inputHash)), HashText(reports[i].outputHash)))
  }

  lemma {:induction false} ItemsOfRows(settings: seq<Setting>, fs: seq<string>, reports: seq<Report>)
    requires |settings| == |fs| == |reports|
    ensures Strip(ToRows(Rows(settings, fs, reports))) == Items(fs, reports)
  {
  }

  lemma {:induction false} ReportsEqual(cfg: Config, calls: seq<Probed>)
    ensures RustReports(cfg, calls) == CReports(cfg, calls)
  {
    forall i | 0 <= i < |calls| ensures RustReports(cfg, calls)[i] == CReports(cfg, calls)[i] {
      ReportsAgree(cfg, calls[i].function_, calls[i].ops, 0);
    }
  }

  /** The items of some calls, whichever recorder ran them. */
  function CallItems(cfg: Config, calls: seq<Probed>, text: Name -> string): seq<Item> {
    Items(Functions(calls, text), RustReports(cfg, calls))
  }

  lemma {:induction false} FileHoldsItems(settings: seq<Setting>, fs: seq<string>, reports: seq<Report>)
    requires |settings| == |fs| == |reports| && AllTidy(settings, fs)
    ensures Strip(RowsOfLines(Lines(FileText(Rows(settings, fs, reports))))) == Items(fs, reports)
  {
    RowsAreClean(settings, fs, reports);
    FileRoundTrip(Rows(settings, fs, reports));
    ItemsOfRows(settings, fs, reports);
  }

  /** What the comparator reads of the two files. */
  function RustRead(cfg: Config, calls: seq<Probed>, text: Name -> string, settings: seq<Setting>): seq<Row>
    requires |settings| == |calls|
  {
    RowsOfLines(Lines(RustFile(cfg, calls, text, settings)))
  }

  function CRead(cfg: Config, calls: seq<Probed>, text: Name -> string, settings: seq<Setting>): seq<Row>
    requires |settings| == |calls|
  {
    RowsOfLines(Lines(CFile(cfg, calls, text, settings)))
  }

  /** The items in the rows that the comparator reads. */
  lemma {:induction false} FileItems(cfg: Config, text: Name -> string, calls: seq<Probed>, settings: seq<Setting>)
    requires |settings| == |calls| && AllTidy(settings, Functions(calls, text)) && cfg.tsv
    ensures Strip(RustRead(cfg, calls, text, settings)) == CallItems(cfg, calls, text)
    ensures Strip(CRead(cfg, calls, text, settings)) == CallItems(cfg, calls, text)
  {
    RustFileIsRows(cfg, calls, text, settings);
    CFileIsRows(cfg, calls, text, settings);
    FileHoldsItems(settings, Functions(calls, text), RustReports(cfg, calls));
    FileHoldsItems(settings, Functions(calls, text), CReports(cfg, calls));
    ReportsEqual(cfg, calls);
  }

  /** A run of some calls recorded by Rust and a run of other calls recorded by C, with the trace on: the comparator
      finds no difference between the two files exactly when the second run makes calls with the functions, input hashes
      and output hashes of the first, reordered only between different functions or input hashes. Run ids, sides,
      threads, clocks, source positions, log references and values columns do not matter. */
  lemma {:induction false} FilesMatchIffReordered(cfg: Config, text: Name -> string, calls: seq<Probed>,
                                                  rust: seq<Setting>, others: seq<Probed>, c: seq<Setting>)
    requires |rust| == |calls| && |c| == |others|
    requires AllTidy(rust, Functions(calls, text)) && AllTidy(c, Functions(others, text))
    ensures Total(RustRead(cfg, calls, text, rust), CRead(cfg, others, text, c)) == 0
       <==> !cfg.tsv || Reachable(CallItems(cfg, calls, text), CallItems(cfg, others, text))
  {
    if cfg.tsv {
      FileItems(cfg, text, calls, rust);
      FileItems(cfg, text, others, c);
      ZeroIffReachable(RustRead(cfg, calls, text, rust), CRead(cfg, others, text, c));
    } else {
      NothingWritten(cfg, calls, text, rust);
      NothingWritten(cfg, others, text, c);
      SelfMatch(RowsOfLines(Lines("")));
    }
  }

  lemma {:induction false} SelfMatch(rows: seq<Row>)
    ensures Total(rows, rows) == 0
  {
    ReachesItself(Strip(rows));
    ZeroIffReachable(rows, rows);
  }

  /** The same calls in the same order match, whatever the filters. */
  lemma {:induction false} SameProgramsMatch(cfg: Config, text: Name -> string, calls: seq<Probed>, rust: seq<Setting>,
                                             c: seq<Setting>, only: set<string>, skip: set<string>)
    requires |rust| == |c| == |calls|
    requires AllTidy(rust, Functions(calls, text)) && AllTidy(c, Functions(calls, text))
    ensures Total(Kept(RustRead(cfg, calls, text, rust), only, skip), Kept(CRead(cfg, calls, text, c), only, skip)) == 0
  {
    FilesMatchIffReordered(cfg, text, calls, rust, calls, c);
    ReachesItself(CallItems(cfg, calls, text));
    FilterKeepsMatch(RustRead(cfg, calls, text, rust), CRead(cfg, calls, text, c), only, skip);
  }

  lemma {:induction false} ReachesItself(items: seq<Item>)
    ensures Reachable(items, items)
  {
    assert Leads([items], items, items);
  }

  /** Both runs, their files, and the comparator's exit status on them. */
  method RunAndCompare(cfg: Config, text: Name -> string, calls: seq<Probed>, rust: seq<Setting>, others: seq<Probed>,
                       c: seq<Setting>, only: set<string>, skip: set<string>, firstLimit: nat, summaryOnly: bool)
    returns (rustText: string, cText: string, status: int)
    requires |rust| == |calls| && |c| == |others| && AllOpsPortable(calls)
    requires AllTidy(rust, Functions(calls, text)) && AllTidy(c, Functions(others, text))
    ensures rustText == RustFile(cfg, calls, text, rust) && cText == CFile(cfg, others, text, c)
    ensures status == 0 || status == 1
    ensures status == 0
       <==> Total(Kept(RowsOfLines(Lines(rustText)), only, skip), Kept(RowsOfLines(Lines(cText)), only, skip)) == 0
    ensures !cfg.tsv || Reachable(CallItems(cfg, calls, text), CallItems(cfg, others, text)) ==> status == 0
    ensures only == {} && skip == {} ==>
      (status == 0 <==> !cfg.tsv || Reachable(CallItems(cfg, calls, text), CallItems(cfg, others, text)))
  {
    rustText := WriteRust(cfg, calls, text, rust);
    cText := WriteC(cfg, others, text, c);
    var left := ReadRows(rustText);
    var right := ReadRows(cText);
    FilesMatchIffReordered(cfg, text, calls, rust, others, c);
    if Total(left, right) == 0 {
      FilterKeepsMatch(left, right, only, skip);
    }
    KeepsAll(left);
    KeepsAll(right);
    status := ExitStatus(left, right, only, skip, firstLimit, summaryOnly);
  }

  lemma {:induction false} KeepsAll(rows: seq<Row>)
    ensures Kept(rows, {}, {}) == rows
  {
    if rows != [] {
      KeepsAll(rows[..|rows| - 1]);
    }
  }
}
