/** The text form of a sampling policy, its two parsers and its printer. */
module PolicyText {
  import opened Bytes
  import opened Text
  import opened Sampling
  import opened CLog

  datatype Parsed =
    | Good(policy: SamplePolicy)
    | Empty
    | UnknownMode(mode: string)
    | Malformed(text: string)
    | BadInt
    | BadFloat

  /** Rust's `parse` to an unsigned integer below `limit`: an optional plus sign, then digits only. */
  function ParseUnsigned(s: string, limit: nat): Option<nat> {
    var d := if s != "" && s[0] == '+' then s[1..] else s;
    if d == "" || !AllDigits(d) || FromDecimal(d) >= limit then None else Some(FromDecimal(d))
  }

  /** `split_once`. */
  function SplitOnce(s: string, c: char): Option<(string, string)> {
    var n := Find(s, c);
    if n == |s| then None else Some((s[..n], s[n + 1..]))
  }

  // ----- the Rust parser; `parseF` and `printF` stand for the float conversions, on bit patterns

  /** One `key=value` part of a `prob:` policy. */
  datatype Setting = SetFirst(n: nat) | SetLast(keep: bool) | Bad(error: Parsed)

  function SettingOf(kv: string): (r: Setting)
    ensures r.Bad? ==> !r.error.Good?
  {
    match SplitOnce(kv, '=')
    case None => Bad(Malformed(kv))
    case Some((k, v)) =>
      if k == "first" then
        match ParseUnsigned(v, TWO64)
        case None => Bad(BadInt)
        case Some(n) => SetFirst(n)
      else if k == "last" then
        match ParseUnsigned(v, TWO32)
        case None => Bad(BadInt)
        case Some(n) => SetLast(n != 0)
      else Bad(Malformed(kv))
  }

  /** The first part that is no setting. */
  function FirstBad(kvs: seq<string>): (r: Option<Parsed>)
    ensures r.Some? ==> !r.value.Good?
  {
    if kvs == [] then None
    else if SettingOf(kvs[0]).Bad? then Some(SettingOf(kvs[0]).error)
    else FirstBad(kvs[1..])
  }

  /** The last `first=` wins; without one no call is always recorded. */
  function LastFirst(kvs: seq<string>): nat {
    if kvs == [] then 0
    else
      var s := SettingOf(kvs[|kvs| - 1]);
      if s.SetFirst? then s.n else LastFirst(kvs[..|kvs| - 1])
  }

  /** The last `last=` wins; without one the last call is kept. */
  function LastKeep(kvs: seq<string>): bool {
    if kvs == [] then true
    else
      var s := SettingOf(kvs[|kvs| - 1]);
      if s.SetLast? then s.keep else LastKeep(kvs[..|kvs| - 1])
  }

  datatype Word = WordAll | WordFirst | WordFirstLast | WordProb | WordOther

  function WordOf(mode: string): Word {
    if mode == "all" then WordAll
    else if mode == "first" then WordFirst
    else if mode == "firstlast" then WordFirstLast
    else if mode == "prob" then WordProb
    else WordOther
  }

  /** `first:N` and `firstlast:N`, from the parts after the mode; anything after N is ignored. */
  function ParseCount(s: string, args: seq<string>): (r: Parsed)
    ensures r.Good? ==> r.policy.FirstN? && r.policy.n < TWO64
  {
    if args == [] then Malformed(s)
    else
      match ParseUnsigned(args[0], TWO64)
      case None => BadInt
      case Some(n) => Good(FirstN(n))
  }

  function ParseProb(s: string, args: seq<string>, parseF: string -> Option<u64>): (r: Parsed)
    ensures r.Good? ==> r.policy.Probabilistic? && args != [] && parseF(args[0]) == Some(r.policy.p)
  {
    if args == [] then Malformed(s)
    else
      match parseF(args[0])
      case None => BadFloat
      case Some(p) =>
        match FirstBad(args[1..])
        case Some(e) => e
        case None => Good(Probabilistic(p, LastFirst(args[1..]), LastKeep(args[1..])))
  }

  function ParseAs(word: Word, s: string, mode: string, args: seq<string>, parseF: string -> Option<u64>): Parsed {
    match word
    case WordAll => Good(All)
    case WordFirst => ParseCount(s, args)
    case WordFirstLast =>
      var r := ParseCount(s, args);
      if r.Good? then Good(FirstNAndLast(r.policy.n)) else r
    case WordProb => ParseProb(s, args, parseF)
    case WordOther => UnknownMode(mode)
  }

  function Parse(s: string, parseF: string -> Option<u64>): Parsed {
    var parts := Split(s, ':');
    if s == "" then Empty else ParseAs(WordOf(parts[0]), s, parts[0], parts[1..], parseF)
  }

  lemma {:induction false} FirstBadPush(kvs: seq<string>, i: nat)
    requires i < |kvs| && FirstBad(kvs[..i]).None?
    ensures FirstBad(kvs[..i + 1]) == if SettingOf(kvs[i]).Bad? then Some(SettingOf(kvs[i]).error) else None
    ensures SettingOf(kvs[i]).Bad? ==> FirstBad(kvs) == Some(SettingOf(kvs[i]).error)
    decreases i
  {
    if i > 0 {
      assert kvs[..i][1..] == kvs[1..][..i - 1];
      assert kvs[..i + 1][1..] == kvs[1..][..i];
      FirstBadPush(kvs[1..], i - 1);
    }
  }

  /** The loop over the settings of a `prob:` policy. */
  method ParseSettings(kvs: seq<string>) returns (error: Option<Parsed>, firstNAlways: nat, keepLast: bool)
    ensures error == FirstBad(kvs)
    ensures error.None? ==> firstNAlways == LastFirst(kvs) && keepLast == LastKeep(kvs)
  {
    error, firstNAlways, keepLast := None, 0, true;
    for i := 0 to |kvs|
      invariant FirstBad(kvs[..i]).None?
      invariant firstNAlways == LastFirst(kvs[..i]) && keepLast == LastKeep(kvs[..i])
    {
      assert kvs[..i + 1][..i] == kvs[..i];
      FirstBadPush(kvs, i);
      var setting := SettingOf(kvs[i]);
      match setting {
        case SetFirst(n) => firstNAlways := n;
        case SetLast(keep) => keepLast := keep;
        case Bad(e) => return Some(e), firstNAlways, keepLast;
      }
    }
    assert kvs[..|kvs|] == kvs;
    error := None;
  }

  method ParsePolicy(s: string, parseF: string -> Option<u64>) returns (r: Parsed)
    ensures r == Parse(s, parseF)
  {
    if s == "" {
      return Empty;
    }
    var parts := Split(s, ':');
    var word, args := WordOf(parts[0]), parts[1..];
    match word {
      case WordAll =>
        return Good(All);
      case WordFirst =>
        return ParseCount(s, args);
      case WordFirstLast =>
        var count := ParseCount(s, args);
        return if count.Good? then Good(FirstNAndLast(count.policy.n)) else count;
      case WordProb =>
        if args == [] {
          return Malformed(s);
        }
        var p := parseF(args[0]);
        if p.None? {
          return BadFloat;
        }
        var error, firstNAlways, keepLast := ParseSettings(args[1..]);
        return if error.Some? then error.value else Good(Probabilistic(p.value, firstNAlways, keepLast));
      case WordOther =>
        return UnknownMode(parts[0]);
    }
  }

  // ----- what the parser answers

  function Zeros(n: nat): (s: string)
    ensures |s| == n
  {
    seq(n, _ => '0')
  }

  lemma {:induction false} LeadingZeros(z: nat, d: string)
    requires AllDigits(d)
    ensures AllDigits(Zeros(z) + d) && FromDecimal(Zeros(z) + d) == FromDecimal(d)
  {
    var all := Zeros(z) + d;
    if d != "" {
      LeadingZeros(z, d[..|d| - 1]);
      assert all[..|all| - 1] == Zeros(z) + d[..|d| - 1];
    } else if z > 0 {
      LeadingZeros(z - 1, "");
      assert Zeros(z - 1) + "" == Zeros(z - 1) && all[..|all| - 1] == Zeros(z - 1);
    } else {
      assert all == "";
    }
  }

  /** Digits are zeros and the decimal form of their number. */
  lemma {:induction false} DigitsAre(d: string) returns (z: nat)
    requires d != "" && AllDigits(d)
    ensures d == Zeros(z) + Decimal(FromDecimal(d))
  {
    var front, last := d[..|d| - 1], d[|d| - 1];
    var k, m := DigitValue(last), FromDecimal(front);
    assert Digit(k) == last;
    if front == "" {
      z := 0;
      assert FromDecimal(d) == k;
    } else {
      z := DigitsAre(front);
      if m == 0 {
        z := z + 1;
        assert FromDecimal(d) == k && Decimal(0) == "0";
        assert front == Zeros(z);
      } else {
        AppendDigit(m, k);
        assert FromDecimal(d) == 10 * m + k;
        assert Zeros(z) + Decimal(m) + [last] == Zeros(z) + (Decimal(m) + [last]);
      }
      assert d == front + [last];
    }
  }

  lemma {:induction false} AppendDigit(m: nat, k: nat)
    requires m > 0 && k < 10
    ensures Decimal(10 * m + k) == Decimal(m) + [Digit(k)]
  {
    assert (10 * m + k) / 10 == m && (10 * m + k) % 10 == k;
  }

  /** A number is read exactly from its decimal form with any zeros, and perhaps a plus sign, before it. */
  lemma {:induction false} ParseUnsignedIs(s: string, limit: nat, n: nat)
    ensures ParseUnsigned(s, limit) == Some(n)
       <==> n < limit && exists z: nat :: s == Zeros(z) + Decimal(n) || s == "+" + (Zeros(z) + Decimal(n))
  {
    var d := if s != "" && s[0] == '+' then s[1..] else s;
    if ParseUnsigned(s, limit) == Some(n) {
      var z := DigitsAre(d);
      assert s == d || s == "+" + d;
    }
    if n < limit && exists z: nat :: s == Zeros(z) + Decimal(n) || s == "+" + (Zeros(z) + Decimal(n)) {
      var z: nat :| s == Zeros(z) + Decimal(n) || s == "+" + (Zeros(z) + Decimal(n));
      LeadingZeros(z, Decimal(n));
      FromDecimalOfDecimal(n);
      assert IsDigit((Zeros(z) + Decimal(n))[0]);
      assert ("+" + (Zeros(z) + Decimal(n)))[1..] == Zeros(z) + Decimal(n);
    }
  }

  /** What a setting means, by its text. */
  lemma {:induction false} SettingIs(k: string, v: string)
    requires Lacks(k, '=')
    ensures SettingOf(k + "=" + v) ==
      if k == "first" then
        match ParseUnsigned(v, 0x1_0000_0000_0000_0000) case None => Bad(BadInt) case Some(n) => SetFirst(n)
      else if k == "last" then
        match ParseUnsigned(v, 0x1_0000_0000) case None => Bad(BadInt) case Some(n) => SetLast(n != 0)
      else Bad(Malformed(k + "=" + v))
  {
    SettingOfPair(k, v);
  }

  lemma {:induction false} NoSetting(kv: string)
    requires Lacks(kv, '=')
    ensures SettingOf(kv) == Bad(Malformed(kv))
  {
    FindAt(kv, '=', "");
  }

  /** The error is that of the first part that is no setting. */
  lemma {:induction false} ErrorByPosition(kvs: seq<string>, i: nat)
    requires i < |kvs| && SettingOf(kvs[i]).Bad? && forall j :: 0 <= j < i ==> !SettingOf(kvs[j]).Bad?
    ensures FirstBad(kvs) == Some(SettingOf(kvs[i]).error)
  {
    if i > 0 {
      ErrorByPosition(kvs[1..], i - 1);
    }
  }

  /** Of several `first=` settings the last one counts. */
  lemma {:induction false} FirstByPosition(kvs: seq<string>, i: nat)
    requires i < |kvs| && SettingOf(kvs[i]).SetFirst? && forall j :: i < j < |kvs| ==> !SettingOf(kvs[j]).SetFirst?
    ensures LastFirst(kvs) == SettingOf(kvs[i]).n
  {
    if i < |kvs| - 1 {
      assert !SettingOf(kvs[|kvs| - 1]).SetFirst?;
      FirstByPosition(kvs[..|kvs| - 1], i);
    }
  }

  /** Of several `last=` settings the last one counts. */
  lemma {:induction false} KeepByPosition(kvs: seq<string>, i: nat)
    requires i < |kvs| && SettingOf(kvs[i]).SetLast? && forall j :: i < j < |kvs| ==> !SettingOf(kvs[j]).SetLast?
    ensures LastKeep(kvs) == SettingOf(kvs[i]).keep
  {
    if i < |kvs| - 1 {
      assert !SettingOf(kvs[|kvs| - 1]).SetLast?;
      KeepByPosition(kvs[..|kvs| - 1], i);
    }
  }

  /** Without a setting no call is always recorded, and the last call is kept. */
  lemma {:induction false} Defaults(kvs: seq<string>)
    ensures (forall i :: 0 <= i < |kvs| ==> !SettingOf(kvs[i]).SetFirst?) ==> LastFirst(kvs) == 0
    ensures (forall i :: 0 <= i < |kvs| ==> !SettingOf(kvs[i]).SetLast?) ==> LastKeep(kvs)
  {
    if kvs != [] {
      Defaults(kvs[..|kvs| - 1]);
    }
  }

  /** The answer to a probability and some settings. */
  function ProbIs(t: string, kvs: seq<string>, parseF: string -> Option<u64>): Parsed {
    if parseF(t).None? then BadFloat
    else if FirstBad(kvs).Some? then FirstBad(kvs).value
    else Good(Probabilistic(parseF(t).value, LastFirst(kvs), LastKeep(kvs)))
  }

  /** The answer to a mode word and the parts behind it. */
  function Answer(s: string, mode: string, args: seq<string>, parseF: string -> Option<u64>): Parsed {
    if mode == "all" then Good(All)
    else if mode != "first" && mode != "firstlast" && mode != "prob" then UnknownMode(mode)
    else if args == [] then Malformed(s)
    else if mode == "prob" then ProbIs(args[0], args[1..], parseF)
    else
      match ParseUnsigned(args[0], 0x1_0000_0000_0000_0000)
      case None => BadInt
      case Some(n) => Good(if mode == "first" then FirstN(n) else FirstNAndLast(n))
  }

  lemma {:induction false} ParseAsIs(s: string, mode: string, args: seq<string>, parseF: string -> Option<u64>)
    ensures ParseAs(WordOf(mode), s, mode, args, parseF) == Answer(s, mode, args, parseF)
  {
  }

  /** The whole grammar: the answer to a mode word and parts joined by colons. */
  lemma {:induction false} ParseIs(mode: string, args: seq<string>, parseF: string -> Option<u64>)
    requires AllLack([mode] + args, ':') && Join([mode] + args, ':') != ""
    ensures var s := Join([mode] + args, ':'); Parse(s, parseF) == Answer(s, mode, args, parseF)
  {
    var s, parts := Join([mode] + args, ':'), [mode] + args;
    SplitOfJoin(parts, ':');
    assert parts[0] == mode && parts[1..] == args;
    ParseAsIs(s, mode, args, parseF);
  }

  lemma {:induction false} EmptyText(parseF: string -> Option<u64>)
    ensures Parse("", parseF) == Empty
  {
  }

  /** A probability alone: no call is always recorded, and the last call is kept. */
  lemma {:induction false} ProbAlone(t: string, parseF: string -> Option<u64>)
    requires Lacks(t, ':') && parseF(t).Some?
    ensures Parse("prob" + [':'] + t, parseF) == Good(Probabilistic(parseF(t).value, 0, true))
  {
    assert ["prob"] + [t] == ["prob", t] && ["prob", t][1..] == [t] && [t][1..] == [];
    ParseIs("prob", [t], parseF);
    Defaults([]);
    assert FirstBad([]).None?;
  }

  // ----- the printer

  /** The settings that the printer writes. */
  function Settings(first: nat, keepLast: bool): (kvs: seq<string>)
    ensures |kvs| == 2 && AllLack(kvs, ':')
  {
    ["first=" + Decimal(first), "last=" + (if keepLast then "1" else "0")]
  }

  function Print(policy: SamplePolicy, printF: u64 -> string): string {
    match policy
    case All => "all"
    case FirstN(n) => Join(["first", Decimal(n)], ':')
    case FirstNAndLast(n) => Join(["firstlast", Decimal(n)], ':')
    case Probabilistic(p, first, keepLast) =>
      Join(["prob", printF(p)] + Settings(first, keepLast), ':')
  }

  /** The printed form of every policy. */
  lemma {:induction false} PrintIs(policy: SamplePolicy, printF: u64 -> string)
    ensures Print(policy, printF) ==
      match policy
      case All => "all"
      case FirstN(n) => "first:" + Decimal(n)
      case FirstNAndLast(n) => "firstlast:" + Decimal(n)
      case Probabilistic(p, first, keepLast) =>
        "prob:" + printF(p) + ":first=" + Decimal(first) + ":last=" + (if keepLast then "1" else "0")
  {
    match policy {
      case FirstN(n) => JoinTwo("first", Decimal(n));
      case FirstNAndLast(n) => JoinTwo("firstlast", Decimal(n));
      case Probabilistic(p, first, keepLast) =>
        var d, e := Decimal(first), if keepLast then "1" else "0";
        assert ["prob", printF(p)] + ["first=" + d, "last=" + e] == ["prob", printF(p), "first=" + d, "last=" + e];
        JoinFour("prob", printF(p), "first=" + d, "last=" + e);
        Glue(printF(p), d, e);
      case _ =>
    }
  }

  lemma {:induction false} JoinFour(a: string, b: string, c: string, d: string)
    ensures Join([a, b, c, d], ':') == a + [':'] + (b + [':'] + (c + [':'] + d))
  {
    assert [a, b, c, d][1..] == [b, c, d] && [b, c, d][1..] == [c, d];
    JoinTwo(c, d);
    assert Join([b, c, d], ':') == b + [':'] + Join([c, d], ':');
  }

  lemma {:induction false} Glue(p: string, d: string, e: string)
    ensures "prob" + [':'] + (p + [':'] + ("first=" + d + [':'] + ("last=" + e)))
         == "prob:" + p + ":first=" + d + ":last=" + e
  {
    Four("prob" + [':'] + p, [':'] + "first=" + d, [':'] + "last=" + e, "");
    assert "prob" + [':'] == "prob:" && [':'] + "first=" == ":first=" && [':'] + "last=" == ":last=";
    assert "prob:" + p + (":first=" + d) + (":last=" + e) == "prob:" + p + ":first=" + d + ":last=" + e;
  }

  lemma {:induction false} Four(a: string, b: string, c: string, d: string)
    ensures a + b + c + d == a + (b + (c + d))
  {
  }

  /** The float printer writes `p` as a token that the float parser reads back. */
  predicate FloatRoundTrips(p: u64, parseF: string -> Option<u64>, printF: u64 -> string) {
    Lacks(printF(p), ':') && parseF(printF(p)) == Some(p)
  }

  /** The float printer writes `p` as a token that the float parser accepts, perhaps as other bits: a NaN loses its
      sign and payload. */
  predicate FloatReads(p: u64, parseF: string -> Option<u64>, printF: u64 -> string) {
    Lacks(printF(p), ':') && parseF(printF(p)).Some?
  }

  predicate InRange(policy: SamplePolicy) {
    match policy
    case All => true
    case FirstN(n) => n < TWO64
    case FirstNAndLast(n) => n < TWO64
    case Probabilistic(_, first, _) => first < TWO64
  }

  /** The policy with its float, if any, printed and read once. */
  function Reread(policy: SamplePolicy, parseF: string -> Option<u64>, printF: u64 -> string): SamplePolicy
    requires policy.Probabilistic? ==> FloatReads(policy.p, parseF, printF)
  {
    if policy.Probabilistic? then policy.(p := parseF(printF(policy.p)).value) else policy
  }

  lemma {:induction false} ParseDecimal(n: nat, limit: nat)
    requires n < limit
    ensures ParseUnsigned(Decimal(n), limit) == Some(n)
  {
    FromDecimalOfDecimal(n);
    assert IsDigit(Decimal(n)[0]);
  }

  lemma {:induction false} SettingOfPair(k: string, v: string)
    requires Lacks(k, '=')
    ensures SplitOnce(k + "=" + v, '=') == Some((k, v))
  {
    FindAt(k, '=', v);
    assert k + ['='] + v == k + "=" + v;
    assert (k + "=" + v)[|k| + 1..] == v && (k + "=" + v)[..|k|] == k;
  }

  lemma {:induction false} SettingsOfPrint(first: nat, keepLast: bool)
    requires first < TWO64
    ensures SettingOf("first=" + Decimal(first)) == SetFirst(first)
    ensures SettingOf("last=" + (if keepLast then "1" else "0")) == SetLast(keepLast)
  {
    SettingOfPair("first", Decimal(first));
    assert "first" + "=" + Decimal(first) == "first=" + Decimal(first);
    ParseDecimal(first, TWO64);
    var flag: nat := if keepLast then 1 else 0;
    SettingOfPair("last", Decimal(flag));
    assert Decimal(flag) == if keepLast then "1" else "0";
    assert "last" + "=" + Decimal(flag) == "last=" + Decimal(flag);
    ParseDecimal(flag, TWO32);
  }

  lemma {:induction false} PartsOfCount(word: string, n: nat)
    requires Lacks(word, ':')
    ensures Split(Join([word, Decimal(n)], ':'), ':') == [word, Decimal(n)]
    ensures Join([word, Decimal(n)], ':') != ""
  {
    SplitOfJoin([word, Decimal(n)], ':');
  }

  lemma {:induction false} SettingsFold(a: string, b: string, first: nat, keepLast: bool)
    requires SettingOf(a) == SetFirst(first) && SettingOf(b) == SetLast(keepLast)
    ensures FirstBad([a, b]).None? && LastFirst([a, b]) == first && LastKeep([a, b]) == keepLast
  {
    assert [a, b][1..] == [b] && [b][1..] == [];
    assert FirstBad([b]).None? && FirstBad([a, b]) == FirstBad([b]);
    assert [a, b][..1] == [a] && [a][..0] == [];
  }

  lemma {:induction false} CountFromParts(s: string, t: string, n: nat, parseF: string -> Option<u64>)
    requires s != "" && ParseUnsigned(t, TWO64) == Some(n)
    ensures Split(s, ':') == ["first", t] ==> Parse(s, parseF) == Good(FirstN(n))
    ensures Split(s, ':') == ["firstlast", t] ==> Parse(s, parseF) == Good(FirstNAndLast(n))
  {
    assert ["first", t][1..] == [t] && ["firstlast", t][1..] == [t];
    assert ParseCount(s, [t]) == Good(FirstN(n));
  }

  lemma {:induction false} ParseOfPrintCount(n: nat, parseF: string -> Option<u64>)
    requires n < TWO64
    ensures Parse(Join(["first", Decimal(n)], ':'), parseF) == Good(FirstN(n))
    ensures Parse(Join(["firstlast", Decimal(n)], ':'), parseF) == Good(FirstNAndLast(n))
  {
    var t := Decimal(n);
    ParseDecimal(n, TWO64);
    PartsOfCount("first", n);
    PartsOfCount("firstlast", n);
    CountFromParts(Join(["first", t], ':'), t, n, parseF);
    CountFromParts(Join(["firstlast", t], ':'), t, n, parseF);
  }

  lemma {:induction false} PrintedSettings(first: nat, keepLast: bool)
    requires first < TWO64
    ensures var kvs := Settings(first, keepLast);
            FirstBad(kvs).None? && LastFirst(kvs) == first && LastKeep(kvs) == keepLast
  {
    SettingsOfPrint(first, keepLast);
    SettingsFold("first=" + Decimal(first), "last=" + (if keepLast then "1" else "0"), first, keepLast);
  }

  lemma {:induction false} ParseOfPrintProb(p: u64, first: nat, keepLast: bool, parseF: string -> Option<u64>,
                                            printF: u64 -> string)
    requires first < TWO64 && FloatReads(p, parseF, printF)
    ensures Parse(Join(["prob", printF(p)] + Settings(first, keepLast), ':'), parseF)
         == Good(Probabilistic(parseF(printF(p)).value, first, keepLast))
  {
    var kvs := Settings(first, keepLast);
    ProbParts(printF(p), kvs);
    PrintedSettings(first, keepLast);
    ProbFromParts(Join(["prob", printF(p)] + kvs, ':'), printF(p), kvs, parseF);
  }

  lemma {:induction false} ProbFromParts(s: string, t: string, kvs: seq<string>, parseF: string -> Option<u64>)
    requires s != "" && Split(s, ':') == ["prob", t] + kvs && parseF(t).Some? && FirstBad(kvs).None?
    ensures Parse(s, parseF) == Good(Probabilistic(parseF(t).value, LastFirst(kvs), LastKeep(kvs)))
  {
    var parts := Split(s, ':');
    Parts(parts, t, kvs);
    ProbArgs(s, parts[1..], kvs, parseF);
  }

  lemma {:induction false} Parts(parts: seq<string>, t: string, kvs: seq<string>)
    requires parts == ["prob", t] + kvs
    ensures parts[0] == "prob" && parts[1] == t && parts[1..] != [] && parts[1..][0] == t && parts[1..][1..] == kvs
  {
  }

  lemma {:induction false} ProbArgs(s: string, args: seq<string>, kvs: seq<string>, parseF: string -> Option<u64>)
    requires args != [] && args[1..] == kvs && parseF(args[0]).Some? && FirstBad(kvs).None?
    ensures ParseProb(s, args, parseF) == Good(Probabilistic(parseF(args[0]).value, LastFirst(kvs), LastKeep(kvs)))
  {
  }

  lemma {:induction false} ProbParts(t: string, kvs: seq<string>)
    requires Lacks(t, ':') && AllLack(kvs, ':')
    ensures Split(Join(["prob", t] + kvs, ':'), ':') == ["prob", t] + kvs
    ensures Join(["prob", t] + kvs, ':') != ""
  {
    SplitOfJoin(["prob", t] + kvs, ':');
  }

  /** Parsing the printed form of a policy gives the policy with its float read back. */
  lemma {:induction false} ParseOfPrintRereads(policy: SamplePolicy, parseF: string -> Option<u64>, printF: u64 -> string)
    requires InRange(policy) && (policy.Probabilistic? ==> FloatReads(policy.p, parseF, printF))
    ensures Parse(Print(policy, printF), parseF) == Good(Reread(policy, parseF, printF))
  {
    match policy {
      case All => SplitOfJoin(["all"], ':');
      case FirstN(n) => ParseOfPrintCount(n, parseF);
      case FirstNAndLast(n) => ParseOfPrintCount(n, parseF);
      case Probabilistic(p, first, keepLast) => ParseOfPrintProb(p, first, keepLast, parseF, printF);
    }
  }

  /** Parsing the printed form of a policy gives the policy. */
  lemma {:induction false} ParseOfPrint(policy: SamplePolicy, parseF: string -> Option<u64>, printF: u64 -> string)
    requires InRange(policy) && (policy.Probabilistic? ==> FloatRoundTrips(policy.p, parseF, printF))
    ensures Parse(Print(policy, printF), parseF) == Good(policy)
  {
    ParseOfPrintRereads(policy, parseF, printF);
  }

  lemma {:induction false} LastFirstInRange(kvs: seq<string>)
    ensures LastFirst(kvs) < TWO64
  {
    if kvs != [] {
      LastFirstInRange(kvs[..|kvs| - 1]);
    }
  }

  lemma {:induction false} AcceptedInRange(s: string, parseF: string -> Option<u64>)
    requires Parse(s, parseF).Good?
    ensures InRange(Parse(s, parseF).policy)
  {
    var args := Split(s, ':')[1..];
    if args != [] {
      LastFirstInRange(args[1..]);
    }
  }

  /** Whatever text is accepted, one print reaches a fixed point: the printed text reads as a policy that prints as the
      same text. Of the float in this text, if any, it is only used that its print is accepted and that printing what
      was read gives the same token again. */
  lemma {:induction false} PrintReachesFixedPoint(s: string, parseF: string -> Option<u64>, printF: u64 -> string)
    requires Parse(s, parseF).Good?
    requires var policy := Parse(s, parseF).policy;
             policy.Probabilistic? ==>
               FloatReads(policy.p, parseF, printF) && printF(parseF(printF(policy.p)).value) == printF(policy.p)
    ensures var once := Print(Parse(s, parseF).policy, printF);
            && Parse(once, parseF).Good?
            && Print(Parse(once, parseF).policy, printF) == once
            && Parse(Print(Parse(once, parseF).policy, printF), parseF) == Parse(once, parseF)
    ensures var policy := Parse(s, parseF).policy;
            Parse(Print(policy, printF), parseF) == Good(Reread(policy, parseF, printF))
  {
    AcceptedInRange(s, parseF);
    ParseOfPrintRereads(Parse(s, parseF).policy, parseF, printF);
  }

  // ----- the C parser

  /** What `TRACEHASH_DEEP_MODE` selects in the Rust recorder: rejected text means the default. */
  function RustMode(s: string, parseF: string -> Option<u64>): SamplePolicy {
    var r := Parse(s, parseF);
    if r.Good? then r.policy else FirstN(100)
  }

  predicate IsSpace(c: char) {
    c == ' ' || '\t' <= c <= '\r'
  }

  /** The digits at the head of a text. */
  function DigitRun(s: string): (d: string)
    ensures |d| <= |s| && d == s[..|d|] && AllDigits(d)
    ensures |d| < |s| ==> !IsDigit(s[|d|])
  {
    if s == "" || !IsDigit(s[0]) then "" else [s[0]] + DigitRun(s[1..])
  }

  function SkipSpaces(s: string): string {
    if s != "" && IsSpace(s[0]) then SkipSpaces(s[1..]) else s
  }

  /** `strtoull(s, NULL, 10)`: spaces, a sign, the leading digits; saturating, and negated modulo 2^64 after a
      minus sign. */
  function StrToUll(s: string): u64 {
    var t := SkipSpaces(s);
    var negative := t != "" && t[0] == '-';
    Saturated(negative, DigitRun(if t != "" && (t[0] == '-' || t[0] == '+') then t[1..] else t))
  }

  function Saturated(negative: bool, digits: string): u64
    requires AllDigits(digits)
  {
    var n := FromDecimal(digits);
    if n >= TWO64 then TWO64 - 1 else if negative && n > 0 then TWO64 - n else n
  }

  /** The mode parser of `tracehash_init`; text it does not know leaves the default. */
  function CMode(s: string): Mode {
    if s == "all" then ModeAll
    else if |s| >= 6 && s[..6] == "first:" then ModeFirst(StrToUll(s[6..]))
    else ModeFirst(100)
  }

  function AsPolicy(m: Mode): SamplePolicy {
    match m
    case ModeAll => All
    case ModeFirst(n) => FirstN(n)
  }

  /** White space as `strtoull` skips it. */
  predicate AllSpace(s: string) {
    forall i :: 0 <= i < |s| ==> s[i] == ' ' || s[i] as int in {9, 10, 11, 12, 13}
  }

  lemma {:induction false} SpacesSkipped(sp: string, t: string)
    requires AllSpace(sp) && t != "" && !IsSpace(t[0])
    ensures SkipSpaces(sp + t) == t
  {
    if sp == "" {
      assert sp + t == t;
    } else {
      SpacesSkipped(sp[1..], t);
      assert (sp + t)[1..] == sp[1..] + t;
    }
  }

  /** What the C parser reads of any text with a number in it: white space, a sign, digits, and whatever follows. */
  lemma {:induction false} StrToUllReads(sp: string, sign: string, d: string, rest: string)
    requires AllSpace(sp) && (sign == "" || sign == "+" || sign == "-")
    requires d != "" && AllDigits(d) && (rest == "" || !IsDigit(rest[0]))
    ensures StrToUll(sp + (sign + (d + rest)))
         == var n := FromDecimal(d);
            if n >= 0x1_0000_0000_0000_0000 then 0xFFFF_FFFF_FFFF_FFFF
            else if sign == "-" && n > 0 then 0x1_0000_0000_0000_0000 - n
            else n
  {
    var t := sign + (d + rest);
    assert t[0] == if sign == "" then d[0] else sign[0];
    SpacesSkipped(sp, t);
    DigitRunStops(d, rest);
    if sign == "" {
      assert t == d + rest && IsDigit(t[0]);
    } else {
      assert t[1..] == d + rest;
    }
  }

  /** What follows the digits does not matter to `strtoull`. */
  lemma {:induction false} DigitRunStops(d: string, rest: string)
    requires AllDigits(d) && (rest == "" || !IsDigit(rest[0]))
    ensures DigitRun(d + rest) == d
  {
    if d == "" {
      assert d + rest == rest;
    } else {
      DigitRunStops(d[1..], rest);
      assert (d + rest)[1..] == d[1..] + rest;
    }
  }

  /** Where Rust reads a number, C reads the same one, whatever comes after the separator. */
  lemma {:induction false} StrToUllAgrees(token: string, rest: string)
    requires ParseUnsigned(token, TWO64).Some?
    requires rest == "" || rest[0] == ':'
    ensures StrToUll(token + rest) == ParseUnsigned(token, TWO64).value
  {
    if token[0] == '+' {
      var d := token[1..];
      assert token + rest == ['+'] + (d + rest);
      SignedRun(d, rest);
    } else {
      SignedRun(token, rest);
    }
  }

  lemma {:induction false} SignedRun(d: string, rest: string)
    requires d != "" && AllDigits(d) && (rest == "" || rest[0] == ':')
    ensures StrToUll(d + rest) == StrToUll(['+'] + (d + rest)) == Saturated(false, d)
  {
    DigitRunStops(d, rest);
    StrToUllOf(d, rest);
  }

  lemma {:induction false} StrToUllOf(d: string, rest: string)
    requires d != "" && AllDigits(d) && DigitRun(d + rest) == d
    ensures StrToUll(d + rest) == StrToUll(['+'] + (d + rest)) == Saturated(false, d)
  {
    var t, u := d + rest, ['+'] + (d + rest);
    assert IsDigit(t[0]) && u[1..] == t;
    assert SkipSpaces(t) == t && SkipSpaces(u) == u;
  }

  lemma {:induction false} FirstPrefix(s: string)
    requires |s| >= 6 && s[..6] == "first:"
    ensures var token := Split(s, ':')[1..];
            Split(s, ':')[0] == "first" && token == Split(s[6..], ':')
  {
    assert s == "first" + [':'] + s[6..];
    FindAt("first", ':', s[6..]);
    assert s[..5] == "first";
  }

  /** The number token of a `first:` text. */
  function FirstToken(s: string): string {
    s[..Find(s, ':')]
  }

  lemma {:induction false} FirstAgrees(s: string, parseF: string -> Option<u64>)
    requires |s| >= 6 && s[..6] == "first:"
    ensures var n := ParseUnsigned(FirstToken(s[6..]), TWO64);
            && RustMode(s, parseF) == FirstN(if n.Some? then n.value else 100)
            && (n.Some? ==> StrToUll(s[6..]) == n.value)
  {
    FirstPrefix(s);
    var rest := s[6..];
    var k := Find(rest, ':');
    assert Split(s, ':') == ["first"] + Split(rest, ':');
    assert Split(rest, ':')[0] == FirstToken(rest) by {
      assert k == |rest| ==> rest[..k] == rest;
    }
    assert rest == rest[..k] + rest[k..];
    if ParseUnsigned(FirstToken(rest), TWO64).Some? {
      StrToUllAgrees(rest[..k], rest[k..]);
    }
  }

  /** The text goes on with a separator behind the word. */
  predicate Begins(s: string, word: string) {
    |word| < |s| && s[..|word|] == word && s[|word|] == ':'
  }

  predicate AllSettings(kvs: seq<string>) {
    forall i :: 0 <= i < |kvs| ==> !SettingOf(kvs[i]).Bad?
  }

  lemma {:induction false} NoneBad(kvs: seq<string>)
    ensures FirstBad(kvs).None? <==> AllSettings(kvs)
  {
    if kvs != [] {
      NoneBad(kvs[1..]);
      assert AllSettings(kvs) <==> !SettingOf(kvs[0]).Bad? && AllSettings(kvs[1..]) by {
        if !SettingOf(kvs[0]).Bad? && AllSettings(kvs[1..]) {
          forall i | 0 <= i < |kvs| ensures !SettingOf(kvs[i]).Bad? {
            assert i > 0 ==> kvs[i] == kvs[1..][i - 1];
          }
        }
      }
    }
  }

  /** `firstlast:` and a number. */
  predicate CountShape(rest: string) {
    ParseUnsigned(FirstToken(rest), TWO64).Some?
  }

  /** `prob:`, a float, and settings. */
  predicate ProbShape(rest: string, parseF: string -> Option<u64>) {
    parseF(FirstToken(rest)).Some? && AllSettings(Split(rest, ':')[1..])
  }

  lemma {:induction false} SplitAfter(s: string, word: string)
    requires Begins(s, word) && Lacks(word, ':')
    ensures var rest := s[|word| + 1..];
            Split(s, ':')[0] == word && Split(s, ':')[1..] == Split(rest, ':') && Split(rest, ':')[0] == FirstToken(rest)
  {
    var rest := s[|word| + 1..];
    assert s == word + [':'] + rest;
    FindAt(word, ':', rest);
    var k := Find(rest, ':');
    assert k == |rest| ==> rest[..k] == rest;
  }

  /** The mode word decides which text is accepted. */
  lemma {:induction false} FirstWord(s: string)
    ensures var mode := Split(s, ':')[0];
            Lacks(mode, ':') && (s == mode || Begins(s, mode)) && (s == mode ==> Split(s, ':') == [s])
  {
    var n := Find(s, ':');
    if n == |s| {
      assert s[..n] == s;
    }
  }

  lemma {:induction false} AcceptedAfterAll(s: string, parseF: string -> Option<u64>)
    requires Split(s, ':')[0] == "all"
    ensures Parse(s, parseF) == Good(All)
  {
    FirstWord(s);
  }

  lemma {:induction false} AcceptedAfterFirstLast(s: string, parseF: string -> Option<u64>)
    requires Begins(s, "firstlast")
    ensures Parse(s, parseF).Good? <==> CountShape(s[10..])
    ensures Parse(s, parseF).Good? ==> Parse(s, parseF).policy.FirstNAndLast?
  {
    SplitAfter(s, "firstlast");
  }

  lemma {:induction false} AcceptedAfterProb(s: string, parseF: string -> Option<u64>)
    requires Begins(s, "prob")
    ensures Parse(s, parseF).Good? <==> ProbShape(s[5..], parseF)
    ensures Parse(s, parseF).Good? ==> Parse(s, parseF).policy.Probabilistic?
  {
    SplitAfter(s, "prob");
    NoneBad(Split(s[5..], ':')[1..]);
  }

  lemma {:induction false} OtherWordsRejected(s: string, parseF: string -> Option<u64>)
    requires s != "all" && !Begins(s, "all") && !Begins(s, "first") && !Begins(s, "firstlast") && !Begins(s, "prob")
    ensures !Parse(s, parseF).Good?
  {
    FirstWord(s);
    var mode := Split(s, ':')[0];
    if s == mode {
      SoloRejected(s, parseF);
    } else {
      assert WordOf(mode) == WordOther;
    }
  }

  /** A mode word alone is rejected, unless it is `all`. */
  lemma {:induction false} SoloRejected(s: string, parseF: string -> Option<u64>)
    requires s != "all" && Split(s, ':') == [s]
    ensures !Parse(s, parseF).Good?
  {
    assert [s][1..] == [];
    assert WordOf(s) != WordAll;
    assert !ParseCount(s, []).Good? && !ParseProb(s, [], parseF).Good?;
  }

  /** Text that Rust accepts as a mode that C does not have. */
  predicate RustOnly(s: string, parseF: string -> Option<u64>) {
    || Begins(s, "all")
    || (Begins(s, "firstlast") && CountShape(s[10..]))
    || (Begins(s, "prob") && ProbShape(s[5..], parseF))
  }

  lemma {:induction false} BeginsOne(s: string, a: string, b: string)
    requires Begins(s, a) && Begins(s, b) && Lacks(a, ':') && Lacks(b, ':')
    ensures a == b
  {
    SplitAfter(s, a);
    SplitAfter(s, b);
  }

  lemma {:induction false} OutsideFirst(s: string, parseF: string -> Option<u64>)
    requires !Begins(s, "first") && s != "all"
    ensures RustMode(s, parseF).FirstN? <==> !RustOnly(s, parseF)
    ensures RustMode(s, parseF).FirstN? ==> RustMode(s, parseF) == FirstN(100)
  {
    if Begins(s, "all") {
      SplitAfter(s, "all");
      AcceptedAfterAll(s, parseF);
    } else if Begins(s, "firstlast") {
      NotBoth(s, "firstlast", "prob");
      AcceptedAfterFirstLast(s, parseF);
    } else if Begins(s, "prob") {
      AcceptedAfterProb(s, parseF);
    } else {
      OtherWordsRejected(s, parseF);
    }
  }

  lemma {:induction false} NotBoth(s: string, a: string, b: string)
    requires Begins(s, a) && a != b && Lacks(a, ':') && Lacks(b, ':')
    ensures !Begins(s, b)
  {
    if Begins(s, b) {
      BeginsOne(s, a, b);
    }
  }

  /** Exactly when both recorders take the same mode from the same text. After `first:`, when Rust reads the number token
      or C reads 100 from it; otherwise, when the text is no `all:`, `firstlast:N` or `prob:p` that only Rust has. */
  lemma {:induction false} ModesAgree(s: string, parseF: string -> Option<u64>)
    ensures RustMode(s, parseF) == AsPolicy(CMode(s))
       <==> if Begins(s, "first") then ParseUnsigned(FirstToken(s[6..]), TWO64).Some? || StrToUll(s[6..]) == 100
            else !RustOnly(s, parseF)
  {
    BeginsFirst(s);
    if Begins(s, "first") {
      FirstAgrees(s, parseF);
    } else if s == "all" {
      SplitOfJoin(["all"], ':');
    } else {
      OutsideFirst(s, parseF);
    }
  }

  lemma {:induction false} BeginsFirst(s: string)
    ensures Begins(s, "first") <==> |s| >= 6 && s[..6] == "first:"
  {
    if |s| >= 6 {
      assert s[..6] == s[..5] + [s[5]];
      if s[..6] == "first:" {
        assert s[..5] == "first:"[..5] && s[5] == "first:"[5];
      }
    }
  }

  /** On every printed `all` and `first:N` the two parsers agree. */
  lemma {:induction false} PrintedModesAgree(m: Mode, parseF: string -> Option<u64>, printF: u64 -> string)
    ensures CMode(Print(AsPolicy(m), printF)) == m
    ensures RustMode(Print(AsPolicy(m), printF), parseF) == AsPolicy(m)
  {
    ParseOfPrint(AsPolicy(m), parseF, printF);
    if m.ModeFirst? {
      var s := Print(AsPolicy(m), printF);
      var d := Decimal(m.n);
      JoinTwo("first", d);
      assert s[..6] == "first:" && s[6..] == d;
      ParseDecimal(m.n, TWO64);
      StrToUllAgrees(d, "");
      assert d + "" == d;
    }
  }

  lemma {:induction false} JoinTwo(a: string, b: string)
    ensures Join([a, b], ':') == a + [':'] + b
  {
    assert [a, b][1..] == [b];
  }

  lemma {:induction false} TwoParts(a: string, b: string)
    requires Lacks(a, ':') && Lacks(b, ':')
    ensures Split(a + [':'] + b, ':') == [a, b]
    ensures Split(a + [':'] + b, ':')[1..] == [b]
  {
    SplitOfJoin([a, b], ':');
    JoinTwo(a, b);
  }

  /** Rust ignores what follows `all:`; C does not know the mode then. */
  lemma {:induction false} TrailingTextDiffers(parseF: string -> Option<u64>)
    ensures RustMode("all:x", parseF) == All && CMode("all:x") == ModeFirst(100)
  {
    TwoParts("all", "x");
    assert "all" + [':'] + "x" == "all:x";
  }

  lemma {:induction false} WithoutDigits(t: string)
    requires t != "" && t[0] != '+' && !IsDigit(t[0])
    ensures ParseUnsigned(t, TWO64).None?
  {
  }

  lemma {:induction false} MinusDigit(c: char)
    requires '1' <= c <= '9'
    ensures StrToUll(['-', c]) == TWO64 - DigitValue(c)
  {
    var t := ['-', c];
    assert SkipSpaces(t) == t && t[1..] == [c];
    DigitRunStops([c], "");
    assert [c] + "" == [c] && [c][..0] == "";
    assert FromDecimal([c]) == DigitValue(c);
    assert StrToUll(t) == Saturated(true, [c]);
  }

  /** Rust rejects a minus sign; C wraps the number around. */
  lemma {:induction false} NegativeCountDiffers(parseF: string -> Option<u64>, c: char)
    requires '1' <= c <= '9'
    ensures var s := "first:" + ['-', c];
            RustMode(s, parseF) == FirstN(100) && CMode(s) == ModeFirst(TWO64 - DigitValue(c))
  {
    var t := ['-', c];
    var s := "first:" + t;
    assert s[..6] == "first:" && s[6..] == t;
    FirstAgrees(s, parseF);
    FindAt(t, ':', "");
    assert FirstToken(t) == t;
    WithoutDigits(t);
    MinusDigit(c);
  }
}
