/** Log entries: their body encoding and decoder, and the canonical input bytes that are hashed. */
module Entries {
  import opened Bytes
  import opened Wire
  import opened WireProofs
  import Fnv

  datatype Outcome =
    | Return(outputs: seq<Field>)
    | Exception(typeName: seq<byte>, what: seq<byte>, payload: Option<Value>)

  datatype Entry = Entry(
    number: nat,
    receiverIn: Option<Value>,
    receiverOut: Option<Value>,
    inputs: seq<Field>,
    outcome: Outcome,
    contentHash: nat)

  const OUTCOME_RETURN: byte := 0
  const OUTCOME_EXCEPTION: byte := 1

  // ----- encoding

  function EncodeList(fields: seq<Field>): seq<byte> {
    Le(|fields|, 4) + EncodeFields(fields)
  }

  function EncodeOptional(v: Option<Value>): seq<byte> {
    if v.None? then [] else Encode(v.value)
  }

  /** A presence byte and then the value, if any. */
  function EncodeFlagged(v: Option<Value>): seq<byte> {
    [if v.None? then 0 else 1] + EncodeOptional(v)
  }

  function EncodeOutcome(o: Outcome): seq<byte> {
    match o
    case Return(outputs) => [OUTCOME_RETURN] + EncodeList(outputs)
    case Exception(t, w, p) => [OUTCOME_EXCEPTION] + EncodeName(t) + EncodeName(w) + EncodeFlagged(p)
  }

  function Flags(e: Entry): byte {
    (if e.receiverIn.Some? then 1 else 0) + (if e.receiverOut.Some? then 2 else 0)
  }

  /** The parts of a body, one after the other. */
  function ConcatAll(parts: seq<seq<byte>>): seq<byte> {
    if parts == [] then [] else parts[0] + ConcatAll(parts[1..])
  }

  function EncodeEntry(e: Entry): seq<byte> {
    ConcatAll([Le(e.number, 4), [Flags(e)], EncodeList(e.inputs),
          EncodeOptional(e.receiverIn), EncodeOptional(e.receiverOut),
          EncodeOutcome(e.outcome), Le(e.contentHash, 8)])
  }

  lemma {:induction false} ConcatHead(head: seq<byte>, p: seq<byte>, more: seq<seq<byte>>)
    ensures head + ConcatAll([p] + more) == (head + p) + ConcatAll(more)
  {
    assert ([p] + more)[1..] == more;
  }

  lemma {:induction false} EntryLayout(e: Entry)
    ensures EncodeEntry(e) == Le(e.number, 4) + [Flags(e)] + EncodeList(e.inputs)
                              + EncodeOptional(e.receiverIn) + EncodeOptional(e.receiverOut)
                              + EncodeOutcome(e.outcome) + Le(e.contentHash, 8)
  {
    SevenParts(Le(e.number, 4), [Flags(e)], EncodeList(e.inputs), EncodeOptional(e.receiverIn),
               EncodeOptional(e.receiverOut), EncodeOutcome(e.outcome), Le(e.contentHash, 8));
  }

  lemma {:induction false} SevenParts(a: seq<byte>, b: seq<byte>, c: seq<byte>, d: seq<byte>, e: seq<byte>, f: seq<byte>, g: seq<byte>)
    ensures ConcatAll([a, b, c, d, e, f, g]) == a + b + c + d + e + f + g
  {
    assert [] + ConcatAll([a, b, c, d, e, f, g]) == ConcatAll([a, b, c, d, e, f, g]);
    assert [a, b, c, d, e, f, g] == [a] + [b, c, d, e, f, g];
    ConcatHead([], a, [b, c, d, e, f, g]);
    assert [] + a == a;
    assert [b, c, d, e, f, g] == [b] + [c, d, e, f, g];
    ConcatHead(a, b, [c, d, e, f, g]);
    assert [c, d, e, f, g] == [c] + [d, e, f, g];
    ConcatHead(a + b, c, [d, e, f, g]);
    assert [d, e, f, g] == [d] + [e, f, g];
    ConcatHead(a + b + c, d, [e, f, g]);
    assert [e, f, g] == [e] + [f, g];
    ConcatHead(a + b + c + d, e, [f, g]);
    assert [f, g] == [f] + [g];
    ConcatHead(a + b + c + d + e, f, [g]);
    assert [g] == [g] + [];
    ConcatHead(a + b + c + d + e + f, g, []);
    assert a + b + c + d + e + f + g + [] == a + b + c + d + e + f + g;
  }

  function CanonicalInput(receiverIn: Option<Value>, inputs: seq<Field>): seq<byte> {
    EncodeFlagged(receiverIn) + EncodeList(inputs)
  }

  function InputHash(receiverIn: Option<Value>, inputs: seq<Field>): u64 {
    Fnv.Hash(CanonicalInput(receiverIn, inputs))
  }

  // ----- decoding

  function DecodeList(s: seq<byte>): (r: Decoded<seq<Field>>)
    ensures r.Ok? ==> |r.rest| < |s|
  {
    var (n, r) :- TakeLe(s, 4);
    DecodeFields(n, r)
  }

  function DecodeOptional(present: bool, s: seq<byte>): Decoded<Option<Value>> {
    if !present then Ok(None, s) else
    var (v, r) :- DecodeValue(s);
    Ok(Some(v), r)
  }

  function DecodeFlagged(s: seq<byte>): Decoded<Option<Value>> {
    var (b, r) :- TakeBytes(s, 1);
    if b[0] > 1 then Err(UnknownTag(b[0])) else DecodeOptional(b[0] == 1, r)
  }

  function DecodeOutcome(s: seq<byte>): Decoded<Outcome> {
    var (b, r) :- TakeBytes(s, 1);
    if b[0] == OUTCOME_RETURN then
      var (outputs, r2) :- DecodeList(r);
      Ok(Return(outputs), r2)
    else if b[0] == OUTCOME_EXCEPTION then
      var (t, r2) :- TakeName(r);
      var (w, r3) :- TakeName(r2);
      var (p, r4) :- DecodeFlagged(r3);
      Ok(Exception(t, w, p), r4)
    else Err(UnknownTag(b[0]))
  }

  function DecodeEntry(s: seq<byte>): Decoded<Entry> {
    var (number, r) :- TakeLe(s, 4);
    var (flags, r1) :- TakeBytes(r, 1);
    var (inputs, r2) :- DecodeList(r1);
    var (receiverIn, r3) :- DecodeOptional(flags[0] % 2 != 0, r2);
    var (receiverOut, r4) :- DecodeOptional((flags[0] / 2) % 2 != 0, r3);
    var (outcome, r5) :- DecodeOutcome(r4);
    var (contentHash, r6) :- TakeLe(r5, 8);
    Ok(Entry(number, receiverIn, receiverOut, inputs, outcome, contentHash), r6)
  }

  // ----- the entries the format can carry

  predicate ListFits(fields: seq<Field>) {
    |fields| < TWO32 && FieldsFit(fields)
  }

  predicate OptionalFits(v: Option<Value>) {
    v.Some? ==> Fits(v.value)
  }

  predicate OutcomeFits(o: Outcome) {
    match o
    case Return(outputs) => ListFits(outputs)
    case Exception(t, w, p) => NameFits(t) && NameFits(w) && OptionalFits(p)
  }

  predicate EntryFits(e: Entry) {
    && e.number < TWO32 && e.contentHash < TWO64
    && ListFits(e.inputs) && OptionalFits(e.receiverIn) && OptionalFits(e.receiverOut)
    && OutcomeFits(e.outcome)
  }

  // ----- spellings: a bool byte is zero or not, a flags byte only shows its two low bits

  function ListMask(fields: seq<Field>): seq<Reading> {
    Exacts(4) + FieldsMask(fields)
  }

  function OptionalMask(v: Option<Value>): seq<Reading> {
    if v.None? then [] else Mask(v.value)
  }

  function OutcomeMask(o: Outcome): seq<Reading> {
    match o
    case Return(outputs) => Exacts(1) + ListMask(outputs)
    case Exception(t, w, p) =>
      Exacts(|[OUTCOME_EXCEPTION] + EncodeName(t) + EncodeName(w)|) + (Exacts(1) + OptionalMask(p))
  }

  function EntryMask(e: Entry): seq<Reading> {
    Exacts(4) + [TwoBits] + ListMask(e.inputs)
    + OptionalMask(e.receiverIn) + OptionalMask(e.receiverOut)
    + OutcomeMask(e.outcome) + Exacts(8)
  }

  // ----- parts: soundness

  /** `c` is what was read between `s` and `rest`, and it spells `e`. */
  predicate Read(s: seq<byte>, rest: seq<byte>, m: seq<Reading>, e: seq<byte>) {
    |rest| <= |s| && s == Consumed(s, rest) + rest && Spells(Consumed(s, rest), m, e)
  }

  lemma {:induction false} ReadIntro(s: seq<byte>, c: seq<byte>, rest: seq<byte>, m: seq<Reading>, e: seq<byte>)
    requires s == c + rest && Spells(c, m, e)
    ensures Read(s, rest, m, e)
  {
    ConsumedIs(s, c, rest);
  }

  lemma {:induction false} ReadThen(s: seq<byte>, mid: seq<byte>, rest: seq<byte>,
                 m: seq<Reading>, e: seq<byte>, m2: seq<Reading>, e2: seq<byte>)
    requires Read(s, mid, m, e) && Read(mid, rest, m2, e2)
    ensures Read(s, rest, m + m2, e + e2)
  {
    var c, c2 := Consumed(s, mid), Consumed(mid, rest);
    SpellsConcat(c, m, e, c2, m2, e2);
    CatAssoc(c, c2, rest);
    ReadIntro(s, c + c2, rest, m + m2, e + e2);
  }

  lemma {:induction false} ReadExact(s: seq<byte>, e: seq<byte>, rest: seq<byte>)
    requires s == e + rest
    ensures Read(s, rest, Exacts(|e|), e)
  {
    SpellsExact(e, e);
    ReadIntro(s, e, rest, Exacts(|e|), e);
  }

  lemma {:induction false} ReadHead(head: seq<byte>, s: seq<byte>, rest: seq<byte>, m: seq<Reading>, e: seq<byte>)
    requires Read(s, rest, m, e)
    ensures Read(head + s, rest, Exacts(|head|) + m, head + e)
  {
    ReadExact(head + s, head, s);
    ReadThen(head + s, s, rest, Exacts(|head|), head, m, e);
  }

  lemma {:induction false} TakeLeReads(s: seq<byte>, k: nat)
    requires TakeLe(s, k).Ok?
    ensures Read(s, TakeLe(s, k).rest, Exacts(k), Le(TakeLe(s, k).value, k))
    ensures TakeLe(s, k).value < Pow256(k)
  {
    TakeLeSound(s, k);
    ReadExact(s, Le(TakeLe(s, k).value, k), TakeLe(s, k).rest);
  }

  lemma {:induction false} ListSound(s: seq<byte>)
    requires DecodeList(s).Ok?
    ensures var d := DecodeList(s);
            ListFits(d.value) && Read(s, d.rest, ListMask(d.value), EncodeList(d.value))
  {
    var d := DecodeList(s);
    var n, r := TakeLe(s, 4).value, TakeLe(s, 4).rest;
    Widths();
    TakeLeReads(s, 4);
    DecodeFieldsSound(n, r, d.value, d.rest);
    ReadThen(s, r, d.rest, Exacts(4), Le(n, 4), FieldsMask(d.value), EncodeFields(d.value));
  }

  lemma {:induction false} OptionalSound(present: bool, s: seq<byte>)
    requires DecodeOptional(present, s).Ok?
    ensures var d := DecodeOptional(present, s);
            && OptionalFits(d.value) && d.value.Some? == present
            && Read(s, d.rest, OptionalMask(d.value), EncodeOptional(d.value))
  {
    if present {
      DecodeSound(s);
    } else {
      ReadIntro(s, [], s, [], []);
    }
  }

  lemma {:induction false} FlaggedSound(s: seq<byte>)
    requires DecodeFlagged(s).Ok?
    ensures var d := DecodeFlagged(s);
            OptionalFits(d.value) && Read(s, d.rest, Exacts(1) + OptionalMask(d.value), EncodeFlagged(d.value))
  {
    var b, s1 := s[0], s[1..];
    assert s[..1] == [b] && s == [b] + s1;
    OptionalSound(b == 1, s1);
    var d := DecodeOptional(b == 1, s1);
    ReadHead([b], s1, d.rest, OptionalMask(d.value), EncodeOptional(d.value));
  }

  lemma {:induction false} ReturnSound(s: seq<byte>)
    requires s != [] && s[0] == OUTCOME_RETURN && DecodeOutcome(s).Ok?
    ensures var d := DecodeOutcome(s);
            OutcomeFits(d.value) && Read(s, d.rest, OutcomeMask(d.value), EncodeOutcome(d.value))
  {
    assert s[..1] == [OUTCOME_RETURN] && s == [OUTCOME_RETURN] + s[1..];
    ListSound(s[1..]);
    var d := DecodeList(s[1..]);
    ReadHead([OUTCOME_RETURN], s[1..], d.rest, ListMask(d.value), EncodeList(d.value));
  }

  lemma {:induction false} ExceptionSound(s: seq<byte>)
    requires s != [] && s[0] == OUTCOME_EXCEPTION && DecodeOutcome(s).Ok?
    ensures var d := DecodeOutcome(s);
            OutcomeFits(d.value) && Read(s, d.rest, OutcomeMask(d.value), EncodeOutcome(d.value))
  {
    var s1 := s[1..];
    assert s[..1] == [OUTCOME_EXCEPTION] && s == [OUTCOME_EXCEPTION] + s1;
    var t, s2 := TakeName(s1).value, TakeName(s1).rest;
    var w, s3 := TakeName(s2).value, TakeName(s2).rest;
    var d := DecodeFlagged(s3);
    TakeBlobSound(s1);
    TakeBlobSound(s2);
    FlaggedSound(s3);
    var head := [OUTCOME_EXCEPTION] + EncodeName(t) + EncodeName(w);
    CatAssoc([OUTCOME_EXCEPTION], EncodeName(t), s2);
    CatAssoc([OUTCOME_EXCEPTION] + EncodeName(t), EncodeName(w), s3);
    ReadHead(head, s3, d.rest, Exacts(1) + OptionalMask(d.value), EncodeFlagged(d.value));
  }

  lemma {:induction false} OutcomeSound(s: seq<byte>)
    requires DecodeOutcome(s).Ok?
    ensures var d := DecodeOutcome(s);
            OutcomeFits(d.value) && Read(s, d.rest, OutcomeMask(d.value), EncodeOutcome(d.value))
  {
    if s[0] == OUTCOME_RETURN {
      ReturnSound(s);
    } else {
      ExceptionSound(s);
    }
  }

  /** The flags byte is read for its two low bits. */
  lemma {:induction false} FlagsRead(b: byte, e: Entry, rest: seq<byte>)
    requires e.receiverIn.Some? == (b % 2 != 0) && e.receiverOut.Some? == ((b / 2) % 2 != 0)
    ensures Read([b] + rest, rest, [TwoBits], [Flags(e)])
  {
    ReadIntro([b] + rest, [b], rest, [TwoBits], [Flags(e)]);
  }

  /** Whatever body the decoder accepts is an entry that fits, spelled by the bytes consumed. */
  lemma {:induction false} EntrySound(s: seq<byte>)
    requires DecodeEntry(s).Ok?
    ensures var d := DecodeEntry(s);
            EntryFits(d.value) && Read(s, d.rest, EntryMask(d.value), EncodeEntry(d.value))
  {
    var e := DecodeEntry(s).value;
    Widths();
    var s0 := TakeLe(s, 4).rest;
    var b, s1 := s0[0], s0[1..];
    assert s0[..1] == [b] && s0 == [b] + s1;
    var s2 := DecodeList(s1).rest;
    var s3 := DecodeOptional(b % 2 != 0, s2).rest;
    var s4 := DecodeOptional((b / 2) % 2 != 0, s3).rest;
    var s5 := DecodeOutcome(s4).rest;
    TakeLeReads(s, 4);
    ListSound(s1);
    OptionalSound(b % 2 != 0, s2);
    OptionalSound((b / 2) % 2 != 0, s3);
    OutcomeSound(s4);
    TakeLeReads(s5, 8);
    FlagsRead(b, e, s1);
    EntryChain(e, s, s0, s1, s2, s3, s4, s5, DecodeEntry(s).rest);
  }

  lemma {:induction false} EntryChain(e: Entry, s: seq<byte>, s0: seq<byte>, s1: seq<byte>, s2: seq<byte>,
                   s3: seq<byte>, s4: seq<byte>, s5: seq<byte>, s6: seq<byte>)
    requires Read(s, s0, Exacts(4), Le(e.number, 4))
    requires Read(s0, s1, [TwoBits], [Flags(e)])
    requires Read(s1, s2, ListMask(e.inputs), EncodeList(e.inputs))
    requires Read(s2, s3, OptionalMask(e.receiverIn), EncodeOptional(e.receiverIn))
    requires Read(s3, s4, OptionalMask(e.receiverOut), EncodeOptional(e.receiverOut))
    requires Read(s4, s5, OutcomeMask(e.outcome), EncodeOutcome(e.outcome))
    requires Read(s5, s6, Exacts(8), Le(e.contentHash, 8))
    ensures Read(s, s6, EntryMask(e), EncodeEntry(e))
  {
    EntryLayout(e);
    var m, b := Exacts(4), Le(e.number, 4);
    ReadThen(s, s0, s1, m, b, [TwoBits], [Flags(e)]);
    m, b := m + [TwoBits], b + [Flags(e)];
    ReadThen(s, s1, s2, m, b, ListMask(e.inputs), EncodeList(e.inputs));
    m, b := m + ListMask(e.inputs), b + EncodeList(e.inputs);
    ReadThen(s, s2, s3, m, b, OptionalMask(e.receiverIn), EncodeOptional(e.receiverIn));
    m, b := m + OptionalMask(e.receiverIn), b + EncodeOptional(e.receiverIn);
    ReadThen(s, s3, s4, m, b, OptionalMask(e.receiverOut), EncodeOptional(e.receiverOut));
    m, b := m + OptionalMask(e.receiverOut), b + EncodeOptional(e.receiverOut);
    ReadThen(s, s4, s5, m, b, OutcomeMask(e.outcome), EncodeOutcome(e.outcome));
    m, b := m + OutcomeMask(e.outcome), b + EncodeOutcome(e.outcome);
    ReadThen(s, s5, s6, m, b, Exacts(8), Le(e.contentHash, 8));
  }

  // ----- parts: completeness

  lemma {:induction false} ListComplete(fields: seq<Field>, c: seq<byte>, tail: seq<byte>)
    requires ListFits(fields) && Spells(c, ListMask(fields), EncodeList(fields))
    ensures DecodeList(c + tail) == Ok(fields, tail)
  {
    Widths();
    SpellsHeadSplit(c, Le(|fields|, 4), FieldsMask(fields), EncodeFields(fields));
    CatAssoc(Le(|fields|, 4), c[4..], tail);
    TakeLeComplete(|fields|, 4, c[4..] + tail);
    DecodeFieldsComplete(fields, c[4..], tail);
  }

  lemma {:induction false} OptionalComplete(v: Option<Value>, c: seq<byte>, tail: seq<byte>)
    requires OptionalFits(v) && Spells(c, OptionalMask(v), EncodeOptional(v))
    ensures DecodeOptional(v.Some?, c + tail) == Ok(v, tail)
  {
    if v.Some? {
      DecodeComplete(v.value, c, tail);
    } else {
      assert c + tail == tail;
    }
  }

  lemma {:induction false} FlaggedComplete(v: Option<Value>, c: seq<byte>, tail: seq<byte>)
    requires OptionalFits(v) && Spells(c, Exacts(1) + OptionalMask(v), EncodeFlagged(v))
    ensures DecodeFlagged(c + tail) == Ok(v, tail)
  {
    var head: seq<byte> := [if v.None? then 0 else 1];
    SpellsHeadSplit(c, head, OptionalMask(v), EncodeOptional(v));
    CatAssoc(head, c[1..], tail);
    assert (c + tail)[..1] == head && (c + tail)[1..] == c[1..] + tail;
    OptionalComplete(v, c[1..], tail);
  }

  lemma {:induction false} OutcomeComplete(o: Outcome, c: seq<byte>, tail: seq<byte>)
    requires OutcomeFits(o) && Spells(c, OutcomeMask(o), EncodeOutcome(o))
    ensures DecodeOutcome(c + tail) == Ok(o, tail)
  {
    match o {
      case Return(outputs) =>
        SpellsHeadSplit(c, [OUTCOME_RETURN], ListMask(outputs), EncodeList(outputs));
        ListComplete(outputs, c[1..], tail);
        ReturnReads(outputs, c[1..] + tail, tail);
        CatAssoc([OUTCOME_RETURN], c[1..], tail);
      case Exception(t, w, p) =>
        var head := [OUTCOME_EXCEPTION] + EncodeName(t) + EncodeName(w);
        SpellsHeadSplit(c, head, Exacts(1) + OptionalMask(p), EncodeFlagged(p));
        FlaggedComplete(p, c[|head|..], tail);
        ExceptionReads(t, w, p, c[|head|..] + tail, tail);
        CatAssoc(head, c[|head|..], tail);
    }
  }

  lemma {:induction false} ReturnReads(outputs: seq<Field>, s: seq<byte>, tail: seq<byte>)
    requires DecodeList(s) == Ok(outputs, tail)
    ensures DecodeOutcome([OUTCOME_RETURN] + s) == Ok(Return(outputs), tail)
  {
    assert ([OUTCOME_RETURN] + s)[1..] == s;
  }

  lemma {:induction false} ExceptionReads(t: seq<byte>, w: seq<byte>, p: Option<Value>, s: seq<byte>, tail: seq<byte>)
    requires NameFits(t) && NameFits(w) && DecodeFlagged(s) == Ok(p, tail)
    ensures DecodeOutcome([OUTCOME_EXCEPTION] + EncodeName(t) + EncodeName(w) + s) == Ok(Exception(t, w, p), tail)
  {
    TakeBlobComplete(w, s);
    TakeBlobComplete(t, EncodeName(w) + s);
    var whole := [OUTCOME_EXCEPTION] + EncodeName(t) + EncodeName(w) + s;
    CatAssoc([OUTCOME_EXCEPTION] + EncodeName(t), EncodeName(w), s);
    CatAssoc([OUTCOME_EXCEPTION], EncodeName(t), EncodeName(w) + s);
    assert whole[..1] == [OUTCOME_EXCEPTION] && whole[1..] == EncodeName(t) + (EncodeName(w) + s);
  }

  lemma {:induction false} FlagsComplete(e: Entry, b: byte)
    requires Spells([b], [TwoBits], [Flags(e)])
    ensures (b % 2 != 0) == e.receiverIn.Some? && ((b / 2) % 2 != 0) == e.receiverOut.Some?
  {
    assert Normal([TwoBits][0], [b][0]) == Flags(e);
  }

  /** Every spelling of an entry that fits, followed by anything, decodes to the entry. */
  lemma {:induction false} EntryComplete(e: Entry, c: seq<byte>, tail: seq<byte>)
    requires EntryFits(e) && Spells(c, EntryMask(e), EncodeEntry(e))
    ensures DecodeEntry(c + tail) == Ok(e, tail)
  {
    var c0, c1, c2, c3, c4, c5, c6 := EntryParts(e, c);
    Widths();
    var s5 := c6 + tail;
    SpellsExact(c6, Le(e.contentHash, 8));
    TakeLeComplete(e.contentHash, 8, tail);
    var s4 := c5 + s5;
    OutcomeComplete(e.outcome, c5, s5);
    var s3 := c4 + s4;
    OptionalComplete(e.receiverOut, c4, s4);
    var s2 := c3 + s3;
    OptionalComplete(e.receiverIn, c3, s3);
    var s1 := c2 + s2;
    ListComplete(e.inputs, c2, s2);
    var s0 := c1 + s1;
    assert c1 == [c1[0]] && s0[..1] == c1 && s0[1..] == s1;
    FlagsComplete(e, c1[0]);
    SpellsExact(c0, Le(e.number, 4));
    TakeLeComplete(e.number, 4, s0);
    Regroup(c0, c1, c2, c3, c4, c5, c6, tail);
  }

  lemma {:induction false} Regroup(c0: seq<byte>, c1: seq<byte>, c2: seq<byte>, c3: seq<byte>,
                c4: seq<byte>, c5: seq<byte>, c6: seq<byte>, tail: seq<byte>)
    ensures (c0 + c1 + c2 + c3 + c4 + c5 + c6) + tail
         == c0 + (c1 + (c2 + (c3 + (c4 + (c5 + (c6 + tail))))))
  {
    CatAssoc(c0 + c1 + c2 + c3 + c4 + c5, c6, tail);
    CatAssoc(c0 + c1 + c2 + c3 + c4, c5, c6 + tail);
    CatAssoc(c0 + c1 + c2 + c3, c4, c5 + (c6 + tail));
    CatAssoc(c0 + c1 + c2, c3, c4 + (c5 + (c6 + tail)));
    CatAssoc(c0 + c1, c2, c3 + (c4 + (c5 + (c6 + tail))));
    CatAssoc(c0, c1, c2 + (c3 + (c4 + (c5 + (c6 + tail)))));
  }

  lemma {:induction false} OptionalMaskLength(v: Option<Value>)
    ensures |OptionalMask(v)| == |EncodeOptional(v)|
  {
    if v.Some? {
      MaskLength(v.value);
    }
  }

  lemma {:induction false} OutcomeMaskLength(o: Outcome)
    ensures |OutcomeMask(o)| == |EncodeOutcome(o)|
  {
    match o {
      case Return(outputs) => FieldsMaskLength(outputs);
      case Exception(_, _, p) => OptionalMaskLength(p);
    }
  }

  lemma {:induction false} EntryParts(e: Entry, c: seq<byte>)
    returns (c0: seq<byte>, c1: seq<byte>, c2: seq<byte>, c3: seq<byte>,
             c4: seq<byte>, c5: seq<byte>, c6: seq<byte>)
    requires Spells(c, EntryMask(e), EncodeEntry(e))
    ensures c == c0 + c1 + c2 + c3 + c4 + c5 + c6
    ensures Spells(c0, Exacts(4), Le(e.number, 4)) && Spells(c1, [TwoBits], [Flags(e)])
    ensures Spells(c2, ListMask(e.inputs), EncodeList(e.inputs))
    ensures Spells(c3, OptionalMask(e.receiverIn), EncodeOptional(e.receiverIn))
    ensures Spells(c4, OptionalMask(e.receiverOut), EncodeOptional(e.receiverOut))
    ensures Spells(c5, OutcomeMask(e.outcome), EncodeOutcome(e.outcome))
    ensures Spells(c6, Exacts(8), Le(e.contentHash, 8))
  {
    EntryLayout(e);
    FieldsMaskLength(e.inputs);
    OptionalMaskLength(e.receiverIn);
    OptionalMaskLength(e.receiverOut);
    OutcomeMaskLength(e.outcome);
    var m1, e1 := Exacts(4) + [TwoBits], Le(e.number, 4) + [Flags(e)];
    var m2, e2 := m1 + ListMask(e.inputs), e1 + EncodeList(e.inputs);
    var m3, e3 := m2 + OptionalMask(e.receiverIn), e2 + EncodeOptional(e.receiverIn);
    var m4, e4 := m3 + OptionalMask(e.receiverOut), e3 + EncodeOptional(e.receiverOut);
    var m5, e5 := m4 + OutcomeMask(e.outcome), e4 + EncodeOutcome(e.outcome);
    var t5, t4, t3, t2, t1;
    t5, c6 := SplitAt(c, m5, e5, Exacts(8), Le(e.contentHash, 8));
    t4, c5 := SplitAt(t5, m4, e4, OutcomeMask(e.outcome), EncodeOutcome(e.outcome));
    t3, c4 := SplitAt(t4, m3, e3, OptionalMask(e.receiverOut), EncodeOptional(e.receiverOut));
    t2, c3 := SplitAt(t3, m2, e2, OptionalMask(e.receiverIn), EncodeOptional(e.receiverIn));
    t1, c2 := SplitAt(t2, m1, e1, ListMask(e.inputs), EncodeList(e.inputs));
    c0, c1 := SplitAt(t1, Exacts(4), Le(e.number, 4), [TwoBits], [Flags(e)]);
  }

  lemma {:induction false} SplitAt(c: seq<byte>, m: seq<Reading>, e: seq<byte>, m2: seq<Reading>, e2: seq<byte>)
    returns (a: seq<byte>, b: seq<byte>)
    requires |m| == |e| && Spells(c, m + m2, e + e2)
    ensures c == a + b && Spells(a, m, e) && Spells(b, m2, e2)
  {
    SpellsSplit(c, m, e, m2, e2);
    a, b := c[..|m|], c[|m|..];
  }

  // ----- the exact language of entry bodies

  /** A body decodes to an entry and a tail exactly when it spells that entry before that tail. */
  lemma {:induction false} EntryAcceptsExactly(s: seq<byte>, e: Entry, rest: seq<byte>)
    ensures DecodeEntry(s) == Ok(e, rest)
       <==> EntryFits(e) && exists c :: s == c + rest && Spells(c, EntryMask(e), EncodeEntry(e))
  {
    if DecodeEntry(s) == Ok(e, rest) {
      EntrySound(s);
      assert s == Consumed(s, rest) + rest && Spells(Consumed(s, rest), EntryMask(e), EncodeEntry(e));
    }
    if EntryFits(e) && exists c :: s == c + rest && Spells(c, EntryMask(e), EncodeEntry(e)) {
      var c :| s == c + rest && Spells(c, EntryMask(e), EncodeEntry(e));
      EntryComplete(e, c, rest);
    }
  }

  lemma {:induction false} OptionalSpellsItself(v: Option<Value>)
    ensures Spells(EncodeOptional(v), OptionalMask(v), EncodeOptional(v))
  {
    if v.Some? {
      SpellsItself(v.value);
    }
  }

  lemma {:induction false} ListSpellsItself(fields: seq<Field>)
    ensures Spells(EncodeList(fields), ListMask(fields), EncodeList(fields))
  {
    FieldsSpellThemselves(fields);
    SpellsHead(Le(|fields|, 4), EncodeFields(fields), FieldsMask(fields), EncodeFields(fields));
  }

  lemma {:induction false} OutcomeSpellsItself(o: Outcome)
    ensures Spells(EncodeOutcome(o), OutcomeMask(o), EncodeOutcome(o))
  {
    match o {
      case Return(outputs) =>
        ListSpellsItself(outputs);
        SpellsHead([OUTCOME_RETURN], EncodeList(outputs), ListMask(outputs), EncodeList(outputs));
      case Exception(t, w, p) =>
        OptionalSpellsItself(p);
        SpellsHead([if p.None? then 0 else 1], EncodeOptional(p), OptionalMask(p), EncodeOptional(p));
        SpellsHead([OUTCOME_EXCEPTION] + EncodeName(t) + EncodeName(w),
                   EncodeFlagged(p), Exacts(1) + OptionalMask(p), EncodeFlagged(p));
    }
  }

  lemma {:induction false} EntrySpellsItself(e: Entry)
    ensures Spells(EncodeEntry(e), EntryMask(e), EncodeEntry(e))
  {
    EntryLayout(e);
    ListSpellsItself(e.inputs);
    OptionalSpellsItself(e.receiverIn);
    OptionalSpellsItself(e.receiverOut);
    OutcomeSpellsItself(e.outcome);
    var m, b := Exacts(4) + [TwoBits], Le(e.number, 4) + [Flags(e)];
    SpellsExact(Le(e.number, 4), Le(e.number, 4));
    SpellsConcat(Le(e.number, 4), Exacts(4), Le(e.number, 4), [Flags(e)], [TwoBits], [Flags(e)]);
    var m2, b2 := ListMask(e.inputs), EncodeList(e.inputs);
    SpellsConcat(b, m, b, b2, m2, b2);
    m, b := m + m2, b + b2;
    m2, b2 := OptionalMask(e.receiverIn), EncodeOptional(e.receiverIn);
    SpellsConcat(b, m, b, b2, m2, b2);
    m, b := m + m2, b + b2;
    m2, b2 := OptionalMask(e.receiverOut), EncodeOptional(e.receiverOut);
    SpellsConcat(b, m, b, b2, m2, b2);
    m, b := m + m2, b + b2;
    m2, b2 := OutcomeMask(e.outcome), EncodeOutcome(e.outcome);
    SpellsConcat(b, m, b, b2, m2, b2);
    SpellsExact(Le(e.contentHash, 8), Le(e.contentHash, 8));
    SpellsConcat(b + b2, m + m2, b + b2, Le(e.contentHash, 8), Exacts(8), Le(e.contentHash, 8));
  }

  lemma {:induction false} EntryRoundTrip(e: Entry, tail: seq<byte>)
    requires EntryFits(e)
    ensures DecodeEntry(EncodeEntry(e) + tail) == Ok(e, tail)
  {
    EntrySpellsItself(e);
    EntryComplete(e, EncodeEntry(e), tail);
  }

  /** Equal canonical input bytes mean the same receiver and the same inputs. */
  lemma {:induction false} CanonicalInputInjective(v: Option<Value>, fields: seq<Field>, w: Option<Value>, others: seq<Field>)
    requires OptionalFits(v) && ListFits(fields) && OptionalFits(w) && ListFits(others)
    requires CanonicalInput(v, fields) == CanonicalInput(w, others)
    ensures v == w && fields == others
  {
    CanonicalInputReads(v, fields);
    CanonicalInputReads(w, others);
  }

  lemma {:induction false} CanonicalInputReads(v: Option<Value>, fields: seq<Field>)
    requires OptionalFits(v) && ListFits(fields)
    ensures DecodeFlagged(CanonicalInput(v, fields)) == Ok(v, EncodeList(fields))
    ensures DecodeList(EncodeList(fields)) == Ok(fields, [])
  {
    OptionalSpellsItself(v);
    SpellsHead([if v.None? then 0 else 1], EncodeOptional(v), OptionalMask(v), EncodeOptional(v));
    FlaggedComplete(v, EncodeFlagged(v), EncodeList(fields));
    ListSpellsItself(fields);
    ListComplete(fields, EncodeList(fields), []);
    assert EncodeList(fields) + [] == EncodeList(fields);
  }
}
