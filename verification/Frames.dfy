/** Length-framed entry streams and the log reader. */
module Frames {
  import opened Bytes
  import opened Wire
  import opened WireProofs
  import opened Entries
  import opened WireIo

  function FrameOf(body: seq<byte>): (s: seq<byte>)
    ensures |s| == 4 + |body|
  {
    Le(|body|, 4) + body
  }

  /** The frames of some bodies, one after the other. */
  function Framing(bodies: seq<seq<byte>>): seq<byte> {
    if bodies == [] then [] else FrameOf(bodies[0]) + Framing(bodies[1..])
  }

  function Bodies(es: seq<Entry>): (b: seq<seq<byte>>)
    ensures |b| == |es|
  {
    seq(|es|, i requires 0 <= i < |es| => EncodeEntry(es[i]))
  }

  function Stream(es: seq<Entry>): seq<byte> {
    Framing(Bodies(es))
  }

  /** Entries whose body length fits the four length bytes. */
  predicate Frameable(e: Entry) {
    EntryFits(e) && |EncodeEntry(e)| < TWO32
  }

  // ----- reading one frame

  datatype Next = End | Got(entry: Entry, rest: seq<byte>) | Broken(error: WireError)

  function NextFrame(s: seq<byte>): (n: Next)
    ensures n.Got? ==> |n.rest| < |s|
  {
    if s == [] then End else
    var len := TakeLe(s, 4);
    if len.Err? then Broken(len.error) else
    var body := TakeBytes(len.rest, len.value);
    if body.Err? then Broken(body.error) else
    var e := DecodeEntry(body.value);
    if e.Err? then Broken(e.error) else Got(e.value, body.rest)
  }

  datatype Log = Log(entries: seq<Entry>, stop: Stop)
  datatype Stop = AtEnd | Failed(error: WireError)

  /** The entries read before the stream ends or breaks. */
  function ReadAll(s: seq<byte>): Log
    decreases |s|
  {
    match NextFrame(s)
    case End => Log([], AtEnd)
    case Broken(e) => Log([], Failed(e))
    case Got(e, rest) =>
      var more := ReadAll(rest);
      Log([e] + more.entries, more.stop)
  }

  // ----- entries on longer inputs

  lemma {:induction false} ListExtends(s: seq<byte>, more: seq<byte>)
    ensures Extends(DecodeList(s), DecodeList(s + more), more)
  {
    TakeLeExtends(s, 4, more);
    if TakeLe(s, 4).Ok? {
      DecodeFieldsExtends(TakeLe(s, 4).value, TakeLe(s, 4).rest, more);
    }
  }

  lemma {:induction false} OptionalExtends(present: bool, s: seq<byte>, more: seq<byte>)
    ensures Extends(DecodeOptional(present, s), DecodeOptional(present, s + more), more)
  {
    DecodeExtends(s, more);
  }

  lemma {:induction false} FlaggedExtends(s: seq<byte>, more: seq<byte>)
    ensures Extends(DecodeFlagged(s), DecodeFlagged(s + more), more)
  {
    TakeBytesExtends(s, 1, more);
    if s != [] {
      OptionalExtends(s[0] == 1, s[1..], more);
    }
  }

  lemma {:induction false} ExceptionExtends(s: seq<byte>, more: seq<byte>)
    requires s != [] && s[0] == OUTCOME_EXCEPTION
    ensures Extends(DecodeOutcome(s), DecodeOutcome(s + more), more)
  {
    TakeBytesExtends(s, 1, more);
    var s1 := s[1..];
    TakeNameExtends(s1, more);
    if TakeName(s1).Ok? {
      var s2 := TakeName(s1).rest;
      TakeNameExtends(s2, more);
      if TakeName(s2).Ok? {
        FlaggedExtends(TakeName(s2).rest, more);
      }
    }
  }

  lemma {:induction false} OutcomeExtends(s: seq<byte>, more: seq<byte>)
    ensures Extends(DecodeOutcome(s), DecodeOutcome(s + more), more)
  {
    if s != [] && s[0] == OUTCOME_EXCEPTION {
      ExceptionExtends(s, more);
    } else {
      TakeBytesExtends(s, 1, more);
      if s != [] && s[0] == OUTCOME_RETURN {
        ListExtends(s[1..], more);
      }
    }
  }

  lemma {:induction false} EntryExtends(s: seq<byte>, more: seq<byte>)
    ensures Extends(DecodeEntry(s), DecodeEntry(s + more), more)
  {
    TakeLeExtends(s, 4, more);
    if TakeLe(s, 4).Ok? {
      var s0 := TakeLe(s, 4).rest;
      TakeBytesExtends(s0, 1, more);
      if s0 != [] {
        var b, s1 := s0[0], s0[1..];
        assert (s0 + more)[..1] == [b];
        ListExtends(s1, more);
        if DecodeList(s1).Ok? {
          var s2 := DecodeList(s1).rest;
          OptionalExtends(b % 2 != 0, s2, more);
          if DecodeOptional(b % 2 != 0, s2).Ok? {
            var s3 := DecodeOptional(b % 2 != 0, s2).rest;
            OptionalExtends((b / 2) % 2 != 0, s3, more);
            if DecodeOptional((b / 2) % 2 != 0, s3).Ok? {
              var s4 := DecodeOptional((b / 2) % 2 != 0, s3).rest;
              OutcomeExtends(s4, more);
              if DecodeOutcome(s4).Ok? {
                TakeLeExtends(DecodeOutcome(s4).rest, 8, more);
              }
            }
          }
        }
      }
    }
  }

  /** An entry body cut short anywhere is an unexpected end. */
  lemma {:induction false} EntryCutShort(e: Entry, s: seq<byte>, more: seq<byte>)
    requires EntryFits(e) && s + more == EncodeEntry(e) && more != []
    ensures DecodeEntry(s) == Err(UnexpectedEof)
  {
    EntryRoundTrip(e, []);
    assert s + more + [] == s + more;
    EntryExtends(s, more);
  }

  // ----- frame and stream round trips

  lemma {:induction false} FrameReads(body: seq<byte>, tail: seq<byte>)
    requires |body| < TWO32
    ensures TakeLe(FrameOf(body) + tail, 4) == Ok(|body|, body + tail)
    ensures TakeBytes(body + tail, |body|) == Ok(body, tail)
  {
    TakeBlobComplete(body, tail);
    assert FrameOf(body) == EncodeName(body);
  }

  /** A framed entry reads back exactly when its body length fits in 32 bits; a longer body,
      whose length bytes are truncated, reads as an unexpected end. */
  lemma {:induction false} FrameRoundTrip(e: Entry, tail: seq<byte>)
    requires EntryFits(e)
    ensures |EncodeEntry(e)| < TWO32 ==> NextFrame(FrameOf(EncodeEntry(e)) + tail) == Got(e, tail)
    ensures |EncodeEntry(e)| >= TWO32 ==> NextFrame(FrameOf(EncodeEntry(e)) + tail) == Broken(UnexpectedEof)
  {
    var body := EncodeEntry(e);
    if |body| < TWO32 {
      FrameReads(body, tail);
      EntryRoundTrip(e, []);
      assert body + [] == body;
    } else {
      var n := |body| % TWO32;
      Widths();
      LeWrapped32(|body|);
      TakeLeComplete(n, 4, body + tail);
      assert FrameOf(body) + tail == Le(n, 4) + (body + tail);
      assert (body + tail)[..n] == body[..n];
      assert body[..n] + body[n..] == body;
      EntryCutShort(e, body[..n], body[n..]);
    }
  }

  /** A frame of any body that fits its length bytes is answered as its body is decoded: with the entry, whatever the
      body holds behind it, or with the error. */
  lemma {:induction false} AnyFrame(body: seq<byte>, tail: seq<byte>)
    requires |body| < TWO32
    ensures NextFrame(Le(|body|, 4) + body + tail) ==
      match DecodeEntry(body)
      case Ok(e, _) => Got(e, tail)
      case Err(error) => Broken(error)
  {
    FrameReads(body, tail);
  }

  lemma {:induction false} FramingConcat(a: seq<seq<byte>>, b: seq<seq<byte>>)
    ensures Framing(a + b) == Framing(a) + Framing(b)
  {
    if a == [] {
      assert a + b == b;
    } else {
      assert (a + b)[1..] == a[1..] + b;
      FramingConcat(a[1..], b);
      CatAssoc(FrameOf(a[0]), Framing(a[1..]), Framing(b));
    }
  }

  lemma {:induction false} FramingPush(a: seq<seq<byte>>, body: seq<byte>)
    ensures Framing(a + [body]) == Framing(a) + FrameOf(body)
  {
    FramingConcat(a, [body]);
    assert [body][1..] == [] && FrameOf(body) + [] == FrameOf(body);
  }

  lemma {:induction false} StreamPush(es: seq<Entry>, e: Entry)
    ensures Stream(es + [e]) == Stream(es) + FrameOf(EncodeEntry(e))
  {
    FramingPush(Bodies(es), EncodeEntry(e));
    assert Bodies(es + [e]) == Bodies(es) + [EncodeEntry(e)];
  }

  /** A body that fits its length bytes and that the decoder reads as `e`. */
  predicate ReadsAs(body: seq<byte>, e: Entry) {
    |body| < TWO32 && DecodeEntry(body).Ok? && DecodeEntry(body).value == e
  }

  predicate AllReadAs(bodies: seq<seq<byte>>, es: seq<Entry>) {
    |bodies| == |es| && forall i :: 0 <= i < |es| ==> ReadsAs(bodies[i], es[i])
  }

  lemma {:induction false} FrameFirst(body: seq<byte>, e: Entry, s: seq<byte>)
    requires ReadsAs(body, e)
    ensures ReadAll(FrameOf(body) + s) == Log([e] + ReadAll(s).entries, ReadAll(s).stop)
  {
    FrameReads(body, s);
  }

  /** Frames, followed by anything, read back as their entries and then what the rest reads as. */
  lemma {:induction false} FramingReads(bodies: seq<seq<byte>>, es: seq<Entry>, tail: seq<byte>)
    requires AllReadAs(bodies, es)
    ensures ReadAll(Framing(bodies) + tail) == Log(es + ReadAll(tail).entries, ReadAll(tail).stop)
  {
    if es == [] {
      assert Framing(bodies) + tail == tail;
    } else {
      var more := Framing(bodies[1..]) + tail;
      CatAssoc(FrameOf(bodies[0]), Framing(bodies[1..]), tail);
      assert ReadsAs(bodies[0], es[0]);
      FrameFirst(bodies[0], es[0], more);
      FramingReads(bodies[1..], es[1..], tail);
      FirstEntry(es, ReadAll(more), ReadAll(tail));
    }
  }

  lemma {:induction false} FirstEntry(es: seq<Entry>, inner: Log, last: Log)
    requires es != [] && inner == Log(es[1..] + last.entries, last.stop)
    ensures Log([es[0]] + inner.entries, inner.stop) == Log(es + last.entries, last.stop)
  {
    assert [es[0]] + (es[1..] + last.entries) == es + last.entries;
  }

  predicate AllFrameable(es: seq<Entry>) {
    forall i :: 0 <= i < |es| ==> Frameable(es[i])
  }

  lemma {:induction false} FrameableReads(es: seq<Entry>)
    requires AllFrameable(es)
    ensures AllReadAs(Bodies(es), es)
  {
    forall i | 0 <= i < |es| ensures ReadsAs(Bodies(es)[i], es[i]) {
      assert Frameable(es[i]);
      EntryRoundTrip(es[i], []);
      assert EncodeEntry(es[i]) + [] == Bodies(es)[i];
    }
  }

  /** A complete log reads back as exactly its entries, with a clean end. */
  lemma {:induction false} LogRoundTrip(es: seq<Entry>)
    requires AllFrameable(es)
    ensures ReadAll(Stream(es)) == Log(es, AtEnd)
  {
    FrameableReads(es);
    FramingReads(Bodies(es), es, []);
    assert Stream(es) + [] == Stream(es);
    assert es + [] == es;
  }

  /** A body that does not decode ends the log there, with its error and the entries before it. */
  lemma {:induction false} CorruptLog(es: seq<Entry>, body: seq<byte>, tail: seq<byte>)
    requires AllFrameable(es) && |body| < TWO32 && DecodeEntry(body).Err?
    ensures ReadAll(Stream(es) + (Le(|body|, 4) + body + tail)) == Log(es, Failed(DecodeEntry(body).error))
  {
    FrameableReads(es);
    AnyFrame(body, tail);
    FramingReads(Bodies(es), es, Le(|body|, 4) + body + tail);
    assert es + [] == es;
  }

  /** The part of a frame that is not yet all there. */
  lemma {:induction false} PartialFrame(body: seq<byte>, s: seq<byte>)
    requires |body| < TWO32 && s <= FrameOf(body) && s != FrameOf(body)
    ensures NextFrame(s) == if s == [] then End else Broken(UnexpectedEof)
  {
    if |s| >= 4 {
      assert s[..4] == Le(|body|, 4);
      Widths();
      FromLeOfLe(|body|, 4);
    }
  }

  /** A log truncated at any byte gives exactly the entries whose frames are wholly there; the end
      is clean on a frame boundary and an unexpected end of input otherwise. */
  lemma {:induction false} TruncatedLog(es: seq<Entry>, k: nat, j: nat)
    requires AllFrameable(es)
    requires k <= |Stream(es)| && j <= |es|
    requires |Stream(es[..j])| <= k
    requires j < |es| ==> k < |Stream(es[..j + 1])|
    ensures ReadAll(Stream(es)[..k])
         == Log(es[..j], if k == |Stream(es[..j])| then AtEnd else Failed(UnexpectedEof))
  {
    FrameableReads(es);
    var bodies := Bodies(es);
    assert Bodies(es[..j]) == bodies[..j];
    if j < |es| {
      assert Bodies(es[..j + 1]) == bodies[..j + 1];
    }
    TruncatedFraming(bodies, es, k, j);
  }

  lemma {:induction false} TruncatedFraming(bodies: seq<seq<byte>>, es: seq<Entry>, k: nat, j: nat)
    requires AllReadAs(bodies, es)
    requires k <= |Framing(bodies)| && j <= |bodies|
    requires |Framing(bodies[..j])| <= k
    requires j < |bodies| ==> k < |Framing(bodies[..j + 1])|
    ensures ReadAll(Framing(bodies)[..k])
         == Log(es[..j], if k == |Framing(bodies[..j])| then AtEnd else Failed(UnexpectedEof))
  {
    var whole, part := bodies[..j], bodies[j..];
    assert bodies == whole + part;
    FramingConcat(whole, part);
    if part != [] {
      NextFrameEnds(bodies, j);
      assert ReadsAs(bodies[j], es[j]);
    }
    CutBehind(whole, es[..j], part, k);
  }

  lemma {:induction false} NextFrameEnds(bodies: seq<seq<byte>>, j: nat)
    requires j < |bodies|
    ensures Framing(bodies[..j + 1]) == Framing(bodies[..j]) + FrameOf(bodies[j..][0])
  {
    assert bodies[..j + 1] == bodies[..j] + [bodies[j]];
    FramingPush(bodies[..j], bodies[j]);
  }

  /** A stream cut behind some whole frames, inside the frame that follows. */
  lemma {:induction false} CutBehind(whole: seq<seq<byte>>, es: seq<Entry>, part: seq<seq<byte>>, k: nat)
    requires AllReadAs(whole, es) && |Framing(whole)| <= k <= |Framing(whole) + Framing(part)|
    requires part != [] ==> |part[0]| < TWO32 && k < |Framing(whole) + FrameOf(part[0])|
    ensures ReadAll((Framing(whole) + Framing(part))[..k])
         == Log(es, if k == |Framing(whole)| then AtEnd else Failed(UnexpectedEof))
  {
    var a, b := Framing(whole), Framing(part);
    var tail := b[..k - |a|];
    assert (a + b)[..k] == a + tail;
    TruncatedHead(part, tail);
    FramingReads(whole, es, tail);
    assert es + [] == es;
  }

  /** A stream cut inside its first frame. */
  lemma {:induction false} TruncatedHead(bodies: seq<seq<byte>>, s: seq<byte>)
    requires s <= Framing(bodies) && (bodies != [] ==> |bodies[0]| < TWO32 && |s| < |FrameOf(bodies[0])|)
    ensures ReadAll(s) == Log([], if s == [] then AtEnd else Failed(UnexpectedEof))
  {
    if s != [] {
      assert s <= FrameOf(bodies[0]);
      PartialFrame(bodies[0], s);
    }
  }

  // ----- the reader over a source that may deliver fewer bytes than asked for

  /** A source whose reads are split in any way: at least one byte unless nothing is left. */
  class ChunkSource {
    var rest: seq<byte>

    constructor (s: seq<byte>)
      ensures rest == s
    {
      rest := s;
    }

    method Read(want: nat) returns (got: seq<byte>)
      modifies this
      ensures old(rest) == got + rest
      ensures |got| <= want
      ensures want > 0 && old(rest) != [] ==> got != []
    {
      if want == 0 || rest == [] {
        got := [];
      } else {
        var n :| 1 <= n <= want && n <= |rest|;
        got := rest[..n];
        rest := rest[n..];
      }
    }

    /** `read_exact`: keeps reading until all is there or nothing is left. */
    method ReadExact(n: nat) returns (r: Result<seq<byte>>)
      modifies this
      ensures Agrees(TakeBytes(old(rest), n), r, rest)
    {
      var buf := [];
      while |buf| < n
        invariant old(rest) == buf + rest && |buf| <= n
      {
        var got := Read(n - |buf|);
        if got == [] {
          return Failure(UnexpectedEof);
        }
        assert buf + (got + rest) == (buf + got) + rest;
        buf := buf + got;
      }
      r := Success(buf);
    }
  }

  /** How the outcome of reading a frame is reported. */
  ghost predicate Reports(n: Next, r: Result<Option<Entry>>, rest: seq<byte>) {
    match n
    case End => r == Success(None) && rest == []
    case Got(e, t) => r == Success(Some(e)) && rest == t
    case Broken(e) => r == Failure(e)
  }

  /** Reads the next frame. The first read of the length may be short; the answer depends only on
      the bytes of the source, never on how its reads are split. */
  method ReadFramedEntry(s: ChunkSource) returns (r: Result<Option<Entry>>)
    modifies s
    ensures Reports(NextFrame(old(s.rest)), r, s.rest)
  {
    ghost var whole := s.rest;
    var lenBytes := s.Read(4);
    if lenBytes == [] {
      return Success(None);
    }
    if |lenBytes| < 4 {
      var more :- s.ReadExact(4 - |lenBytes|);
      assert lenBytes + (more + s.rest) == (lenBytes + more) + s.rest;
      lenBytes := lenBytes + more;
    }
    assert whole[..4] == lenBytes && whole[4..] == s.rest;
    var body :- s.ReadExact(FromLe(lenBytes));
    var slice := new Source(body);
    var e :- ReadEntryBody(slice);
    r := Success(Some(e));
  }

  /** Reads every entry; an error anywhere gives up the entries read so far. */
  method CollectEntries(s: ChunkSource) returns (r: Result<seq<Entry>>)
    modifies s
    ensures r == match ReadAll(old(s.rest)).stop
                 case AtEnd => Success(ReadAll(old(s.rest)).entries)
                 case Failed(e) => Failure(e)
  {
    ghost var whole := ReadAll(s.rest);
    var out := [];
    while true
      invariant whole == Log(out + ReadAll(s.rest).entries, ReadAll(s.rest).stop)
      decreases |s.rest|
    {
      ghost var was := ReadAll(s.rest);
      var e :- ReadFramedEntry(s);
      if e.None? {
        assert out + [] == out;
        return Success(out);
      }
      assert was.entries == [e.value] + ReadAll(s.rest).entries;
      assert out + was.entries == (out + [e.value]) + ReadAll(s.rest).entries;
      out := out + [e.value];
    }
  }
}
