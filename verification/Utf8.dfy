/** What well-formed text is: the byte-by-byte test of the recorders accepts exactly the concatenations of encoded code
    points, where the encoding is the arithmetic one of RFC 3629, section 3. */
module Utf8 {
  import opened Bytes

  /** The encoding of a number below 0x110000. */
  function Utf8Of(c: nat): (s: seq<byte>)
    requires c < 0x110000
    ensures 1 <= |s| <= 4
  {
    if c < 0x80 then [c]
    else if c < 0x800 then [0xC0 + c / 0x40, 0x80 + c % 0x40]
    else if c < 0x10000 then [0xE0 + c / 0x1000, 0x80 + c / 0x40 % 0x40, 0x80 + c % 0x40]
    else [0xF0 + c / 0x40000, 0x80 + c / 0x1000 % 0x40, 0x80 + c / 0x40 % 0x40, 0x80 + c % 0x40]
  }

  /** A Unicode scalar value: any code point but the surrogates. */
  predicate IsScalar(c: nat) {
    c < 0xD800 || 0xE000 <= c < 0x110000
  }

  predicate AllScalar(cs: seq<nat>) {
    cs == [] || (IsScalar(cs[0]) && AllScalar(cs[1..]))
  }

  function TextOf(cs: seq<nat>): seq<byte>
    requires AllScalar(cs)
  {
    if cs == [] then [] else Utf8Of(cs[0]) + TextOf(cs[1..])
  }

  /** The text is that of some code points. */
  ghost predicate IsText(s: seq<byte>) {
    exists cs: seq<nat> :: AllScalar(cs) && s == TextOf(cs)
  }

  /** At an encoded number the test takes exactly its bytes, or none if it is a surrogate. */
  lemma {:induction false} HeadOfEncoded(c: nat, s: seq<byte>)
    requires c < 0x110000
    ensures Utf8Head(Utf8Of(c) + s) == if 0xD800 <= c < 0xE000 then 0 else |Utf8Of(c)|
  {
    var t, u := Utf8Of(c), Utf8Of(c) + s;
    assert forall i :: 0 <= i < |t| ==> u[i] == t[i];
    if 0x800 <= c < 0x10000 {
      ThreeLead(c);
    } else if c >= 0x10000 {
      FourLead(c);
    }
  }

  lemma {:induction false} ThreeLead(c: nat)
    requires 0x800 <= c < 0x10000
    ensures var t := Utf8Of(c); Tail(t[2]) && t[0] > 0xDF && (Utf8Lead3(t[0], t[1]) <==> IsScalar(c))
  {
  }

  lemma {:induction false} FourLead(c: nat)
    requires 0x10000 <= c < 0x110000
    ensures var t := Utf8Of(c); Tail(t[2]) && Tail(t[3]) && t[0] > 0xEF && Utf8Lead4(t[0], t[1])
  {
  }

  /** Six more bits. */
  lemma {:induction false} Sixes(m: nat, b: nat) returns (c: nat)
    requires b < 0x40
    ensures c == m * 0x40 + b && c / 0x40 == m && c % 0x40 == b
  {
    c := m * 0x40 + b;
  }

  lemma {:induction false} DivTwice(c: nat)
    ensures c / 0x1000 == c / 0x40 / 0x40 && c / 0x40000 == c / 0x40 / 0x40 / 0x40
  {
  }

  /** The number that some bytes encode. */
  lemma {:induction false} HeadEncodes(s: seq<byte>) returns (c: nat)
    requires Utf8Head(s) > 0
    ensures IsScalar(c) && s[..Utf8Head(s)] == Utf8Of(c)
  {
    var n := Utf8Head(s);
    if n == 1 {
      c := s[0];
    } else if n == 2 {
      c := Sixes(s[0] - 0xC0, s[1] - 0x80);
    } else if n == 3 {
      c := ThreeEncode(s[0], s[1], s[2]);
      assert s[..3] == [s[0], s[1], s[2]];
    } else {
      c := FourEncode(s[0], s[1], s[2], s[3]);
      assert s[..4] == [s[0], s[1], s[2], s[3]];
    }
  }

  lemma {:induction false} ThreeEncode(a: byte, b: byte, d: byte) returns (c: nat)
    requires Utf8Lead3(a, b) && Tail(d)
    ensures IsScalar(c) && Utf8Of(c) == [a, b, d]
  {
    c := Sixes(a - 0xE0, b - 0x80);
    c := Sixes(c, d - 0x80);
    DivTwice(c);
  }

  lemma {:induction false} FourEncode(a: byte, b: byte, d: byte, e: byte) returns (c: nat)
    requires Utf8Lead4(a, b) && Tail(d) && Tail(e)
    ensures IsScalar(c) && Utf8Of(c) == [a, b, d, e]
  {
    c := Sixes(a - 0xF0, b - 0x80);
    c := Sixes(c, d - 0x80);
    DivTwice(c);
    c := Sixes(c, e - 0x80);
    DivTwice(c);
  }

  lemma {:induction false} EncodedIsValid(cs: seq<nat>)
    requires AllScalar(cs)
    ensures ValidUtf8(TextOf(cs))
  {
    if cs != [] {
      var head, rest := Utf8Of(cs[0]), TextOf(cs[1..]);
      EncodedIsValid(cs[1..]);
      HeadOfEncoded(cs[0], rest);
      assert (head + rest)[|head|..] == rest;
    }
  }

  lemma {:induction false} ValidIsEncoded(s: seq<byte>) returns (cs: seq<nat>)
    requires ValidUtf8(s)
    ensures AllScalar(cs) && s == TextOf(cs)
  {
    if s == [] {
      cs := [];
    } else {
      var n := Utf8Head(s);
      var c := HeadEncodes(s);
      var rest := ValidIsEncoded(s[n..]);
      cs := [c] + rest;
      assert cs[1..] == rest && s == s[..n] + s[n..];
    }
  }

  /** Well-formed text is exactly the text of some code points. */
  lemma {:induction false} ValidIffText(s: seq<byte>)
    ensures ValidUtf8(s) <==> IsText(s)
  {
    if ValidUtf8(s) {
      var cs := ValidIsEncoded(s);
      assert IsText(s);
    }
    if IsText(s) {
      var cs: seq<nat> :| AllScalar(cs) && s == TextOf(cs);
      EncodedIsValid(cs);
    }
  }
}
