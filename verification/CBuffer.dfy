/** The C recorder's growing byte buffer: doubling reallocation that refines appending. */
module CBuffer {
  import opened Bytes

  const FIRST_CAPACITY: nat := 128

  /** 128 times a power of two. */
  predicate Doubled(cap: nat) {
    cap == FIRST_CAPACITY || (cap > FIRST_CAPACITY && cap % 2 == 0 && Doubled(cap / 2))
  }

  /** The bytes of a little-endian integer are its shifted-down low bytes. */
  lemma {:induction false} LeByShifts(v: nat, k: nat, i: nat)
    requires i < k
    ensures Le(v, k)[i] == v / Pow256(i) % 256
  {
    if i > 0 {
      LeByShifts(v / 256, k - 1, i - 1);
      DivDiv(v, Pow256(i - 1));
    }
  }

  lemma {:induction false} DivDiv(v: nat, p: nat)
    requires p >= 1
    ensures v / 256 / p == v / (256 * p)
  {
    var q := v / 256 / p;
    var r := v / 256 - q * p;
    assert v == 256 * (q * p + r) + v % 256;
    assert 0 <= 256 * r + v % 256 < 256 * p;
    assert v == q * (256 * p) + (256 * r + v % 256);
    QuotientIs(v, 256 * p, q, 256 * r + v % 256);
  }

  lemma {:induction false} QuotientIs(v: int, d: int, q: int, r: int)
    requires d > 0 && 0 <= r < d && v == q * d + r
    ensures v / d == q
  {
    var e := v / d - q;
    assert e >= 1 ==> e * d >= d;
    assert e <= -1 ==> e * d <= -d;
    assert e * d == r - v % d;
  }

  lemma {:induction false} LeFour(v: nat)
    ensures Le(v, 4) == [v % 256, v / 256 % 256, v / 65536 % 256, v / 16777216 % 256]
  {
    assert Pow256(1) == 256 && Pow256(2) == 65536 && Pow256(3) == 16777216;
    LeByShifts(v, 4, 0);
    LeByShifts(v, 4, 1);
    LeByShifts(v, 4, 2);
    LeByShifts(v, 4, 3);
  }

  class DeepBuf {
    var data: array<byte>
    var len: nat
    // Bytes moved by all reallocations so far, counting each at its full old capacity.
    ghost var moved: nat

    /** The shape between a reservation and the append it is for. */
    ghost predicate Shape()
      reads this, data
    {
      && len <= data.Length
      && (data.Length == 0 || Doubled(data.Length))
      && (if data.Length == 0 then moved == 0 else moved < data.Length)
    }

    ghost predicate Valid()
      reads this, data
    {
      Shape() && (data.Length <= FIRST_CAPACITY || data.Length < 2 * len)
    }

    function Contents(): (s: seq<byte>)
      requires len <= data.Length
      reads this, data
      ensures |s| == len
    {
      data[..len]
    }

    constructor ()
      ensures Valid() && Contents() == [] && fresh(data)
    {
      data := new byte[0];
      len := 0;
      moved := 0;
    }

    /** Makes room for `want` more bytes. The contents stay; the capacity doubles until it is enough,
        and ends below twice what is needed. */
    method Reserve(want: nat)
      requires Valid()
      modifies this
      ensures Shape() && Contents() == old(Contents()) && len == old(len)
      ensures len + want <= data.Length
      ensures data.Length <= 128 || data.Length < 2 * (len + want)
      ensures data == old(data) || fresh(data)
      ensures moved == old(moved) || moved == old(moved) + old(data.Length)
    {
      var need := len + want;
      if need <= data.Length {
        return;
      }
      var newCap := if data.Length == 0 then FIRST_CAPACITY else data.Length;
      while need > newCap
        invariant newCap >= data.Length && newCap > 0 && Doubled(newCap)
        invariant newCap == FIRST_CAPACITY || newCap < 2 * need
        invariant newCap == data.Length || newCap >= 2 * data.Length
        decreases need - newCap
      {
        newCap := newCap * 2;
      }
      var p := new byte[newCap](_ => 0);
      forall i | 0 <= i < len {
        p[i] := data[i];
      }
      assert p[..len] == data[..len];
      moved := moved + data.Length;
      data := p;
    }

    method U8(v: byte)
      requires Valid()
      modifies this, data
      ensures Valid() && (data == old(data) || fresh(data))
      ensures Contents() == old(Contents()) + [v]
    {
      Reserve(1);
      data[len] := v;
      len := len + 1;
    }

    method U32(v: nat)
      requires Valid()
      modifies this, data
      ensures Valid() && (data == old(data) || fresh(data))
      ensures Contents() == old(Contents()) + Le(v, 4)
    {
      ghost var was := Contents();
      Reserve(4);
      LeFour(v);
      data[len] := v % 256;
      data[len + 1] := v / 256 % 256;
      data[len + 2] := v / 65536 % 256;
      data[len + 3] := v / 16777216 % 256;
      len := len + 4;
      assert Contents()[..|was|] == was;
      assert Contents()[|was|..] == Le(v, 4);
      assert Contents() == Contents()[..|was|] + Contents()[|was|..];
    }

    method U64(v: nat)
      requires Valid()
      modifies this, data
      ensures Valid() && (data == old(data) || fresh(data))
      ensures Contents() == old(Contents()) + Le(v, 8)
    {
      ghost var was := Contents();
      Reserve(8);
      for i := 0 to 8
        invariant Shape() && (data == old(data) || fresh(data))
        invariant len == |was| + i && |was| + 8 <= data.Length
        invariant data.Length <= FIRST_CAPACITY || data.Length < 2 * (|was| + 8)
        invariant Contents() == was + Le(v, 8)[..i]
      {
        LeByShifts(v, 8, i);
        data[len] := v / Pow256(i) % 256;
        len := len + 1;
        assert Le(v, 8)[..i + 1] == Le(v, 8)[..i] + [Le(v, 8)[i]];
      }
      assert Le(v, 8)[..8] == Le(v, 8);
    }

    method Append(src: seq<byte>)
      requires Valid()
      modifies this, data
      ensures Valid() && (data == old(data) || fresh(data))
      ensures Contents() == old(Contents()) + src
    {
      ghost var was := Contents();
      Reserve(|src|);
      Copy(src);
      len := len + |src|;
      assert Contents() == data[..|was|] + data[|was|..|was| + |src|];
    }

    /** Bytes written behind the contents, where there is room. */
    method Copy(src: seq<byte>)
      requires len + |src| <= data.Length
      modifies data
      ensures data[..len] == old(data[..len]) && data[len..len + |src|] == src
    {
      forall i | 0 <= i < |src| {
        data[len + i] := src[i];
      }
    }

    method Str(s: seq<byte>)
      requires Valid()
      modifies this, data
      ensures Valid() && (data == old(data) || fresh(data))
      ensures Contents() == old(Contents()) + (Le(|s|, 4) + s)
    {
      ghost var was := Contents();
      U32(|s|);
      Append(s);
      assert (was + Le(|s|, 4)) + s == was + (Le(|s|, 4) + s);
    }
  }
}
