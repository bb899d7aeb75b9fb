/** Little-endian packing as in Python's `struct`, and its inverse. */
module Bytes {

  type Byte = b: int | 0 <= b < 256

  /** One more than the largest number that fits into k bytes. */
  function Bound(k: nat): nat {
    if k == 0 then 1 else 256 * Bound(k - 1)
  }

  lemma Bounds()
    ensures Bound(1) == 0x100 && Bound(2) == 0x1_0000 && Bound(4) == 0x1_0000_0000 && Bound(8) == 0x1_0000_0000_0000_0000
  {
    assert Bound(2) == 256 * Bound(1) && Bound(3) == 256 * Bound(2) && Bound(4) == 256 * Bound(3);
    assert Bound(5) == 256 * Bound(4) && Bound(6) == 256 * Bound(5) && Bound(7) == 256 * Bound(6);
  }

  function LittleEndian(n: nat, k: nat): (bytes: seq<Byte>)
    ensures |bytes| == k
  {
    if k == 0 then [] else [n % 256] + LittleEndian(n / 256, k - 1)
  }

  function FromLittleEndian(bytes: seq<Byte>): nat {
    if bytes == [] then 0 else bytes[0] + 256 * FromLittleEndian(bytes[1..])
  }

  lemma {:induction false} NumberRoundTrip(n: nat, k: nat)
    requires n < Bound(k)
    ensures FromLittleEndian(LittleEndian(n, k)) == n
  {
    if k > 0 {
      NumberRoundTrip(n / 256, k - 1);
      assert LittleEndian(n, k)[1..] == LittleEndian(n / 256, k - 1);
    }
  }

  // ---------------------------------------------------------------- records

  type Format = seq<nat>

  ghost predicate Fits(values: seq<nat>, format: Format) {
    |values| == |format| && forall i | 0 <= i < |values| :: values[i] < Bound(format[i])
  }

  function Size(format: Format): nat {
    if format == [] then 0 else format[0] + Size(format[1..])
  }

  lemma SizeOfFour(format: Format)
    requires |format| >= 4
    ensures Size(format) == format[0] + format[1] + format[2] + format[3] + Size(format[4..])
  {
    assert format[1..][1..] == format[2..] && format[2..][1..] == format[3..] && format[3..][1..] == format[4..];
  }

  function Pack(values: seq<nat>, format: Format): (bytes: seq<Byte>)
    requires |values| == |format|
    ensures |bytes| == Size(format)
  {
    if values == [] then [] else LittleEndian(values[0], format[0]) + Pack(values[1..], format[1..])
  }

  function Unpack(bytes: seq<Byte>, pos: nat, format: Format): (values: seq<nat>)
    requires pos + Size(format) <= |bytes|
    ensures |values| == |format|
    decreases |format|
  {
    if format == [] then []
    else [FromLittleEndian(bytes[pos..pos + format[0]])] + Unpack(bytes, pos + format[0], format[1..])
  }

  lemma {:induction false} PackConcat(a: seq<nat>, f: Format, b: seq<nat>, g: Format)
    requires |a| == |f| && |b| == |g|
    ensures Pack(a + b, f + g) == Pack(a, f) + Pack(b, g)
    decreases |a|
  {
    if a == [] {
      assert a + b == b && f + g == g;
    } else {
      assert (a + b)[0] == a[0] && (a + b)[1..] == a[1..] + b && (f + g)[0] == f[0] && (f + g)[1..] == f[1..] + g;
      PackConcat(a[1..], f[1..], b, g);
    }
  }

  /** The piece occupies the bytes from `pos` on. */
  ghost predicate At(bytes: seq<Byte>, pos: nat, piece: seq<Byte>) {
    pos + |piece| <= |bytes| && bytes[pos..pos + |piece|] == piece
  }

  lemma AtSplits(bytes: seq<Byte>, pos: nat, a: seq<Byte>, b: seq<Byte>)
    ensures At(bytes, pos, a + b) <==> At(bytes, pos, a) && At(bytes, pos + |a|, b)
  {
    if pos + |a| + |b| <= |bytes| {
      var whole := bytes[pos..pos + |a| + |b|];
      assert whole[..|a|] == bytes[pos..pos + |a|];
      assert whole[|a|..] == bytes[pos + |a|..pos + |a| + |b|];
      assert whole == whole[..|a|] + whole[|a|..];
      if whole == a + b {
        assert (a + b)[..|a|] == a && (a + b)[|a|..] == b;
      }
    }
  }

  lemma {:induction false} RecordRoundTrip(bytes: seq<Byte>, pos: nat, values: seq<nat>, format: Format)
    requires Fits(values, format) && At(bytes, pos, Pack(values, format))
    ensures Unpack(bytes, pos, format) == values
    decreases |format|
  {
    if format != [] {
      var head, rest := LittleEndian(values[0], format[0]), Pack(values[1..], format[1..]);
      AtSplits(bytes, pos, head, rest);
      NumberRoundTrip(values[0], format[0]);
      RecordRoundTrip(bytes, pos + format[0], values[1..], format[1..]);
      assert values == [values[0]] + values[1..];
    }
  }
}
