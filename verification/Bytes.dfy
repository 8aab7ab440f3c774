/** Byte strings, fixed-width integers and in-place overwriting, shared by every codec. */
module Bytes {
  type byte = b: int | 0 <= b < 256

  const U16: nat := 0x1_0000
  const U24: nat := 0x100_0000
  const U32: nat := 0x1_0000_0000
  const U64: nat := 0x1_0000_0000_0000_0000

  datatype Option<+T> = None | Some(value: T)

  datatype Result<+T, +E> = Ok(value: T) | Err(error: E)

  /** The number of values a `width`-byte field can hold. */
  function Capacity(width: nat): (c: nat)
    ensures c > 0
  {
    if width == 0 then 1 else 256 * Capacity(width - 1)
  }

  lemma {:induction false} Capacities()
    ensures Capacity(1) == 256
    ensures Capacity(2) == U16
    ensures Capacity(3) == U24
    ensures Capacity(4) == U32
    ensures Capacity(8) == U64
  {
    assert Capacity(4) == 256 * Capacity(3);
    assert Capacity(6) == 256 * Capacity(5) == 256 * 256 * Capacity(4);
    assert Capacity(8) == 256 * Capacity(7) == 256 * 256 * Capacity(6);
  }

  /** Little-endian encoding; higher bytes of an oversized `n` are dropped, as an `as` cast does. */
  function LE(n: nat, width: nat): (s: seq<byte>)
    ensures |s| == width
  {
    if width == 0 then [] else [n % 256] + LE(n / 256, width - 1)
  }

  function FromLE(s: seq<byte>): (n: nat)
    ensures n < Capacity(|s|)
  {
    if s == [] then 0 else s[0] + 256 * FromLE(s[1..])
  }

  lemma {:induction false} FromLEofLE(n: nat, width: nat)
    ensures FromLE(LE(n, width)) == n % Capacity(width)
  {
    if width > 0 {
      FromLEofLE(n / 256, width - 1);
      assert LE(n, width)[1..] == LE(n / 256, width - 1);
      DivMod256(n, Capacity(width - 1));
    }
  }

  lemma {:induction false} DivMod256(n: nat, c: nat)
    requires c > 0
    ensures n % (256 * c) == n % 256 + 256 * (n / 256 % c)
  {
    var q, m := n / 256, n % 256;
    var k, r := q / c, q % c;
    assert q == k * c + r;
    assert n == 256 * (k * c + r) + m;
    assert 256 * (k * c) == k * (256 * c);
    assert n == k * (256 * c) + (256 * r + m);
    assert 0 <= 256 * r + m < 256 * c;
    EuclidUnique(n, 256 * c, k, 256 * r + m);
  }

  lemma {:induction false} EuclidUnique(n: int, d: nat, k: int, r: int)
    requires d > 0 && n == k * d + r && 0 <= r < d
    ensures n / d == k && n % d == r
  {
    var q, s := n / d, n % d;
    assert n == d * q + s;
    assert (q - k) * d == r - s by {
      assert (q - k) * d == q * d - k * d;
    }
    AtLeastOnce(q - k, d);
    AtLeastOnce(k - q, d);
  }

  lemma {:induction false} AtLeastOnce(x: int, d: nat)
    ensures x >= 1 ==> x * d >= d
  {
    if x >= 1 {
      assert x * d == (x - 1) * d + d;
    }
  }

  /** A value that fits its field survives the trip. */
  lemma {:induction false} LERoundTrip(n: nat, width: nat)
    requires n < Capacity(width)
    ensures FromLE(LE(n, width)) == n
  {
    FromLEofLE(n, width);
    EuclidUnique(n, Capacity(width), 0, n);
  }

  /** A number reads back from a field exactly when it fits the field. */
  lemma {:induction false} FitsField(n: nat, width: nat)
    ensures FromLE(LE(n, width)) == n <==> n < Capacity(width)
  {
    if n < Capacity(width) {
      LERoundTrip(n, width);
    }
  }

  /** Big-endian encoding, most significant byte first. */
  function BE(n: nat, width: nat): (s: seq<byte>)
    ensures |s| == width
  {
    if width == 0 then [] else BE(n / 256, width - 1) + [n % 256]
  }

  function FromBE(s: seq<byte>): (n: nat)
    ensures n < Capacity(|s|)
  {
    if s == [] then 0 else 256 * FromBE(s[..|s| - 1]) + s[|s| - 1]
  }

  lemma {:induction false} FromBEofBE(n: nat, width: nat)
    ensures FromBE(BE(n, width)) == n % Capacity(width)
  {
    if width > 0 {
      FromBEofBE(n / 256, width - 1);
      assert BE(n, width)[..width - 1] == BE(n / 256, width - 1);
      DivMod256(n, Capacity(width - 1));
    }
  }

  function Zeros(n: nat): (s: seq<byte>)
    ensures |s| == n
    ensures forall i :: 0 <= i < n ==> s[i] == 0
  {
    seq(n, _ => 0)
  }

  /** Bytes still missing to the next multiple of `unit`. */
  function Padding(position: nat, unit: nat): (p: nat)
    requires unit > 0
    ensures p < unit
  {
    if position == 0 then 0
    else if position < unit then unit - position
    else Padding(position - unit, unit)
  }

  lemma {:induction false} PaddingAligns(position: nat, unit: nat)
    requires unit > 0
    ensures (position + Padding(position, unit)) % unit == 0
    ensures Padding(position, unit) == (unit - position % unit) % unit
  {
    if position == 0 {
      EuclidUnique(0, unit, 0, 0);
      EuclidUnique(unit, unit, 1, 0);
    } else if position < unit {
      EuclidUnique(unit, unit, 1, 0);
      EuclidUnique(position, unit, 0, position);
      EuclidUnique(unit - position, unit, 0, unit - position);
    } else {
      PaddingAligns(position - unit, unit);
      ModShift(position - unit, unit);
      ModShift(position - unit + Padding(position - unit, unit), unit);
    }
  }

  lemma {:induction false} ModShift(n: nat, unit: nat)
    requires unit > 0
    ensures (n + unit) % unit == n % unit
  {
    assert n == (n / unit) * unit + n % unit;
    assert (n / unit + 1) * unit == (n / unit) * unit + unit;
    EuclidUnique(n + unit, unit, n / unit + 1, n % unit);
  }

  /** Counting from an aligned position needs the same padding. */
  lemma {:induction false} PaddingFromAligned(base: nat, length: nat, unit: nat)
    requires unit > 0 && base % unit == 0
    ensures Padding(base + length, unit) == Padding(length, unit)
    decreases base
  {
    if 0 < base < unit {
      EuclidUnique(base, unit, 0, base);
      assert false;
    } else if base > 0 {
      ModShift(base - unit, unit);
      PaddingFromAligned(base - unit, length, unit);
    }
  }

  /** `s` with the bytes from `at` onward replaced by `data`. */
  function Splice(s: seq<byte>, at: nat, data: seq<byte>): (r: seq<byte>)
    requires at + |data| <= |s|
    ensures |r| == |s|
  {
    s[..at] + data + s[at + |data|..]
  }

  lemma {:induction false} SpliceHead(head: seq<byte>, tail: seq<byte>, at: nat, data: seq<byte>)
    requires at + |data| <= |head|
    ensures Splice(head + tail, at, data) == Splice(head, at, data) + tail
  {
  }

  lemma {:induction false} SpliceTail(head: seq<byte>, tail: seq<byte>, at: nat, data: seq<byte>)
    requires at + |data| <= |tail|
    ensures Splice(head + tail, |head| + at, data) == head + Splice(tail, at, data)
  {
  }

  function Grown(s: seq<byte>, n: nat): (r: seq<byte>)
    ensures |r| == if |s| < n then n else |s|
  {
    if |s| < n then s + Zeros(n - |s|) else s
  }

  /** The effect of writing `data` at `position` of a growable buffer: a gap is zero-filled. */
  function Overwrite(s: seq<byte>, position: nat, data: seq<byte>): (r: seq<byte>)
    ensures |r| == if |s| < position + |data| then position + |data| else |s|
  {
    Splice(Grown(s, position + |data|), position, data)
  }

  lemma {:induction false} OverwriteCases(s: seq<byte>, position: nat, data: seq<byte>)
    ensures position == |s| ==> Overwrite(s, position, data) == s + data
    ensures position + |data| <= |s| ==> Overwrite(s, position, data) == Splice(s, position, data)
    ensures position > |s| ==> Overwrite(s, position, data) == Grown(s, position) + data
    ensures position < |s| < position + |data| ==> Overwrite(s, position, data) == s[..position] + data
  {
  }

  /** Everything from `n` on: nothing, past the end. */
  function Behind(s: seq<byte>, n: nat): (rest: seq<byte>) {
    if n <= |s| then s[n..] else []
  }

  lemma {:induction false} Associative(x: seq<byte>, y: seq<byte>, z: seq<byte>)
    ensures x + (y + z) == (x + y) + z
  {
  }
}
