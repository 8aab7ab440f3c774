/** The seekable writer that every codec writes to. */
module Streams {
  import opened Bytes

  function ByteAt(s: seq<byte>, i: nat): (b: byte) {
    if i < |s| then s[i] else 0
  }

  /** The bytes of `s` from one position to another, with zeros where `s` has none. */
  function Between(s: seq<byte>, from: nat, to: nat): (r: seq<byte>)
    requires from <= to
    ensures |r| == to - from
  {
    seq<byte>(to - from, i requires 0 <= i => ByteAt(s, from + i))
  }

  lemma {:induction false} BehindTwice(s: seq<byte>, m: nat, n: nat)
    ensures Behind(Behind(s, m), n) == Behind(s, m + n)
  {
  }

  /** A growable, seekable byte stream. */
  class Writer {
    var bytes: seq<byte>
    var pos: nat

    /** There is no gap before the position. */
    ghost predicate Dense()
      reads this
    {
      pos <= |bytes|
    }

    /** What lies before the position, a gap counted as zeros. */
    ghost function Front(): (s: seq<byte>)
      reads this
      ensures |s| == pos
    {
      Between(bytes, 0, pos)
    }

    /** What lies behind the position. */
    ghost function Back(): (s: seq<byte>)
      reads this
    {
      Behind(bytes, pos)
    }

    /** Without a gap there is nothing but these two parts. */
    lemma {:induction false} Whole()
      requires Dense()
      ensures Front() == bytes[..pos] && Back() == bytes[pos..]
      ensures bytes == Front() + Back()
    {
    }

    constructor ()
      ensures bytes == [] && pos == 0
    {
      bytes, pos := [], 0;
    }

    /** Writes at the current position: into the stream, over its end, or behind a zero-filled gap. */
    method Write(data: seq<byte>)
      modifies this
      ensures pos == old(pos) + |data|
      ensures bytes == if data == [] then old(bytes) else Overwrite(old(bytes), old(pos), data)
      ensures Front() == old(Front()) + data && Back() == Behind(old(Back()), |data|)
      ensures old(Dense()) || data != [] ==> Dense()
    {
      OverwriteCases(bytes, pos, data);
      if data != [] {
        bytes := Overwrite(bytes, pos, data);
      }
      pos := pos + |data|;
    }

    method SeekTo(position: nat)
      modifies this`pos
      ensures pos == position
    {
      pos := position;
    }
  }
}
