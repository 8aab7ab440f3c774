/** Byte strings held in pieces, and where each piece lies in the whole. */
module Segments {
  import opened Bytes

  /** All segments, joined in order. */
  function Concat(parts: seq<seq<byte>>): (s: seq<byte>)
  {
    if parts == [] then [] else parts[0] + Concat(parts[1..])
  }

  lemma {:induction false} ConcatSplit(a: seq<seq<byte>>, b: seq<seq<byte>>)
    ensures Concat(a + b) == Concat(a) + Concat(b)
  {
    if a == [] {
      assert a + b == b;
    } else {
      ConcatSplit(a[1..], b);
      assert (a + b)[1..] == a[1..] + b;
      Associative(a[0], Concat(a[1..]), Concat(b));
    }
  }

  lemma {:induction false} ConcatSnoc(a: seq<seq<byte>>, last: seq<byte>)
    ensures Concat(a + [last]) == Concat(a) + last
  {
    ConcatSplit(a, [last]);
    assert Concat([last]) == last + Concat([]);
  }

  /** Bytes held by the segments before `index`. */
  function Before(segments: seq<seq<byte>>, index: nat): (n: nat)
    requires index <= |segments|
    ensures n <= |Concat(segments)|
    ensures index == |segments| ==> n == |Concat(segments)|
  {
    if index == 0 then 0
    else |segments[0]| + Before(segments[1..], index - 1)
  }

  lemma {:induction false} BeforeNext(segments: seq<seq<byte>>, index: nat)
    requires index < |segments|
    ensures Before(segments, index + 1) == Before(segments, index) + |segments[index]|
  {
    if index > 0 {
      BeforeNext(segments[1..], index - 1);
    }
  }

  /** Segment `index` is where `Before` says it is. */
  lemma {:induction false} PieceAt(segments: seq<seq<byte>>, index: nat, from: nat)
    requires index < |segments| && from <= |segments[index]|
    ensures Before(segments, index) + |segments[index]| <= |Concat(segments)|
    ensures Concat(segments)[Before(segments, index) + from..Before(segments, index) + |segments[index]|]
      == segments[index][from..]
  {
    BeforeNext(segments, index);
    var flat, at := Concat(segments), Before(segments, index);
    if index == 0 {
      assert flat[from..|segments[0]|] == segments[0][from..];
    } else {
      PieceAt(segments[1..], index - 1, from);
      var head := |segments[0]|;
      assert flat[head..] == Concat(segments[1..]);
      DropThenSlice(flat, head, at - head + from, at - head + |segments[index]|);
    }
  }

  lemma {:induction false} OffsetBound(segments: seq<seq<byte>>, index: nat, at: nat)
    requires index <= |segments| && at <= (if index < |segments| then |segments[index]| else 0)
    ensures Before(segments, index) + at <= |Concat(segments)|
  {
    if index < |segments| {
      BeforeNext(segments, index);
    }
  }

  lemma {:induction false} DropThenSlice(s: seq<byte>, drop: nat, from: nat, to: nat)
    requires from <= to && drop + to <= |s|
    ensures s[drop..][from..to] == s[drop + from..drop + to]
  {
  }

  lemma {:induction false} JoinSlices(s: seq<byte>, a: nat, b: nat, c: nat)
    requires a <= b <= c <= |s|
    ensures s[a..b] + s[b..c] == s[a..c]
  {
  }

  lemma {:induction false} JoinDrop(s: seq<byte>, a: nat, b: nat)
    requires a <= b <= |s|
    ensures s[a..b] + s[b..] == s[a..]
  {
  }
}
