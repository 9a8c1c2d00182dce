/** Byte strings and the few Python operations on them that the evidence pipeline relies on. */
module Bytes {

  datatype Option<+T> = None | Some(value: T)

  datatype Result<+T, +E> = Ok(value: T) | Err(error: E)

  type byte = x: int | 0 <= x < 256

  type bytes = seq<byte>

  /** `int.from_bytes(bs, "big")`; the empty string reads as zero. */
  function BE(bs: bytes): nat {
    if bs == [] then 0 else 256 * BE(bs[..|bs| - 1]) + bs[|bs| - 1]
  }

  function Pow256(k: nat): (p: nat)
    ensures p >= 1
  {
    if k == 0 then 1 else 256 * Pow256(k - 1)
  }

  /** `n.to_bytes(width, "big")` */
  function ToBE(n: nat, width: nat): (bs: bytes)
    requires n < Pow256(width)
    ensures |bs| == width && BE(bs) == n
  {
    if width == 0 then [] else ToBE(n / 256, width - 1) + [n % 256]
  }

  /** A field of known width determines its bytes. */
  lemma {:induction false} BEInjective(a: bytes, b: bytes)
    requires |a| == |b| && BE(a) == BE(b)
    ensures a == b
  {
    if |a| > 0 {
      BEInjective(a[..|a| - 1], b[..|b| - 1]);
      assert a == a[..|a| - 1] + [a[|a| - 1]] && b == b[..|b| - 1] + [b[|b| - 1]];
    }
  }

  lemma {:induction false} BEBound(bs: bytes)
    ensures BE(bs) < Pow256(|bs|)
  {
    if bs != [] {
      BEBound(bs[..|bs| - 1]);
    }
  }

  lemma ToBEInverts(bs: bytes)
    ensures BE(bs) < Pow256(|bs|) && ToBE(BE(bs), |bs|) == bs
  {
    BEBound(bs);
    BEInjective(ToBE(BE(bs), |bs|), bs);
  }

  lemma ReadsTwoBytes(bs: bytes)
    ensures |bs| == 2 ==> BE(bs) == 256 * (bs[0] as int) + bs[1] as int
  {
    if |bs| == 2 {
      assert bs[..1] == [bs[0]] && [bs[0]][..0] == [];
      assert BE([bs[0]]) == bs[0];
    }
  }

  /** Earlier bytes weigh more: the number a string reads as, piece by piece. */
  lemma {:induction false} BEJoins(a: bytes, b: bytes)
    ensures BE(a + b) == BE(a) * Pow256(|b|) + BE(b)
  {
    if b == [] {
      assert a + b == a;
    } else {
      var front := b[..|b| - 1];
      assert (a + b)[..|a + b| - 1] == a + front;
      BEJoins(a, front);
      Rescale(BE(a), Pow256(|front|), BE(front), b[|b| - 1]);
    }
  }

  lemma Rescale(x: nat, p: nat, y: nat, z: nat)
    ensures 256 * (x * p + y) + z == x * (256 * p) + (256 * y + z)
  {
  }

  lemma OneByte(b: byte)
    ensures BE([b]) == b && Pow256(1) == 256
  {
    assert [b][..0] == [];
    assert Pow256(0) == 1;
  }

  function Zeros(n: nat): (z: bytes)
    ensures |z| == n && forall i :: 0 <= i < n ==> z[i] == 0
  {
    seq(n, _ => 0)
  }

  function Concat<T>(parts: seq<seq<T>>): seq<T> {
    if parts == [] then [] else parts[0] + Concat(parts[1..])
  }

  lemma {:induction false} ConcatAppend<T>(a: seq<seq<T>>, b: seq<seq<T>>)
    ensures Concat(a + b) == Concat(a) + Concat(b)
  {
    if a == [] {
      assert a + b == b;
    } else {
      assert (a + b)[1..] == a[1..] + b;
      ConcatAppend(a[1..], b);
    }
  }

  lemma AppendAssociates<T>(a: seq<T>, b: seq<T>, c: seq<T>)
    ensures (a + b) + c == a + (b + c)
  {
  }

  lemma SliceFromFirst<T>(whole: seq<T>, k: nat, n: nat, part: seq<T>)
    requires k < n <= |whole| && part != []
    requires part[0] == whole[k] && part[1..] == whole[k + 1..n]
    ensures part == whole[k..n]
  {
    assert part == [part[0]] + part[1..];
  }

  lemma Middle<T>(a: seq<T>, b: seq<T>, c: seq<T>, whole: seq<T>)
    requires whole == a + b + c
    ensures whole[|a|..|a| + |b|] == b && whole[|a| + |b|..] == c
  {
  }

  /** Python's `s[lo:hi]` for non-negative bounds: both ends are clamped to the length. */
  function Slice(s: bytes, lo: nat, hi: nat): (r: bytes)
    ensures |r| <= |s|
    ensures lo <= hi <= |s| ==> r == s[lo..hi]
  {
    var h := if hi < |s| then hi else |s|;
    if lo <= h then s[lo..h] else []
  }

  /** What is left of `s` after its first `n` bytes, if there are that many. */
  function Drop(s: bytes, n: nat): (r: bytes)
    ensures |r| == if n <= |s| then |s| - n else 0
  {
    if n <= |s| then s[n..] else []
  }

  lemma DropDrop(s: bytes, a: nat, b: nat)
    ensures Drop(Drop(s, a), b) == Drop(s, a + b)
    ensures Slice(Drop(s, a), 0, b) == Slice(s, a, a + b)
  {
  }

  lemma {:induction false} SmallerSet<T>(a: set<T>, b: set<T>)
    requires a <= b
    ensures |a| <= |b|
  {
    if x :| x in a {
      SmallerSet(a - {x}, b - {x});
    }
  }

  lemma SameSet<T>(a: set<T>, b: set<T>)
    requires a <= b && |a| == |b|
    ensures a == b
  {
    if x :| x in b && x !in a {
      SmallerSet(a, b - {x});
    }
  }

  /** Puts `front` before a list that may have failed. */
  function Prefixed<T>(front: seq<T>, list: Option<seq<T>>): Option<seq<T>> {
    match list
    case None => None
    case Some(rest) => Some(front + rest)
  }

  lemma PrefixedTwice<T>(a: seq<T>, b: seq<T>, list: Option<seq<T>>)
    ensures Prefixed(a, Prefixed(b, list)) == Prefixed(a + b, list)
    ensures Prefixed([], list) == list
  {
    if list.Some? {
      AppendAssociates(a, b, list.value);
      assert [] + list.value == list.value;
    }
  }
}
