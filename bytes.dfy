/** The byte-slice primitives sweeper.go relies on: bytes.Index, the
    built-in copy, make([]byte, n), and the all-zero test behind isBufZero. */
module Bytes {
  import opened Source

  function Min(a: int, b: int): (m: int)
    ensures m <= a && m <= b && (m == a || m == b)
  {
    if a <= b then a else b
  }

  /** needle occurs in hay starting at position j. */
  predicate OccursAt(hay: seq<byte>, needle: seq<byte>, j: int)
  {
    0 <= j && j + |needle| <= |hay| && hay[j..j + |needle|] == needle
  }

  lemma OccursAtTail(hay: seq<byte>, needle: seq<byte>, j: int)
    requires |hay| > 0 && 0 <= j
    ensures OccursAt(hay[1..], needle, j) <==> OccursAt(hay, needle, j + 1)
  {
    if j + |needle| <= |hay[1..]| {
      assert hay[1..][j..j + |needle|] == hay[j + 1..j + 1 + |needle|];
    }
  }

  /** bytes.Index: the position of the first occurrence of needle in hay, or
      -1 when there is none. An empty needle occurs at 0. */
  function IndexOf(hay: seq<byte>, needle: seq<byte>): (i: int)
    ensures -1 <= i && i <= |hay|
    ensures i >= 0 ==> OccursAt(hay, needle, i)
    ensures i >= 0 ==> forall j :: 0 <= j < i ==> !OccursAt(hay, needle, j)
    ensures i == -1 <==> forall j :: !OccursAt(hay, needle, j)
    decreases |hay|
  {
    if |hay| < |needle| then -1
    else if hay[..|needle|] == needle then
      assert OccursAt(hay, needle, 0);
      0
    else
      var k := IndexOf(hay[1..], needle);
      forall j | 1 <= j
        ensures OccursAt(hay[1..], needle, j - 1) <==> OccursAt(hay, needle, j)
      {
        OccursAtTail(hay, needle, j - 1);
      }
      assert !OccursAt(hay, needle, 0);
      if k < 0 then -1 else k + 1
  }

  /** The first occurrence of needle is at k. */
  lemma IndexOfIs(hay: seq<byte>, needle: seq<byte>, k: int)
    requires OccursAt(hay, needle, k)
    requires forall j :: 0 <= j < k ==> !OccursAt(hay, needle, j)
    ensures IndexOf(hay, needle) == k
  {
  }

  /** A needle whose first byte hay never holds does not occur in hay. */
  lemma NotIn(hay: seq<byte>, needle: seq<byte>)
    requires |needle| > 0 && forall i :: 0 <= i < |hay| ==> hay[i] != needle[0]
    ensures IndexOf(hay, needle) == -1
  {
    forall j
      ensures !OccursAt(hay, needle, j)
    {
      if 0 <= j && j + |needle| <= |hay| {
        assert hay[j..j + |needle|][0] == hay[j];
      }
    }
  }

  /** An occurrence that ends inside a is an occurrence in a + b, and back. */
  lemma OccursInPrefix(a: seq<byte>, b: seq<byte>, needle: seq<byte>, j: int)
    requires j + |needle| <= |a|
    ensures OccursAt(a + b, needle, j) <==> OccursAt(a, needle, j)
  {
    if 0 <= j {
      assert (a + b)[j..j + |needle|] == a[j..j + |needle|];
    }
  }

  /** A needle whose last byte is not zero cannot end inside zero padding:
      every occurrence in hay ends at or before w when hay[w:] is all zero. */
  lemma OccursBeforePadding(hay: seq<byte>, w: nat, needle: seq<byte>, j: int)
    requires w <= |hay| && AllZero(hay[w..])
    requires |needle| > 0 && needle[|needle| - 1] != 0
    requires OccursAt(hay, needle, j)
    ensures j + |needle| <= w
  {
    var k := j + |needle| - 1;
    assert hay[k] == needle[|needle| - 1] by {
      assert hay[j..j + |needle|][|needle| - 1] == hay[k];
    }
    assert forall i :: w <= i < |hay| ==> hay[i] == hay[w..][i - w] == 0;
  }

  /** line ends with suffix. */
  predicate EndsWith(line: seq<byte>, suffix: seq<byte>)
  {
    |suffix| <= |line| && line[|line| - |suffix|..] == suffix
  }

  /** A prefix of hay can only end with needle where needle occurs in hay. */
  lemma PrefixEndsWithOccurrence(hay: seq<byte>, k: int, needle: seq<byte>)
    requires 0 <= k <= |hay|
    ensures EndsWith(hay[..k], needle) <==> k >= |needle| && OccursAt(hay, needle, k - |needle|)
  {
    if k >= |needle| {
      assert hay[..k][k - |needle|..] == hay[k - |needle|..k];
    }
  }

  predicate AllZero(s: seq<byte>)
  {
    forall i :: 0 <= i < |s| ==> s[i] == 0
  }

  /** make([]byte, n). */
  function Zeros(n: nat): (z: seq<byte>)
    ensures |z| == n && AllZero(z)
  {
    seq(n, _ => 0)
  }

  /** The built-in copy(dst, src), as the value dst holds afterwards: the first
      min(len(dst), len(src)) bytes come from src, the rest are left alone. */
  function CopyInto(dst: seq<byte>, src: seq<byte>): (r: seq<byte>)
    ensures |r| == |dst|
    ensures forall i :: 0 <= i < |r| ==> r[i] == if i < |src| then src[i] else dst[i]
  {
    if |src| >= |dst| then src[..|dst|] else src + dst[|src|..]
  }

  /** The buffer after a reader has written data into buf[at:]. */
  function WriteAt(buf: seq<byte>, at: nat, data: seq<byte>): (r: seq<byte>)
    requires at + |data| <= |buf|
    ensures |r| == |buf|
    ensures r[..at] == buf[..at] && r[at..at + |data|] == data && r[at + |data|..] == buf[at + |data|..]
    ensures data == [] ==> r == buf
  {
    var r := buf[..at] + CopyInto(buf[at..], data);
    assert r[at..at + |data|] == data;
    r
  }

  /** The built-in copy(dst, src) on an array destination. */
  method Copy(dst: array<byte>, src: seq<byte>) returns (n: nat)
    modifies dst
    ensures n == Min(dst.Length, |src|)
    ensures dst[..] == CopyInto(old(dst[..]), src)
    ensures dst[..n] == src[..n] && dst[n..] == old(dst[n..])
  {
    n := Min(dst.Length, |src|);
    forall i | 0 <= i < n {
      dst[i] := src[i];
    }
  }
}
