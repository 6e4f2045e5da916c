/** memcpy of the C library. */
module Memory {

  /** Into dst[at..at + |src|]; nothing else changes. */
  method Memcpy<T>(dst: array<T>, at: nat, src: seq<T>)
    requires at + |src| <= dst.Length
    modifies dst
    ensures dst[..] == old(dst[..])[..at] + src + old(dst[..])[at + |src|..]
    ensures dst[..at] == old(dst[..at]) && dst[at..at + |src|] == src
    ensures forall i | 0 <= i < dst.Length && !(at <= i < at + |src|) :: dst[i] == old(dst[i])
  {
    ghost var was := dst[..];
    for k := 0 to |src|
      invariant dst[..] == was[..at] + src[..k] + was[at + k..]
    {
      dst[at + k] := src[k];
      assert src[..k + 1] == src[..k] + [src[k]];
    }
    assert src[..|src|] == src;
    Spliced(dst[..], was, at, src);
  }

  lemma Spliced<T>(s: seq<T>, was: seq<T>, at: nat, src: seq<T>)
    requires at + |src| <= |was| && s == was[..at] + src + was[at + |src|..]
    ensures s[..at] == was[..at] && s[at..at + |src|] == src
    ensures forall i | 0 <= i < |s| && !(at <= i < at + |src|) :: s[i] == was[i]
  {
  }

  lemma SliceOfPrefix<T>(s: seq<T>, n: nat, i: nat, j: nat)
    requires i <= j <= n <= |s|
    ensures s[..n][i..j] == s[i..j]
  {
  }

  lemma SliceExtends<T>(a: seq<T>, a': seq<T>, lo: nat, mid: nat, hi: nat)
    requires lo <= mid <= hi <= |a'| == |a| && a'[..mid] == a[..mid]
    ensures a'[lo..hi] == a[lo..mid] + a'[mid..hi] && a'[..lo] == a[..lo]
  {
    assert a'[lo..mid] == a'[..mid][lo..] && a[lo..mid] == a[..mid][lo..];
    assert a'[..lo] == a'[..mid][..lo] && a[..lo] == a[..mid][..lo];
  }
}
