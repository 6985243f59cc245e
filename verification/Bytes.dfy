/** Bytes, and copying a run of them into a larger run. */
module Bytes {

  type Byte = x: int | 0 <= x < 256

  function Blit(dst: seq<Byte>, at: nat, src: seq<Byte>): (r: seq<Byte>)
    requires at + |src| <= |dst|
    ensures |r| == |dst|
  {
    dst[..at] + src + dst[at + |src|..]
  }

  lemma BlitAt(dst: seq<Byte>, at: nat, src: seq<Byte>)
    requires at + |src| <= |dst|
    ensures Blit(dst, at, src)[at..at + |src|] == src
  {
  }

  lemma BlitElsewhere(dst: seq<Byte>, at: nat, src: seq<Byte>, lo: nat, hi: nat)
    requires at + |src| <= |dst| && lo <= hi <= |dst|
    requires hi <= at || at + |src| <= lo
    ensures Blit(dst, at, src)[lo..hi] == dst[lo..hi]
  {
    var r := Blit(dst, at, src);
    assert forall k | lo <= k < hi :: r[k] == dst[k];
  }

  method Memcpy(dst: array<Byte>, at: nat, src: seq<Byte>)
    requires at + |src| <= dst.Length
    modifies dst
    ensures dst[..] == Blit(old(dst[..]), at, src)
  {
    for k := 0 to |src|
      invariant forall j | 0 <= j < k :: dst[at + j] == src[j]
      invariant forall j | 0 <= j < dst.Length && !(at <= j < at + k) :: dst[j] == old(dst[j])
    {
      dst[at + k] := src[k];
    }
    ghost var r := Blit(old(dst[..]), at, src);
    forall j | 0 <= j < dst.Length
      ensures dst[..][j] == r[j]
    {
      assert at <= j < at + |src| ==> dst[at + (j - at)] == src[j - at];
    }
  }
}
