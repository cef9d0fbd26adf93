/**
 The averaging loop: the key-ordered counts are summed in consecutive
 groups of ten, and each complete group yields its sum divided by ten.
 A trailing group of fewer than ten entries yields nothing.
 */
module Chunking {
  import opened Records

  /** The sum of the `k`-th complete group of ten entries. */
  function ChunkSum(s: seq<Pair>, k: nat): int
    requires 10 * k + 10 <= |s|
  {
    Sum(s[10 * k..10 * k + 10])
  }

  /** The sums of the first `n` complete groups, added up. */
  function SumChunks(s: seq<Pair>, n: nat): int
    requires 10 * n <= |s|
  {
    if n == 0 then 0 else SumChunks(s, n - 1) + ChunkSum(s, n - 1)
  }

  /**
   The loop over the sorted tally. `userSum` and `count` are reset after
   every tenth entry, at which point the group's average is appended.
   */
  method ChunkAverages(firstDict: seq<Pair>) returns (avgs: seq<real>)
    ensures |avgs| == |firstDict| / 10
    ensures forall k :: 0 <= k < |avgs| ==> avgs[k] == ChunkSum(firstDict, k) as real / 10.0
  {
    avgs := [];
    var userSum := 0;
    var count := 0;
    var convertToFloat := 0.0;
    for i := 0 to |firstDict|
      invariant 0 <= count < 10
      invariant count == i % 10
      invariant |avgs| == i / 10
      invariant userSum == Sum(firstDict[i - count..i])
      invariant forall k :: 0 <= k < |avgs| ==> avgs[k] == ChunkSum(firstDict, k) as real / 10.0
    {
      assert firstDict[i - count..i + 1][..count] == firstDict[i - count..i];
      userSum := firstDict[i].value + userSum;
      convertToFloat := userSum as real;
      count := count + 1;
      if count == 10 {
        assert i + 1 - 10 == 10 * |avgs|;
        avgs := avgs + [convertToFloat / 10.0];
        count := 0;
        userSum := 0;
      }
    }
  }

  /** The first `n` complete groups together hold the first `10 * n` entries. */
  lemma {:induction false} SumChunksPrefix(s: seq<Pair>, n: nat)
    requires 10 * n <= |s|
    ensures SumChunks(s, n) == Sum(s[..10 * n])
  {
    if n == 0 {
      assert s[..0] == [];
    } else {
      SumChunksPrefix(s, n - 1);
      assert s[..10 * n] == s[..10 * (n - 1)] + s[10 * (n - 1)..10 * n];
      SumAppend(s[..10 * (n - 1)], s[10 * (n - 1)..10 * n]);
    }
  }

  /**
   Everything the averages leave out is the trailing group: the total of
   all entries is the total of the complete groups plus fewer than ten
   entries at the end.
   */
  lemma DroppedTail(s: seq<Pair>)
    ensures |s| - 10 * (|s| / 10) < 10
    ensures Sum(s) == SumChunks(s, |s| / 10) + Sum(s[10 * (|s| / 10)..])
  {
    var n := |s| / 10;
    SumChunksPrefix(s, n);
    assert s == s[..10 * n] + s[10 * n..];
    SumAppend(s[..10 * n], s[10 * n..]);
  }
}
