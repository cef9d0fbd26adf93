/**
 The comment tally: for every post id that occurs in the comments, how many
 comments carry it.
 */
module CommentTally {
  import opened Records

  /** The number of comments whose post id is `p`. */
  function CountOf(cs: seq<Comment>, p: int): nat
  {
    if cs == [] then 0
    else CountOf(cs[..|cs| - 1], p) + (if cs[|cs| - 1].postId == p then 1 else 0)
  }

  /** The post ids that occur in at least one comment. */
  function PostIds(cs: seq<Comment>): set<int>
  {
    set i | 0 <= i < |cs| :: cs[i].postId
  }

  /** The tally the loop builds, as a value. */
  function Tally(cs: seq<Comment>): (m: map<int, int>)
    ensures m.Keys == PostIds(cs) && |m| == |PostIds(cs)|
  {
    var m := map p | p in PostIds(cs) :: CountOf(cs, p);
    assert |m| == |m.Keys|;
    m
  }

  /**
   The tally loop: each comment adds one to its post's entry, which starts
   at zero when the post is not yet in the dictionary.
   */
  method TallyComments(comments: seq<Comment>) returns (countComments: map<int, int>)
    ensures countComments.Keys == PostIds(comments)
    ensures forall p :: p in countComments ==> countComments[p] == CountOf(comments, p)
    ensures countComments == Tally(comments)
  {
    countComments := map[];
    for i := 0 to |comments|
      invariant countComments.Keys == PostIds(comments[..i])
      invariant forall p :: p in countComments ==> countComments[p] == CountOf(comments[..i], p)
    {
      var item := comments[i];
      assert comments[..i + 1][..i] == comments[..i];
      assert PostIds(comments[..i + 1]) == PostIds(comments[..i]) + {item.postId} by {
        forall q | q in PostIds(comments[..i + 1])
          ensures q in PostIds(comments[..i]) + {item.postId}
        {
          var j :| 0 <= j < i + 1 && comments[..i + 1][j].postId == q;
          if j < i { assert comments[..i][j].postId == q; }
        }
        forall q | q in PostIds(comments[..i])
          ensures q in PostIds(comments[..i + 1])
        {
          var j :| 0 <= j < i && comments[..i][j].postId == q;
          assert comments[..i + 1][j].postId == q;
        }
        assert comments[..i + 1][i].postId == item.postId;
      }
      var seen := if item.postId in countComments then countComments[item.postId] else 0;
      if item.postId !in countComments {
        CountPositiveIff(comments[..i], item.postId);
      }
      countComments := countComments[item.postId := seen + 1];
    }
    assert comments[..|comments|] == comments;
  }

  /** A post id occurs in the comments exactly when its count is positive. */
  lemma {:induction false} CountPositiveIff(cs: seq<Comment>, p: int)
    ensures CountOf(cs, p) > 0 <==> p in PostIds(cs)
  {
    if cs != [] {
      var init := cs[..|cs| - 1];
      CountPositiveIff(init, p);
      if p in PostIds(init) {
        var j :| 0 <= j < |init| && init[j].postId == p;
        assert cs[j].postId == p;
      }
      if p in PostIds(cs) && cs[|cs| - 1].postId != p {
        var j :| 0 <= j < |cs| && cs[j].postId == p;
        assert init[j].postId == p;
      }
    }
  }

  /** Every entry of the tally is at least one: posts without comments are absent. */
  lemma TallyPositive(cs: seq<Comment>)
    ensures forall p :: p in Tally(cs) ==> Tally(cs)[p] >= 1
  {
    forall p | p in Tally(cs) ensures Tally(cs)[p] >= 1 {
      CountPositiveIff(cs, p);
    }
  }

  /** The counts of a duplicate-free list of keys, summed. */
  function SumCounts(keys: seq<int>, cs: seq<Comment>): int
  {
    if keys == [] then 0 else SumCounts(keys[..|keys| - 1], cs) + CountOf(cs, keys[|keys| - 1])
  }

  /** How many times `p` occurs in `keys` contributes one more comment for it. */
  lemma {:induction false} SumCountsSnoc(keys: seq<int>, cs: seq<Comment>, c: Comment)
    ensures SumCounts(keys, cs + [c])
         == SumCounts(keys, cs) + |set i | 0 <= i < |keys| && keys[i] == c.postId|
    decreases |keys|
  {
    var cs' := cs + [c];
    assert cs'[..|cs'| - 1] == cs;
    if keys != [] {
      var init := keys[..|keys| - 1];
      SumCountsSnoc(init, cs, c);
      var hits := set i | 0 <= i < |keys| && keys[i] == c.postId;
      var initHits := set i | 0 <= i < |init| && init[i] == c.postId;
      if keys[|keys| - 1] == c.postId {
        assert hits == initHits + {|keys| - 1};
      } else {
        assert hits == initHits;
      }
    }
  }

  /**
   Summed over any duplicate-free list of keys that covers every post id of
   the comments, the counts add up to the number of comments.
   */
  lemma {:induction false} SumCountsCoversAll(keys: seq<int>, cs: seq<Comment>)
    requires forall i, j :: 0 <= i < j < |keys| ==> keys[i] != keys[j]
    requires PostIds(cs) <= set i | 0 <= i < |keys| :: keys[i]
    ensures SumCounts(keys, cs) == |cs|
    decreases |cs|
  {
    if cs == [] {
      SumCountsZero(keys);
    } else {
      var init := cs[..|cs| - 1];
      var c := cs[|cs| - 1];
      assert init + [c] == cs;
      assert PostIds(init) <= PostIds(cs) by {
        forall q | q in PostIds(init) ensures q in PostIds(cs) {
          var j :| 0 <= j < |init| && init[j].postId == q;
          assert cs[j].postId == q;
        }
      }
      SumCountsCoversAll(keys, init);
      SumCountsSnoc(keys, init, c);
      assert c.postId in PostIds(cs) by { assert cs[|cs| - 1].postId == c.postId; }
      assert c.postId in set i | 0 <= i < |keys| :: keys[i];
      var k :| 0 <= k < |keys| && keys[k] == c.postId;
      assert (set i | 0 <= i < |keys| && keys[i] == c.postId) == {k};
    }
  }

  /** Without comments, every key counts zero. */
  lemma {:induction false} SumCountsZero(keys: seq<int>)
    ensures SumCounts(keys, []) == 0
    decreases |keys|
  {
    if keys != [] {
      SumCountsZero(keys[..|keys| - 1]);
    }
  }
}
