/**
 The script's pipeline from the decoded records to the list it prints:
 tally the comments, sort the tally by post id, average it in groups of
 ten, hand the i-th average to the i-th user, and sort by score.
 */
module Pipeline {
  import opened Records
  import opened CommentTally
  import opened KeyOrder
  import opened Chunking
  import opened Ranking

  /**
   The score the pipeline gives the user called `n`: the average of the
   group of ten tally entries at the index of the last user with that name.
   The key-ordered tally is the only strictly ascending listing of the
   tally (`AscendingListingUnique`), so this does not depend on how the
   sort is carried out.
   */
  function UserScore(comments: seq<Comment>, users: seq<User>, n: string): real
    requires n in Names(users)
    requires |users| <= |PostIds(comments)| / 10
  {
    var firstDict := SortByKey(Tally(comments));
    ChunkSum(firstDict, LastIndex(users, n)) as real / 10.0
  }

  /**
   The whole script after decoding. `posts` is decoded but never read.
   The result is the list the final loop prints, in printing order, or the
   index at which assigning averages to users traps.
   */
  method Engagement(comments: seq<Comment>, posts: seq<Post>, users: seq<User>)
    returns (out: Result<seq<Scored>>)
    ensures out.IndexOutOfRange? <==> |PostIds(comments)| / 10 < |users|
    ensures out.IndexOutOfRange? ==> out.index == |PostIds(comments)| / 10
    ensures out.Ok? ==> NonIncreasing(out.value)
    ensures out.Ok? ==> |out.value| == |Names(users)|
    ensures out.Ok? ==> forall i, j :: 0 <= i < j < |out.value| ==> out.value[i].name != out.value[j].name
    ensures out.Ok? ==> forall n :: n in Names(users) ==> exists i :: 0 <= i < |out.value| && out.value[i].name == n
    ensures out.Ok? ==> forall i :: 0 <= i < |out.value| ==>
      out.value[i].name in Names(users) && out.value[i].score == UserScore(comments, users, out.value[i].name)
  {
    var countComments := TallyComments(comments);
    var firstDict := SortByKey(countComments);
    var avgs := ChunkAverages(firstDict);
    var assignment := AssignScores(users, avgs);
    match assignment {
      case IndexOutOfRange(index) =>
        out := IndexOutOfRange(index);
      case Ok(countUserAvgs) =>
        var sorted := SortByScore(countUserAvgs);
        RankedNames(users, countUserAvgs, sorted);
        RankedScores(comments, users, avgs, countUserAvgs, sorted);
        out := Ok(sorted);
    }
  }

  /** Every user's name appears in the ranking list. */
  lemma RankedNames(users: seq<User>, scores: map<string, real>, sorted: seq<Scored>)
    requires scores.Keys == Names(users)
    requires ListsScores(sorted, scores)
    ensures forall n :: n in Names(users) ==> exists i :: 0 <= i < |sorted| && sorted[i].name == n
  {
    forall n | n in Names(users)
      ensures exists i :: 0 <= i < |sorted| && sorted[i].name == n
    {
      var i :| 0 <= i < |sorted| && sorted[i] == Scored(n, scores[n]);
    }
  }

  /** Each entry of the ranking list carries the score of its user's group. */
  lemma RankedScores(comments: seq<Comment>, users: seq<User>, avgs: seq<real>,
                     scores: map<string, real>, sorted: seq<Scored>)
    requires |users| <= |avgs| == |PostIds(comments)| / 10
    requires forall k :: 0 <= k < |avgs| ==>
      avgs[k] == ChunkSum(SortByKey(Tally(comments)), k) as real / 10.0
    requires scores.Keys == Names(users)
    requires forall n :: n in scores ==> scores[n] == avgs[LastIndex(users, n)]
    requires forall i :: 0 <= i < |sorted| ==> sorted[i].name in scores && sorted[i].score == scores[sorted[i].name]
    ensures forall i :: 0 <= i < |sorted| ==>
      sorted[i].name in Names(users) && sorted[i].score == UserScore(comments, users, sorted[i].name)
  {
    forall i | 0 <= i < |sorted|
      ensures sorted[i].name in Names(users)
      ensures sorted[i].score == UserScore(comments, users, sorted[i].name)
    {
      var n := sorted[i].name;
      assert sorted[i].score == avgs[LastIndex(users, n)];
    }
  }

  /**
   Every comment ends up either in one of the complete groups of ten that
   become scores, or in the trailing group that is dropped.
   */
  lemma CommentsAccountedFor(comments: seq<Comment>)
    ensures var firstDict := SortByKey(Tally(comments));
            var groups := |firstDict| / 10;
            && |firstDict| - 10 * groups < 10
            && SumChunks(firstDict, groups) + Sum(firstDict[10 * groups..]) == |comments|
  {
    TallyTotal(comments);
    DroppedTail(SortByKey(Tally(comments)));
  }
}
