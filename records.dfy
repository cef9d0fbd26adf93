/**
 The decoded records the engagement pipeline starts from, and the key/value
 pairs its intermediate and final lists are made of.
 */
module Records {

  /** A comment, reduced to the post it belongs to and its own id. */
  datatype Comment = Comment(postId: int, id: int)

  /** A blog post, reduced to its owner and its own id. */
  datatype Post = Post(userId: int, id: int)

  /** A user account. */
  datatype User = User(id: int, name: string, username: string)

  /** One entry of the comment tally: a post id and its number of comments. */
  datatype Pair = Pair(key: int, value: int)

  /** One entry of the ranking: a user's name and their score. */
  datatype Scored = Scored(name: string, score: real)

  /** How the script can end: normally, or by trapping on an array index. */
  datatype Result<T> = Ok(value: T) | IndexOutOfRange(index: nat)

  /** The sum of the values of a list of pairs, taken from the back. */
  function Sum(s: seq<Pair>): int
  {
    if s == [] then 0 else Sum(s[..|s| - 1]) + s[|s| - 1].value
  }

  lemma {:induction false} SumAppend(a: seq<Pair>, b: seq<Pair>)
    ensures Sum(a + b) == Sum(a) + Sum(b)
    decreases |b|
  {
    if b == [] {
      assert a + b == a;
    } else {
      var b' := b[..|b| - 1];
      assert (a + b)[..|a + b| - 1] == a + b';
      SumAppend(a, b');
    }
  }
}
