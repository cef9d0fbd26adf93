# Engagement score pipeline

A Dafny model of the scoring part of the Swift playground
`Exercise.playground/Contents.swift`. The playground reads three lists
(users, posts, comments), then ranks bloggers by an "average comments per
post" score. The model covers what happens after decoding. It works on the
decoded records: comments reduced to `(postId, id)`, posts to `(userId, id)`,
and users to `(id, name, username)`.

The pipeline runs in four steps, each a module here, plus `Pipeline` for the whole run:

- `CommentTally`: the loop that counts comments per post id into a
  dictionary. `TallyComments` is the loop. `Tally` is the same dictionary
  written as a value.
- `KeyOrder`: the dictionary sorted by post id into a list of
  `(key, value)` pairs (`SortByKey`).
- `Chunking`: the loop that walks that list, sums the counts in groups of
  ten and appends `sum / 10` for each complete group (`ChunkAverages`). A
  trailing group of fewer than ten entries is dropped.
- `Ranking`: the indexed loop that gives the i-th user the i-th average,
  keyed by name (`AssignScores`), and the sort of that dictionary by score,
  highest first (`SortByScore`).
- `Pipeline`: the whole run (`Engagement`), from the decoded lists to the
  list the final loop prints, or the index at which it traps.

The code's behaviour is followed as written, including where it departs
from the stated intent:

- Scores do not come from joining posts to users. The decoded posts are
  never read. User i gets the i-th group of ten tally entries in post-id
  order. A post with no comments is missing from the tally, so every later
  group boundary moves by one.
- The header comment (lines 10-13) asks for the three users with the
  highest average number of comments per post, which needs each user's
  posts. The code never joins posts to users, and its output loop prints
  every entry of the sorted dictionary, not three.
- If there are more users than complete groups, `avgs[index]` traps. The
  model returns `IndexOutOfRange(index)` in that case.

Scores are `real` numbers: the sum of a group divided by `10.0`. Sorting by
this score gives the same order as sorting by the integer group sums.

## Model

| member | source | states |
|---|---|---|
| `CommentTally.TallyComments` | Exercise.playground/Contents.swift:100-108 | After the loop, the dictionary's keys are exactly the post ids that occur in some comment. Each value is the number of comments carrying that post id. |
| `CommentTally.Tally` | Exercise.playground/Contents.swift:105-108 | The tally's keys are the post ids of the comments, so it has one entry per distinct post id. |
| `CommentTally.CountPositiveIff` | Exercise.playground/Contents.swift:105-108 | A post id has a positive count exactly when some comment carries it. So a post without comments is absent from the tally, not present with zero. |
| `CommentTally.TallyPositive` | Exercise.playground/Contents.swift:105-108 | Every count in the tally is at least one. |
| `CommentTally.SumCountsCoversAll` | Exercise.playground/Contents.swift:105-108 | Summed over any duplicate-free list of keys that covers every post id of the comments, the per-post counts add up to the number of comments. |
| `KeyOrder.SortByKey` | Exercise.playground/Contents.swift:111 | The flattened tally is strictly ascending by post id. It lists every dictionary entry exactly once, with its own count, and has as many entries as the dictionary. |
| `KeyOrder.AscendingListingUnique` | Exercise.playground/Contents.swift:111 | Any list that is strictly ascending by key and lists every entry of the dictionary exactly once is the sorted tally. So the sort by key determines `firstDict` completely, and so does every score computed from it. |
| `KeyOrder.TallyTotal` | Exercise.playground/Contents.swift:105-111 | The counts in the key-ordered tally add up to `comments.count`. |
| `Chunking.ChunkAverages` | Exercise.playground/Contents.swift:114-131 | The loop appends one average per complete group of ten, so `avgs.count == firstDict.count / 10`. `avgs[k]` is the sum of entries `10k ..< 10k+10` divided by ten. Loop invariants: `0 <= count < 10`, and `userSum` is the sum of the last `count` entries. |
| `Chunking.SumChunksPrefix` | Exercise.playground/Contents.swift:122-131 | The first n complete groups together are exactly the first 10·n entries of the sorted tally. |
| `Chunking.DroppedTail` | Exercise.playground/Contents.swift:122-131 | What the averages leave out is the trailing partial group, which holds fewer than ten entries. The total is the sum of the complete groups plus that tail. |
| `Ranking.LastIndex` | Exercise.playground/Contents.swift:139-141 | Gives the index of the last user with a given name. No later user has that name, so this is the assignment that survives overwriting. |
| `Ranking.AssignScores` | Exercise.playground/Contents.swift:139-141 | The loop traps exactly when there are more users than averages, and it traps at index `avgs.count`. Otherwise the dictionary's keys are the user names. Each name maps to the average at the index of the last user with that name, so a later duplicate name overwrites an earlier one. |
| `Ranking.TopName` | Exercise.playground/Contents.swift:144 | The entry the descending sort puts first has a score no other entry exceeds. |
| `Ranking.SortByScore` | Exercise.playground/Contents.swift:144 | The sorted list does not increase in score. It lists every dictionary entry exactly once with its own score, so it is a permutation of the dictionary. |
| `Pipeline.RankedNames` | Exercise.playground/Contents.swift:139-148 | Every user's name appears in the printed list. |
| `Pipeline.RankedScores` | Exercise.playground/Contents.swift:122-148 | Each printed entry belongs to a user. Its score is the average of the tally group at that user's (last) index. |
| `Pipeline.Engagement` | Exercise.playground/Contents.swift:100-148 | The run traps exactly when there are more users than complete groups of ten post ids. Otherwise the printed list is non-increasing in score. It has one entry per distinct user name, with no name twice. Each entry's score is the positional group average of that user. |
| `Pipeline.CommentsAccountedFor` | Exercise.playground/Contents.swift:105-131 | Every comment is counted either in one of the complete groups that become scores or in the dropped trailing group of fewer than ten entries. |

## Left out

- Resource lookup and file reads (lines 63-82): bundle and file-system I/O. The model starts from the decoded lists.
- JSON decoding and the `CodingKeys` renaming (lines 30-55, 85-94): done by a foreign library. The records are the model's inputs.
- `Float` arithmetic (lines 119, 124, 127): scores are exact `real` values (group sum / 10.0). Float rounding is not modelled.
- Output text (line 146): `Engagement` returns the list the final loop prints, in order. The exact printed format is not modelled.
- Swift `Int` overflow traps on `+ 1` (line 106) and `+ userSum` (line 123): integers are unbounded. Counts never exceed the number of comments.
- Swift `String` equality is by canonical Unicode equivalence. The model compares names character by character.
- `Ranking.SortByScore`: Swift leaves the order of equal scores unspecified. The model's function has to choose one, so it puts equal scores in alphabetical order of name. Its contract promises only what Swift promises: non-increasing scores and a permutation of the entries.
- The unused variable `userAvg` (line 117) and the decoded `posts` (line 89) play no part in the result. `Engagement` takes `posts` and ignores it.
