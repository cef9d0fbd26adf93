/**
 The tally flattened into a list of (post id, count) pairs in ascending
 order of post id, as the dictionary's sort by key produces it.
 */
module KeyOrder {
  import opened Records
  import opened CommentTally
  import opened Collections

  /** Keys strictly increase along the list, so no key occurs twice. */
  predicate StrictlyAscending(s: seq<Pair>)
  {
    forall i, j :: 0 <= i < j < |s| ==> s[i].key < s[j].key
  }

  /** `s` lists every entry of `m` exactly once. */
  predicate ListsEntries(s: seq<Pair>, m: map<int, int>)
  {
    && |s| == |m|
    && (forall i :: 0 <= i < |s| ==> s[i].key in m && s[i].value == m[s[i].key])
    && (forall k :: k in m ==> exists i :: 0 <= i < |s| && s[i] == Pair(k, m[k]))
  }

  lemma {:induction false} MinExists(s: set<int>)
    requires s != {}
    ensures exists k :: k in s && forall j :: j in s ==> k <= j
    decreases |s|
  {
    var x := ElementOf(s);
    if s != {x} {
      MinExists(s - {x});
      var k :| k in s - {x} && forall j :: j in s - {x} ==> k <= j;
      var m := if x < k then x else k;
      forall j | j in s ensures m <= j {
        if j != x { assert j in s - {x}; }
      }
      assert m in s;
    }
  }

  /** The smallest key of a non-empty set. */
  function MinKey(s: set<int>): (k: int)
    requires s != {}
    ensures k in s && forall j :: j in s ==> k <= j
  {
    MinExists(s);
    var k :| k in s && forall j :: j in s ==> k <= j;
    k
  }

  /** The entries of `m`, smallest key first. */
  function SortByKey(m: map<int, int>): (r: seq<Pair>)
    ensures StrictlyAscending(r)
    ensures ListsEntries(r, m)
    decreases |m|
  {
    if |m| == 0 then []
    else
      var k := MinKey(m.Keys);
      var rest := m - {k};
      assert |rest| < |m| by { RemoveKey(m, k); }
      var tail := SortByKey(rest);
      PrependMin(m, k, tail);
      [Pair(k, m[k])] + tail
  }

  /** Putting the smallest entry in front of the sorted rest sorts the whole map. */
  lemma PrependMin(m: map<int, int>, k: int, tail: seq<Pair>)
    requires k in m && forall j :: j in m ==> k <= j
    requires StrictlyAscending(tail) && ListsEntries(tail, m - {k})
    ensures StrictlyAscending([Pair(k, m[k])] + tail)
    ensures ListsEntries([Pair(k, m[k])] + tail, m)
  {
    RemoveKey(m, k);
    PrependMinAscending(m, k, tail);
    PrependMinCovers(m, k, tail);
  }

  lemma PrependMinAscending(m: map<int, int>, k: int, tail: seq<Pair>)
    requires k in m && forall j :: j in m ==> k <= j
    requires StrictlyAscending(tail) && ListsEntries(tail, m - {k})
    ensures StrictlyAscending([Pair(k, m[k])] + tail)
  {
  }

  lemma PrependMinCovers(m: map<int, int>, k: int, tail: seq<Pair>)
    requires k in m && |m - {k}| == |m| - 1
    requires ListsEntries(tail, m - {k})
    ensures ListsEntries([Pair(k, m[k])] + tail, m)
  {
    var rest := m - {k};
    var r := [Pair(k, m[k])] + tail;
    forall i | 0 <= i < |r| ensures r[i].key in m && r[i].value == m[r[i].key] {
      if i > 0 {
        assert r[i] == tail[i - 1] && tail[i - 1].key in rest;
      }
    }
    forall k' | k' in m
      ensures exists i :: 0 <= i < |r| && r[i] == Pair(k', m[k'])
    {
      if k' == k {
        assert r[0] == Pair(k', m[k']);
      } else {
        assert k' in rest;
        var i :| 0 <= i < |tail| && tail[i] == Pair(k', rest[k']);
        assert r[i + 1] == Pair(k', m[k']);
      }
    }
  }

  /**
   A strictly ascending listing of the entries of `m` is unique: it is the
   one `SortByKey` builds. So the sort by key fixes the list completely.
   */
  lemma {:induction false} AscendingListingUnique(s: seq<Pair>, m: map<int, int>)
    requires StrictlyAscending(s) && ListsEntries(s, m)
    ensures s == SortByKey(m)
    decreases |m|
  {
    if |m| != 0 {
      ListingHead(s, m);
      ListingRest(s, m);
      var k := s[0].key;
      AscendingListingUnique(s[1..], m - {k});
      SortByKeyUnfold(m);
      assert s == [s[0]] + s[1..];
    }
  }

  lemma SortByKeyUnfold(m: map<int, int>)
    requires |m| > 0
    ensures var k := MinKey(m.Keys); SortByKey(m) == [Pair(k, m[k])] + SortByKey(m - {k})
  {
  }

  /** The first entry of an ascending listing is the smallest key of the map. */
  lemma ListingHead(s: seq<Pair>, m: map<int, int>)
    requires StrictlyAscending(s) && ListsEntries(s, m) && |m| > 0
    ensures s[0] == Pair(MinKey(m.Keys), m[MinKey(m.Keys)])
  {
    var least := MinKey(m.Keys);
    var i :| 0 <= i < |s| && s[i] == Pair(least, m[least]);
    assert s[0].key in m;
    assert s[0].key <= s[i].key;
  }

  /** Without its first entry, an ascending listing lists the rest of the map. */
  lemma ListingRest(s: seq<Pair>, m: map<int, int>)
    requires StrictlyAscending(s) && ListsEntries(s, m) && |m| > 0
    ensures StrictlyAscending(s[1..])
    ensures ListsEntries(s[1..], m - {s[0].key})
  {
    var k := s[0].key;
    var rest := m - {k};
    RemoveKey(m, k);
    var t := s[1..];
    forall j | 0 <= j < |t| ensures t[j].key in rest && t[j].value == rest[t[j].key] {
      assert t[j] == s[j + 1];
    }
    forall k' | k' in rest
      ensures exists j :: 0 <= j < |t| && t[j] == Pair(k', rest[k'])
    {
      var i :| 0 <= i < |s| && s[i] == Pair(k', m[k']);
      assert i != 0;
      assert t[i - 1] == s[i];
    }
  }

  /** The keys of a list of pairs, in order. */
  function KeysOf(s: seq<Pair>): (ks: seq<int>)
    ensures |ks| == |s| && forall i :: 0 <= i < |s| ==> ks[i] == s[i].key
  {
    if s == [] then [] else KeysOf(s[..|s| - 1]) + [s[|s| - 1].key]
  }

  lemma {:induction false} SumIsSumCounts(s: seq<Pair>, cs: seq<Comment>)
    requires forall i :: 0 <= i < |s| ==> s[i].value == CountOf(cs, s[i].key)
    ensures Sum(s) == SumCounts(KeysOf(s), cs)
    decreases |s|
  {
    if s != [] {
      var init := s[..|s| - 1];
      assert KeysOf(s)[..|s| - 1] == KeysOf(init);
      SumIsSumCounts(init, cs);
    }
  }

  lemma ListedKeysCover(s: seq<Pair>, m: map<int, int>)
    requires ListsEntries(s, m)
    ensures m.Keys <= set i | 0 <= i < |KeysOf(s)| :: KeysOf(s)[i]
  {
    var ks := KeysOf(s);
    forall p | p in m ensures p in set i | 0 <= i < |ks| :: ks[i] {
      var i :| 0 <= i < |s| && s[i] == Pair(p, m[p]);
      assert ks[i] == p;
    }
  }

  /**
   The counts in the key-ordered tally add up to the number of comments:
   every comment is counted once, under its own post.
   */
  lemma TallyTotal(cs: seq<Comment>)
    ensures Sum(SortByKey(Tally(cs))) == |cs|
  {
    var m := Tally(cs);
    var s := SortByKey(m);
    assert forall i :: 0 <= i < |s| ==> s[i].value == CountOf(cs, s[i].key);
    SumIsSumCounts(s, cs);
    ListedKeysCover(s, m);
    SumCountsCoversAll(KeysOf(s), cs);
  }
}
