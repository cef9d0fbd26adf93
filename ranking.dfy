/**
 The last stage: each user gets the average at their own index, keyed by
 name, and the resulting dictionary is sorted by score, highest first.
 */
module Ranking {
  import opened Records
  import opened Collections

  /** The names of the users. */
  function Names(users: seq<User>): set<string>
  {
    set i | 0 <= i < |users| :: users[i].name
  }

  lemma NamesSnoc(users: seq<User>, i: nat)
    requires i < |users|
    ensures Names(users[..i + 1]) == Names(users[..i]) + {users[i].name}
  {
  }

  /**
   The index of the last user called `n`: the one whose assignment is the
   last to be made under that name, and so the one that stays.
   */
  function LastIndex(users: seq<User>, n: string): (j: nat)
    requires n in Names(users)
    ensures j < |users| && users[j].name == n
    ensures forall j' :: j < j' < |users| ==> users[j'].name != n
    decreases |users|
  {
    var last := |users| - 1;
    if users[last].name == n then last
    else
      var init := users[..last];
      assert n in Names(init) by {
        var j :| 0 <= j < |users| && users[j].name == n;
        assert init[j].name == n;
      }
      LastIndex(init, n)
  }

  /**
   The assignment loop. The user at index `i` is given `avgs[i]` under
   their name; a later user with the same name overwrites an earlier one.
   Once the index reaches the end of `avgs` the subscript traps.
   */
  method AssignScores(users: seq<User>, avgs: seq<real>) returns (r: Result<map<string, real>>)
    ensures r.IndexOutOfRange? <==> |avgs| < |users|
    ensures r.IndexOutOfRange? ==> r.index == |avgs|
    ensures r.Ok? ==> r.value.Keys == Names(users)
    ensures r.Ok? ==> forall n :: n in r.value ==> r.value[n] == avgs[LastIndex(users, n)]
  {
    var countUserAvgs: map<string, real> := map[];
    for index := 0 to |users|
      invariant index <= |avgs|
      invariant countUserAvgs.Keys == Names(users[..index])
      invariant forall n :: n in countUserAvgs ==> countUserAvgs[n] == avgs[LastIndex(users[..index], n)]
    {
      if index >= |avgs| {
        return IndexOutOfRange(index);
      }
      var item := users[index];
      NamesSnoc(users, index);
      assert users[..index + 1][..index] == users[..index];
      countUserAvgs := countUserAvgs[item.name := avgs[index]];
    }
    assert users[..|users|] == users;
    r := Ok(countUserAvgs);
  }

  /** Strict lexicographic order on names. */
  predicate Before(a: string, b: string)
  {
    if |a| == 0 then |b| > 0
    else if |b| == 0 then false
    else if a[0] != b[0] then a[0] < b[0]
    else Before(a[1..], b[1..])
  }

  lemma {:induction false} BeforeAsymmetric(a: string, b: string)
    ensures Before(a, b) ==> !Before(b, a)
    decreases |a|
  {
    if |a| > 0 && |b| > 0 && a[0] == b[0] {
      BeforeAsymmetric(a[1..], b[1..]);
    }
  }

  lemma {:induction false} BeforeTotal(a: string, b: string)
    ensures a == b || Before(a, b) || Before(b, a)
    decreases |a|
  {
    if |a| > 0 && |b| > 0 && a[0] == b[0] {
      BeforeTotal(a[1..], b[1..]);
      if a[1..] == b[1..] {
        assert a == [a[0]] + a[1..] && b == [b[0]] + b[1..];
      }
    }
  }

  lemma {:induction false} BeforeTransitive(a: string, b: string, c: string)
    requires Before(a, b) && Before(b, c)
    ensures Before(a, c)
    decreases |a|
  {
    if |a| > 0 && a[0] == b[0] && b[0] == c[0] {
      BeforeTransitive(a[1..], b[1..], c[1..]);
    }
  }

  /**
   `x` comes before `y` in the ranking: a higher score first; between equal
   scores, the model settles on alphabetical order of the names.
   */
  predicate Outranks(x: Scored, y: Scored)
  {
    x.score > y.score || (x.score == y.score && Before(x.name, y.name))
  }

  lemma OutranksTransitive(x: Scored, y: Scored, z: Scored)
    requires Outranks(x, y) && Outranks(y, z)
    ensures Outranks(x, z)
  {
    if x.score == y.score == z.score {
      BeforeTransitive(x.name, y.name, z.name);
    }
  }

  /** `n` outranks every other entry of `m`. */
  predicate IsTop(m: map<string, real>, n: string)
    requires n in m
  {
    forall o :: o in m && o != n ==> Outranks(Scored(n, m[n]), Scored(o, m[o]))
  }

  lemma {:induction false} TopExists(m: map<string, real>)
    requires |m| > 0
    ensures exists n :: n in m && IsTop(m, n)
    decreases |m|
  {
    assert |m.Keys| == |m|;
    var x := ElementOf(m.Keys);
    var rest := m - {x};
    assert rest.Keys == m.Keys - {x};
    assert |rest.Keys| == |m.Keys| - 1;
    if |rest| == 0 {
      assert forall o :: o in m ==> o == x;
      assert IsTop(m, x);
    } else {
      TopExists(rest);
      var t :| t in rest && IsTop(rest, t);
      var X, T := Scored(x, m[x]), Scored(t, m[t]);
      BeforeTotal(x, t);
      if Outranks(X, T) {
        forall o | o in m && o != x ensures Outranks(X, Scored(o, m[o])) {
          if o != t {
            assert o in rest && rest[o] == m[o];
            OutranksTransitive(X, T, Scored(o, m[o]));
          }
        }
        assert IsTop(m, x);
      } else {
        assert Outranks(T, X);
        forall o | o in m && o != t ensures Outranks(T, Scored(o, m[o])) {
          if o != x { assert o in rest && rest[o] == m[o]; }
        }
        assert IsTop(m, t);
      }
    }
  }

  /** The name that comes first in the ranking of `m`. */
  function TopName(m: map<string, real>): (n: string)
    requires |m| > 0
    ensures n in m && forall o :: o in m ==> m[o] <= m[n]
  {
    TopExists(m);
    forall a, b ensures Before(a, b) ==> !Before(b, a) {
      BeforeAsymmetric(a, b);
    }
    var n :| n in m && IsTop(m, n);
    n
  }

  /** Scores never increase along the list. */
  predicate NonIncreasing(s: seq<Scored>)
  {
    forall i, j :: 0 <= i < j < |s| ==> s[i].score >= s[j].score
  }

  /** `s` lists every entry of `m` exactly once. */
  predicate ListsScores(s: seq<Scored>, m: map<string, real>)
  {
    && |s| == |m|
    && (forall i, j :: 0 <= i < j < |s| ==> s[i].name != s[j].name)
    && (forall i :: 0 <= i < |s| ==> s[i].name in m && s[i].score == m[s[i].name])
    && (forall n :: n in m ==> exists i :: 0 <= i < |s| && s[i] == Scored(n, m[n]))
  }

  /** The entries of `m`, highest score first. */
  function SortByScore(m: map<string, real>): (r: seq<Scored>)
    ensures NonIncreasing(r)
    ensures ListsScores(r, m)
    decreases |m|
  {
    if |m| == 0 then []
    else
      var n := TopName(m);
      var rest := m - {n};
      assert |rest| < |m| by { RemoveKey(m, n); }
      var tail := SortByScore(rest);
      PrependTop(m, n, tail);
      [Scored(n, m[n])] + tail
  }

  /** Putting the top entry in front of the sorted rest sorts the whole map. */
  lemma PrependTop(m: map<string, real>, n: string, tail: seq<Scored>)
    requires n in m && forall o :: o in m ==> m[o] <= m[n]
    requires NonIncreasing(tail) && ListsScores(tail, m - {n})
    ensures NonIncreasing([Scored(n, m[n])] + tail)
    ensures ListsScores([Scored(n, m[n])] + tail, m)
  {
    RemoveKey(m, n);
    PrependTopOrdered(m, n, tail);
    PrependTopCovers(m, n, tail);
  }

  lemma PrependTopOrdered(m: map<string, real>, n: string, tail: seq<Scored>)
    requires n in m && forall o :: o in m ==> m[o] <= m[n]
    requires NonIncreasing(tail) && ListsScores(tail, m - {n})
    ensures NonIncreasing([Scored(n, m[n])] + tail)
  {
  }

  lemma PrependTopCovers(m: map<string, real>, n: string, tail: seq<Scored>)
    requires n in m && |m - {n}| == |m| - 1
    requires ListsScores(tail, m - {n})
    ensures ListsScores([Scored(n, m[n])] + tail, m)
  {
    var rest := m - {n};
    var r := [Scored(n, m[n])] + tail;
    forall i, j | 0 <= i < j < |r| ensures r[i].name != r[j].name {
      if i > 0 {
        assert r[i] == tail[i - 1] && r[j] == tail[j - 1];
      } else {
        assert r[j] == tail[j - 1] && tail[j - 1].name in rest;
      }
    }
    forall i | 0 <= i < |r| ensures r[i].name in m && r[i].score == m[r[i].name] {
      if i > 0 {
        assert r[i] == tail[i - 1] && tail[i - 1].name in rest;
      }
    }
    forall o | o in m
      ensures exists i :: 0 <= i < |r| && r[i] == Scored(o, m[o])
    {
      if o == n {
        assert r[0] == Scored(o, m[o]);
      } else {
        assert o in rest;
        var i :| 0 <= i < |tail| && tail[i] == Scored(o, rest[o]);
        assert r[i + 1] == Scored(o, m[o]);
      }
    }
  }
}
