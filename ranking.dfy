/** Ranking by score: Python's `list.sort(key=lambda x: x[1], reverse=True)`,
    which orders by descending score and is stable (items with equal scores keep
    their input order), followed by a cut to the first `top_k`. */
module Ranking {
  import opened Common

  /** An item paired with its score, as the `(item, score)` tuples the search
      functions sort. */
  datatype Scored<T> = Scored(item: T, score: int)

  /** Puts `x` in front of the first element that does not outscore it. */
  function Insert<T>(x: Scored<T>, s: seq<Scored<T>>): (r: seq<Scored<T>>)
    ensures multiset(r) == multiset(s) + multiset{x}
  {
    if s == [] || s[0].score <= x.score then [x] + s
    else
      assert s == [s[0]] + s[1..];
      [s[0]] + Insert(x, s[1..])
  }

  /** The list sorted by descending score, stably. */
  function SortByScore<T>(s: seq<Scored<T>>): (r: seq<Scored<T>>)
    ensures multiset(r) == multiset(s)
  {
    if s == [] then []
    else
      assert s == [s[0]] + s[1..];
      Insert(s[0], SortByScore(s[1..]))
  }

  ghost predicate Descending<T>(s: seq<Scored<T>>) {
    forall i, j :: 0 <= i < j < |s| ==> s[i].score >= s[j].score
  }

  function WithScore<T>(v: int): Scored<T> -> bool {
    (e: Scored<T>) => e.score == v
  }

  lemma {:induction false} InsertDescending<T>(x: Scored<T>, s: seq<Scored<T>>)
    requires Descending(s)
    ensures Descending(Insert(x, s))
  {
    if s != [] && s[0].score > x.score {
      InsertDescending(x, s[1..]);
      var r := Insert(x, s[1..]);
      forall j | 0 <= j < |r| ensures s[0].score >= r[j].score {
        assert r[j] in multiset(r);
        assert r[j] == x || r[j] in s[1..];
      }
    }
  }

  /** The sort's result never rises in score down the list. */
  lemma {:induction false} SortDescending<T>(s: seq<Scored<T>>)
    ensures Descending(SortByScore(s))
  {
    if s != [] {
      SortDescending(s[1..]);
      InsertDescending(s[0], SortByScore(s[1..]));
    }
  }

  lemma {:induction false} InsertStable<T>(x: Scored<T>, s: seq<Scored<T>>, v: int)
    ensures Filter(Insert(x, s), WithScore(v))
         == (if x.score == v then [x] else []) + Filter(s, WithScore(v))
  {
    if s == [] || s[0].score <= x.score {
      FilterCons(x, s, WithScore(v));
    } else {
      InsertStable(x, s[1..], v);
      FilterCons(s[0], Insert(x, s[1..]), WithScore(v));
      assert s == [s[0]] + s[1..];
      FilterCons(s[0], s[1..], WithScore(v));
    }
  }

  /** Stability: for every score, the items holding it appear in the sorted list
      in the same order as in the input. */
  lemma {:induction false} SortStable<T>(s: seq<Scored<T>>, v: int)
    ensures Filter(SortByScore(s), WithScore(v)) == Filter(s, WithScore(v))
  {
    if s != [] {
      var keep, t := WithScore(v), SortByScore(s[1..]);
      SortStable(s[1..], v);
      InsertStable(s[0], t, v);
      FilterHead(s, keep);
      assert keep(s[0]) <==> s[0].score == v;
    }
  }

  /** Descending score, and ascending item among equal scores. */
  ghost predicate ScoreThenItem(s: seq<Scored<int>>) {
    forall i, j :: 0 <= i < j < |s| ==>
      s[i].score > s[j].score || (s[i].score == s[j].score && s[i].item < s[j].item)
  }

  lemma {:induction false} InsertScoreThenItem(x: Scored<int>, s: seq<Scored<int>>)
    requires ScoreThenItem(s)
    requires forall j :: 0 <= j < |s| ==> x.item < s[j].item
    ensures ScoreThenItem(Insert(x, s))
  {
    if s != [] && s[0].score > x.score {
      InsertScoreThenItem(x, s[1..]);
      var r := Insert(x, s[1..]);
      forall j | 0 <= j < |r|
        ensures s[0].score > r[j].score || (s[0].score == r[j].score && s[0].item < r[j].item)
      {
        assert r[j] in multiset(r);
        assert r[j] == x || r[j] in s[1..];
      }
    }
  }

  /** When the input items are increasing (chunk positions, say), the stable sort
      puts equal scores in increasing item order. */
  lemma {:induction false} SortScoreThenItem(s: seq<Scored<int>>)
    requires forall i, j :: 0 <= i < j < |s| ==> s[i].item < s[j].item
    ensures ScoreThenItem(SortByScore(s))
  {
    if s != [] {
      SortScoreThenItem(s[1..]);
      var t := SortByScore(s[1..]);
      forall j | 0 <= j < |t| ensures s[0].item < t[j].item {
        assert t[j] in multiset(t);
        assert t[j] in s[1..];
      }
      InsertScoreThenItem(s[0], t);
    }
  }

  /** Top-k completeness: an element left out of the first `k` of the ranking
      means the cut is full and every kept element scores at least as much. */
  lemma OmittedRanksLower<T>(s: seq<Scored<T>>, k: nat, e: Scored<T>)
    requires e in s
    requires e !in PyTake(SortByScore(s), k)
    ensures |PyTake(SortByScore(s), k)| == k
    ensures forall i :: 0 <= i < k ==> PyTake(SortByScore(s), k)[i].score >= e.score
  {
    var r := SortByScore(s);
    SortDescending(s);
    assert e in multiset(s);
    assert e in r;
    var p :| 0 <= p < |r| && r[p] == e;
  }
}
