/**
 The ranking used to order layouts by score: a stable sort in descending
 order of score. Each entry remembers its original position, so that equal
 scores keep their original order, as a stable descending sort does.
 */
module Ranking {

  /** An item with its score and its position in the list being sorted. */
  datatype Entry<T> = Entry(score: real, index: nat, item: T)

  /** `a` may come before `b`: a higher score, or an equal score and an earlier position. */
  predicate RanksBefore<T>(a: Entry<T>, b: Entry<T>)
  {
    a.score > b.score || (a.score == b.score && a.index <= b.index)
  }

  predicate InRankOrder<T>(s: seq<Entry<T>>)
  {
    forall i, j :: 0 <= i < j < |s| ==> RanksBefore(s[i], s[j])
  }

  /** The items of the entries, in order. */
  function Items<T>(s: seq<Entry<T>>): (r: seq<T>)
    ensures |r| == |s|
    ensures forall i :: 0 <= i < |s| ==> r[i] == s[i].item
  {
    seq(|s|, i requires 0 <= i < |s| => s[i].item)
  }

  lemma {:induction false} ItemsConcat<T>(a: seq<Entry<T>>, b: seq<Entry<T>>)
    ensures Items(a + b) == Items(a) + Items(b)
  {
    assert |Items(a + b)| == |Items(a) + Items(b)|;
    forall i | 0 <= i < |a + b| ensures Items(a + b)[i] == (Items(a) + Items(b))[i] {
      if i < |a| {
        assert (a + b)[i] == a[i];
      } else {
        assert (a + b)[i] == b[i - |a|];
      }
    }
  }

  lemma ItemsCons<T>(s: seq<Entry<T>>)
    requires |s| > 0
    ensures multiset(Items(s)) == multiset(Items(s[1..])) + multiset{s[0].item}
  {
    assert Items(s) == [s[0].item] + Items(s[1..]);
  }

  /** Inserting one entry into a ranked list keeps it ranked and adds exactly that entry. */
  function Insert<T(==)>(x: Entry<T>, s: seq<Entry<T>>): (r: seq<Entry<T>>)
    requires InRankOrder(s)
    ensures |r| == |s| + 1
    ensures multiset(r) == multiset(s) + multiset{x}
    ensures InRankOrder(r)
  {
    if s == [] then
      [x]
    else if RanksBefore(x, s[0]) then
      PrecedesHead(x, s);
      PrependRanked(x, s);
      [x] + s
    else
      var rest := Insert(x, s[1..]);
      assert s == [s[0]] + s[1..];
      InsertStep(x, s, rest);
      [s[0]] + rest
  }

  /** `Insert` adds exactly the inserted entry's item to the items. */
  lemma {:induction false} InsertItems<T>(x: Entry<T>, s: seq<Entry<T>>)
    requires InRankOrder(s)
    ensures multiset(Items(Insert(x, s))) == multiset(Items(s)) + multiset{x.item}
  {
    if s == [] {
    } else if RanksBefore(x, s[0]) {
      ItemsConcat([x], s);
    } else {
      var rest := Insert(x, s[1..]);
      assert Insert(x, s) == [s[0]] + rest;
      InsertItems(x, s[1..]);
      assert s == [s[0]] + s[1..];
      ItemsConcat([s[0]], s[1..]);
      ItemsConcat([s[0]], rest);
      assert Items([s[0]]) == [s[0].item];
      calc {
        multiset(Items(Insert(x, s)));
        multiset([s[0].item] + Items(rest));
        multiset([s[0].item]) + multiset(Items(rest));
        multiset([s[0].item]) + multiset(Items(s[1..])) + multiset{x.item};
        multiset([s[0].item] + Items(s[1..])) + multiset{x.item};
      }
    }
  }

  /** The head of `s` may precede everything `Insert` returns for the tail. */
  lemma InsertStep<T>(x: Entry<T>, s: seq<Entry<T>>, rest: seq<Entry<T>>)
    requires InRankOrder(s) && |s| > 0 && !RanksBefore(x, s[0])
    requires multiset(rest) == multiset(s[1..]) + multiset{x}
    requires InRankOrder(rest)
    ensures InRankOrder([s[0]] + rest)
  {
    forall j | 0 <= j < |rest| ensures RanksBefore(s[0], rest[j]) {
      assert rest[j] in multiset(rest);
      if rest[j] != x {
        assert rest[j] in multiset(s[1..]);
        var k :| 1 <= k < |s| && s[k] == rest[j];
        assert RanksBefore(s[0], s[k]);
      }
    }
    PrependRanked(s[0], rest);
  }

  /** Whatever may precede the head of a ranked list may precede all of it. */
  lemma PrecedesHead<T>(x: Entry<T>, s: seq<Entry<T>>)
    requires InRankOrder(s) && |s| > 0 && RanksBefore(x, s[0])
    ensures forall j :: 0 <= j < |s| ==> RanksBefore(x, s[j])
  {
    forall j | 0 <= j < |s| ensures RanksBefore(x, s[j]) {
      if 0 < j {
        assert RanksBefore(s[0], s[j]);
      }
    }
  }

  lemma PrependRanked<T>(x: Entry<T>, s: seq<Entry<T>>)
    requires InRankOrder(s)
    requires forall j :: 0 <= j < |s| ==> RanksBefore(x, s[j])
    ensures InRankOrder([x] + s)
  {
    var r := [x] + s;
    forall i, j | 0 <= i < j < |r| ensures RanksBefore(r[i], r[j]) {
      assert r[j] == s[j - 1];
      if 0 < i {
        assert r[i] == s[i - 1];
      }
    }
  }

  /** No two entries share a position. */
  predicate DistinctIndices<T>(s: seq<Entry<T>>)
  {
    forall i, j :: 0 <= i < j < |s| ==> s[i].index != s[j].index
  }

  /** Entries with distinct positions are distinct, so each occurs at most once. */
  lemma {:induction false} OccursAtMostOnce<T>(s: seq<Entry<T>>, e: Entry<T>)
    requires DistinctIndices(s)
    ensures multiset(s)[e] <= 1
  {
    if s != [] {
      assert s == [s[0]] + s[1..];
      assert DistinctIndices(s[1..]) by {
        forall i, j | 0 <= i < j < |s[1..]| ensures s[1..][i].index != s[1..][j].index {
          assert s[1..][i] == s[i + 1] && s[1..][j] == s[j + 1];
        }
      }
      OccursAtMostOnce(s[1..], e);
      if s[0] == e {
        assert e !in s[1..] by {
          forall k | 0 <= k < |s[1..]| ensures s[1..][k] != e {
            assert s[1..][k] == s[k + 1];
          }
        }
      }
    }
  }

  /** An entry that occurs at most once is not repeated at a later position. */
  lemma NotRepeated<T>(s: seq<Entry<T>>, i: nat, j: nat)
    requires i < j < |s| && multiset(s)[s[i]] <= 1
    ensures s[i] != s[j]
  {
    assert s == s[..j] + s[j..];
    assert s[..j][i] == s[i];
    assert multiset(s)[s[i]] == multiset(s[..j])[s[i]] + multiset(s[j..])[s[i]];
    assert s[i] !in s[j..];
    assert s[j..][0] == s[j];
  }

  /** With distinct positions, a position determines the entry's place. */
  lemma PositionDeterminesPlace<T>(s: seq<Entry<T>>, m1: nat, m2: nat)
    requires DistinctIndices(s) && m1 < |s| && m2 < |s|
    ensures s[m1].index == s[m2].index ==> m1 == m2
  {
  }

  /** Reordering entries with distinct positions keeps the positions distinct. */
  lemma {:induction false} ReorderKeepsDistinct<T>(a: seq<Entry<T>>, b: seq<Entry<T>>)
    requires multiset(a) == multiset(b) && DistinctIndices(a)
    ensures DistinctIndices(b)
  {
    forall i, j | 0 <= i < j < |b| ensures b[i].index != b[j].index {
      OccursAtMostOnce(a, b[i]);
      NotRepeated(b, i, j);
      assert b[i] in multiset(a) && b[j] in multiset(a);
      var k1 :| 0 <= k1 < |a| && a[k1] == b[i];
      var k2 :| 0 <= k2 < |a| && a[k2] == b[j];
      PositionDeterminesPlace(a, k1, k2);
    }
  }

  /** A stable sort by descending score (insertion sort). */
  function SortByScore<T(==)>(s: seq<Entry<T>>): (r: seq<Entry<T>>)
    ensures |r| == |s|
    ensures multiset(r) == multiset(s)
    ensures InRankOrder(r)
  {
    if s == [] then
      []
    else
      var rest := SortByScore(s[1..]);
      assert s == [s[0]] + s[1..];
      Insert(s[0], rest)
  }

  /** Sorting only reorders the items. */
  lemma {:induction false} SortKeepsItems<T>(s: seq<Entry<T>>)
    ensures multiset(Items(SortByScore(s))) == multiset(Items(s))
  {
    if s != [] {
      var rest := SortByScore(s[1..]);
      assert SortByScore(s) == Insert(s[0], rest);
      SortKeepsItems(s[1..]);
      InsertItems(s[0], rest);
      ItemsCons(s);
    }
  }
}
