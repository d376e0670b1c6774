/**
 * The ranking half of `CasinoFinder.calculateResults`: pair every casino
 * with its score, sort with the comparator `b.score - a.score ||
 * b.casino.rating - a.casino.rating` (a stable sort, as ECMAScript 2019
 * requires of `Array.prototype.sort`), drop the zero scores and keep at
 * most three.
 */
module Ranking {
  import opened Scoring

  /** The `{ casino, score }` records the scorer builds. */
  datatype Scored = Scored(casino: Casino, score: real)

  /** The sort comparator: negative when `a` goes before `b`. */
  function Compare(a: Scored, b: Scored): real {
    if b.score - a.score != 0.0 then b.score - a.score
    else b.casino.rating - a.casino.rating
  }

  /** `a` may stand before `b`: higher score, or equal score and rating at least as high. */
  predicate RanksAtLeast(a: Scored, b: Scored) {
    a.score > b.score || (a.score == b.score && a.casino.rating >= b.casino.rating)
  }

  lemma CompareMeaning(a: Scored, b: Scored)
    ensures Compare(a, b) <= 0.0 <==> RanksAtLeast(a, b)
    ensures Compare(a, b) == 0.0 <==> a.score == b.score && a.casino.rating == b.casino.rating
    ensures Compare(a, b) == -Compare(b, a)
  {
  }

  /** Every earlier element ranks at least as high as every later one. */
  ghost predicate Sorted(s: seq<Scored>) {
    forall i, j :: 0 <= i < j < |s| ==> RanksAtLeast(s[i], s[j])
  }

  /** The elements of `s` with score `score` and rating `rating`, in order. */
  function WithKey(s: seq<Scored>, score: real, rating: real): seq<Scored> {
    if s == [] then []
    else if s[0].score == score && s[0].casino.rating == rating then [s[0]] + WithKey(s[1..], score, rating)
    else WithKey(s[1..], score, rating)
  }

  /** Puts `x` in front of the first element that the comparator does not place before it. */
  function Insert(x: Scored, s: seq<Scored>): seq<Scored> {
    if s == [] then [x]
    else if Compare(s[0], x) < 0.0 then [s[0]] + Insert(x, s[1..])
    else [x] + s
  }

  /** The stable sort of `scored.sort(...)`, as an insertion sort. */
  function SortByRank(s: seq<Scored>): (r: seq<Scored>)
    ensures Sorted(r)
    ensures multiset(r) == multiset(s)
  {
    if s == [] then []
    else
      var rest := SortByRank(s[1..]);
      InsertSorted(s[0], rest);
      assert s == [s[0]] + s[1..];
      Insert(s[0], rest)
  }

  lemma SortedCons(h: Scored, t: seq<Scored>)
    requires Sorted(t)
    requires forall y :: y in t ==> RanksAtLeast(h, y)
    ensures Sorted([h] + t)
  {
    forall i, j | 0 <= i < j < |[h] + t|
      ensures RanksAtLeast(([h] + t)[i], ([h] + t)[j])
    {
      assert ([h] + t)[j] == t[j - 1];
      if i > 0 {
        assert ([h] + t)[i] == t[i - 1];
      }
    }
  }

  lemma {:induction false} InsertSorted(x: Scored, s: seq<Scored>)
    requires Sorted(s)
    ensures Sorted(Insert(x, s))
    ensures multiset(Insert(x, s)) == multiset(s) + multiset{x}
  {
    if s == [] {
    } else if Compare(s[0], x) < 0.0 {
      var t := Insert(x, s[1..]);
      InsertSorted(x, s[1..]);
      forall y | y in t
        ensures RanksAtLeast(s[0], y)
      {
        assert y in multiset(t);
        if y != x {
          assert y in multiset(s[1..]);
          var k :| 0 <= k < |s[1..]| && s[1..][k] == y;
          assert s[k + 1] == y;
        }
      }
      SortedCons(s[0], t);
      assert s == [s[0]] + s[1..];
    } else {
      forall y | y in s
        ensures RanksAtLeast(x, y)
      {
        var k :| 0 <= k < |s| && s[k] == y;
        assert RanksAtLeast(s[0], s[k]);
      }
      SortedCons(x, s);
    }
  }

  /** `x` occurs in `WithKey(s, score, rating)` exactly when it occurs in `s` with that key. */
  lemma {:induction false} WithKeyMembers(s: seq<Scored>, score: real, rating: real, x: Scored)
    ensures x in WithKey(s, score, rating) <==> x in s && x.score == score && x.casino.rating == rating
  {
    if s != [] {
      WithKeyMembers(s[1..], score, rating, x);
      assert s == [s[0]] + s[1..];
    }
  }

  /** Inserting `x` adds it in front of the elements that share its key. */
  lemma {:induction false} InsertWithKey(x: Scored, s: seq<Scored>, score: real, rating: real)
    ensures WithKey(Insert(x, s), score, rating) ==
      if x.score == score && x.casino.rating == rating then [x] + WithKey(s, score, rating)
      else WithKey(s, score, rating)
  {
    if s == [] {
    } else if Compare(s[0], x) < 0.0 {
      InsertWithKey(x, s[1..], score, rating);
      assert ([s[0]] + Insert(x, s[1..]))[1..] == Insert(x, s[1..]);
    } else {
      assert ([x] + s)[1..] == s;
    }
  }

  /** Stability: for every key, the sort keeps the elements with that key in input order. */
  lemma {:induction false} SortIsStable(s: seq<Scored>, score: real, rating: real)
    ensures WithKey(SortByRank(s), score, rating) == WithKey(s, score, rating)
  {
    if s != [] {
      SortIsStable(s[1..], score, rating);
      InsertWithKey(s[0], SortByRank(s[1..]), score, rating);
    }
  }

  /** Two sorted sequences that agree on the order of every key class are equal. */
  lemma {:induction false} SameArrangement(t: seq<Scored>, u: seq<Scored>)
    requires Sorted(t) && Sorted(u)
    requires forall score, rating :: WithKey(t, score, rating) == WithKey(u, score, rating)
    ensures t == u
  {
    if t == [] && u == [] {
    } else if t == [] {
      WithKeyMembers(u, u[0].score, u[0].casino.rating, u[0]);
    } else if u == [] {
      WithKeyMembers(t, t[0].score, t[0].casino.rating, t[0]);
    } else {
      var a, b := t[0], u[0];
      WithKeyMembers(u, b.score, b.casino.rating, b);
      WithKeyMembers(t, b.score, b.casino.rating, b);
      WithKeyMembers(t, a.score, a.casino.rating, a);
      WithKeyMembers(u, a.score, a.casino.rating, a);
      var i :| 0 <= i < |t| && t[i] == b;
      var j :| 0 <= j < |u| && u[j] == a;
      assert RanksAtLeast(a, t[i]) by { if i > 0 { assert RanksAtLeast(t[0], t[i]); } }
      assert RanksAtLeast(b, u[j]) by { if j > 0 { assert RanksAtLeast(u[0], u[j]); } }
      assert a.score == b.score && a.casino.rating == b.casino.rating;
      assert t == [a] + t[1..] && u == [b] + u[1..];
      assert WithKey(t, a.score, a.casino.rating) == [a] + WithKey(t[1..], a.score, a.casino.rating);
      assert WithKey(u, a.score, a.casino.rating) == [b] + WithKey(u[1..], a.score, a.casino.rating);
      assert a == b by {
        assert WithKey(t, a.score, a.casino.rating) == WithKey(u, a.score, a.casino.rating);
        assert WithKey(t, a.score, a.casino.rating)[0] == a;
        assert WithKey(u, a.score, a.casino.rating)[0] == b;
      }
      forall score, rating
        ensures WithKey(t[1..], score, rating) == WithKey(u[1..], score, rating)
      {
        var wt, wu := WithKey(t[1..], score, rating), WithKey(u[1..], score, rating);
        assert WithKey(t, score, rating) == WithKey(u, score, rating);
        if score == a.score && rating == a.casino.rating {
          assert WithKey(t, score, rating) == [a] + wt;
          assert WithKey(u, score, rating) == [a] + wu;
          assert ([a] + wt)[1..] == wt && ([a] + wu)[1..] == wu;
        } else {
          assert WithKey(t, score, rating) == wt;
          assert WithKey(u, score, rating) == wu;
        }
      }
      SameArrangement(t[1..], u[1..]);
    }
  }

  /** Any sorted rearrangement that keeps every key class in input order is
      the model's sort: every stable sort with this comparator agrees with it. */
  lemma StableSortIsUnique(s: seq<Scored>, t: seq<Scored>)
    requires Sorted(t)
    requires forall score, rating :: WithKey(t, score, rating) == WithKey(s, score, rating)
    ensures t == SortByRank(s)
  {
    forall score, rating
      ensures WithKey(t, score, rating) == WithKey(SortByRank(s), score, rating)
    {
      SortIsStable(s, score, rating);
    }
    SameArrangement(t, SortByRank(s));
  }

  /** `scored.filter((item) => item.score > 0)`. */
  function Positive(s: seq<Scored>): seq<Scored> {
    if s == [] then []
    else if s[0].score > 0.0 then [s[0]] + Positive(s[1..])
    else Positive(s[1..])
  }

  /** The `casinos.map(...)` that pairs each casino with its score, in catalog order. */
  function ScoreAll(catalog: seq<Casino>, answers: Answers): (r: seq<Scored>)
    ensures |r| == |catalog|
    ensures forall i :: 0 <= i < |r| ==> r[i].casino == catalog[i] && r[i].score == Score(catalog[i], answers)
  {
    if catalog == [] then []
    else [Scored(catalog[0], Score(catalog[0], answers))] + ScoreAll(catalog[1..], answers)
  }

  /** `.map((item) => item.casino)`. */
  function Casinos(s: seq<Scored>): (r: seq<Casino>)
    ensures |r| == |s|
    ensures forall i :: 0 <= i < |s| ==> r[i] == s[i].casino
  {
    if s == [] then [] else [s[0].casino] + Casinos(s[1..])
  }

  function Min(a: int, b: int): int {
    if a <= b then a else b
  }

  /** Every record carries the score of its casino. */
  ghost predicate Consistent(s: seq<Scored>, answers: Answers) {
    forall x :: x in s ==> x.score == Score(x.casino, answers)
  }

  /** The sorted, positive-score records, before truncation. */
  function Ranked(catalog: seq<Casino>, answers: Answers): seq<Scored> {
    Positive(SortByRank(ScoreAll(catalog, answers)))
  }

  /** `calculateResults`: at most three casinos of the catalog, each with a positive score. */
  function TopMatches(catalog: seq<Casino>, answers: Answers): (r: seq<Casino>)
    ensures |r| <= 3
    ensures forall i :: 0 <= i < |r| ==> r[i] in catalog && Score(r[i], answers) > 0.0
  {
    var ranked := Ranked(catalog, answers);
    RankedFacts(catalog, answers);
    Casinos(ranked[..Min(3, |ranked|)])
  }

  /** How many catalog entries score above zero. */
  function CountMatches(catalog: seq<Casino>, answers: Answers): nat {
    if catalog == [] then 0
    else (if Score(catalog[0], answers) > 0.0 then 1 else 0) + CountMatches(catalog[1..], answers)
  }

  lemma {:induction false} PositiveMembers(s: seq<Scored>, x: Scored)
    ensures x in Positive(s) <==> x in s && x.score > 0.0
  {
    if s != [] {
      PositiveMembers(s[1..], x);
      assert s == [s[0]] + s[1..];
    }
  }

  lemma {:induction false} PositiveSorted(s: seq<Scored>)
    requires Sorted(s)
    ensures Sorted(Positive(s))
  {
    if s != [] {
      PositiveSorted(s[1..]);
      if s[0].score > 0.0 {
        forall y | y in Positive(s[1..])
          ensures RanksAtLeast(s[0], y)
        {
          PositiveMembers(s[1..], y);
          var k :| 0 <= k < |s[1..]| && s[1..][k] == y;
          assert s[k + 1] == y;
        }
        SortedCons(s[0], Positive(s[1..]));
      }
    }
  }

  lemma {:induction false} PositiveInsert(x: Scored, s: seq<Scored>)
    ensures |Positive(Insert(x, s))| == |Positive(s)| + (if x.score > 0.0 then 1 else 0)
  {
    if s != [] && Compare(s[0], x) < 0.0 {
      PositiveInsert(x, s[1..]);
      assert ([s[0]] + Insert(x, s[1..]))[1..] == Insert(x, s[1..]);
    } else if s != [] {
      assert ([x] + s)[1..] == s;
    }
  }

  lemma {:induction false} PositiveSortCount(s: seq<Scored>)
    ensures |Positive(SortByRank(s))| == |Positive(s)|
  {
    if s != [] {
      PositiveSortCount(s[1..]);
      PositiveInsert(s[0], SortByRank(s[1..]));
    }
  }

  lemma {:induction false} CountMatchesPositive(catalog: seq<Casino>, answers: Answers)
    ensures CountMatches(catalog, answers) == |Positive(ScoreAll(catalog, answers))|
  {
    if catalog != [] {
      CountMatchesPositive(catalog[1..], answers);
      var s := ScoreAll(catalog, answers);
      assert s[1..] == ScoreAll(catalog[1..], answers);
    }
  }

  lemma {:induction false} WithKeyPositive(s: seq<Scored>, score: real, rating: real)
    ensures WithKey(Positive(s), score, rating) == if score > 0.0 then WithKey(s, score, rating) else []
  {
    if s != [] {
      WithKeyPositive(s[1..], score, rating);
      if s[0].score > 0.0 {
        assert ([s[0]] + Positive(s[1..]))[1..] == Positive(s[1..]);
      }
    }
  }

  lemma {:induction false} WithKeyPrefix(s: seq<Scored>, n: nat, score: real, rating: real)
    requires n <= |s|
    ensures WithKey(s[..n], score, rating) <= WithKey(s, score, rating)
  {
    if n > 0 {
      WithKeyPrefix(s[1..], n - 1, score, rating);
      assert s[..n][0] == s[0];
      assert s[..n][1..] == s[1..][..n - 1];
    }
  }

  /** The catalog entries with the given score and rating, in catalog order. */
  function Tied(cs: seq<Casino>, answers: Answers, score: real, rating: real): seq<Casino> {
    if cs == [] then []
    else if Score(cs[0], answers) == score && cs[0].rating == rating then [cs[0]] + Tied(cs[1..], answers, score, rating)
    else Tied(cs[1..], answers, score, rating)
  }

  lemma {:induction false} CasinosWithKey(s: seq<Scored>, answers: Answers, score: real, rating: real)
    requires Consistent(s, answers)
    ensures Casinos(WithKey(s, score, rating)) == Tied(Casinos(s), answers, score, rating)
  {
    if s != [] {
      assert s[0] in s;
      assert forall x :: x in s[1..] ==> x in s;
      CasinosWithKey(s[1..], answers, score, rating);
      assert Casinos(s)[1..] == Casinos(s[1..]);
      if s[0].score == score && s[0].casino.rating == rating {
        assert Casinos([s[0]] + WithKey(s[1..], score, rating))[1..] == Casinos(WithKey(s[1..], score, rating));
      }
    }
  }

  lemma {:induction false} CasinosOfScoreAll(catalog: seq<Casino>, answers: Answers)
    ensures Casinos(ScoreAll(catalog, answers)) == catalog
    ensures Consistent(ScoreAll(catalog, answers), answers)
  {
    var s := ScoreAll(catalog, answers);
    assert Casinos(s) == catalog;
    forall x | x in s
      ensures x.score == Score(x.casino, answers)
    {
      var k :| 0 <= k < |s| && s[k] == x;
    }
  }

  /** What the ranked list is made of, and how it is ordered. */
  lemma RankedFacts(catalog: seq<Casino>, answers: Answers)
    ensures Sorted(Ranked(catalog, answers))
    ensures Consistent(Ranked(catalog, answers), answers)
    ensures forall x :: x in Ranked(catalog, answers) <==> x in ScoreAll(catalog, answers) && x.score > 0.0
    ensures forall x :: x in ScoreAll(catalog, answers) ==> x.casino in catalog
    ensures |Ranked(catalog, answers)| == CountMatches(catalog, answers)
  {
    var all := ScoreAll(catalog, answers);
    var sorted := SortByRank(all);
    CasinosOfScoreAll(catalog, answers);
    PositiveSorted(sorted);
    forall x
      ensures x in Positive(sorted) <==> x in all && x.score > 0.0
    {
      PositiveMembers(sorted, x);
      assert x in sorted <==> x in multiset(sorted);
      assert x in all <==> x in multiset(all);
    }
    forall x | x in all
      ensures x.casino in catalog
    {
      var k :| 0 <= k < |all| && all[k] == x;
    }
    PositiveSortCount(all);
    CountMatchesPositive(catalog, answers);
  }

  /** The result has min(3, #positive) entries: empty exactly when no casino matches. */
  lemma TopMatchesLength(catalog: seq<Casino>, answers: Answers)
    ensures |TopMatches(catalog, answers)| == Min(3, CountMatches(catalog, answers))
    ensures TopMatches(catalog, answers) == [] <==> forall c :: c in catalog ==> Score(c, answers) == 0.0
  {
    RankedFacts(catalog, answers);
    CountMatchesZero(catalog, answers);
  }

  lemma {:induction false} CountMatchesZero(catalog: seq<Casino>, answers: Answers)
    ensures CountMatches(catalog, answers) == 0 <==> forall c :: c in catalog ==> Score(c, answers) == 0.0
  {
    if catalog != [] {
      CountMatchesZero(catalog[1..], answers);
      assert catalog == [catalog[0]] + catalog[1..];
    }
  }

  /** The result is ordered by score, then by rating, both descending. */
  lemma TopMatchesOrdered(catalog: seq<Casino>, answers: Answers)
    ensures var r := TopMatches(catalog, answers);
      forall i, j :: 0 <= i < j < |r| ==>
        Score(r[i], answers) > Score(r[j], answers)
        || (Score(r[i], answers) == Score(r[j], answers) && r[i].rating >= r[j].rating)
  {
    var ranked := Ranked(catalog, answers);
    RankedFacts(catalog, answers);
    var r := TopMatches(catalog, answers);
    forall i, j | 0 <= i < j < |r|
      ensures Score(r[i], answers) > Score(r[j], answers)
        || (Score(r[i], answers) == Score(r[j], answers) && r[i].rating >= r[j].rating)
    {
      assert r[i] == ranked[i].casino && r[j] == ranked[j].casino;
      assert ranked[i] in ranked && ranked[j] in ranked;
      assert RanksAtLeast(ranked[i], ranked[j]);
    }
  }

  /** Nothing better was left out: a matching casino missing from the result
      means the result is full and each entry ranks at least as high. */
  lemma TopMatchesComplete(catalog: seq<Casino>, answers: Answers, c: Casino)
    requires c in catalog && Score(c, answers) > 0.0
    requires c !in TopMatches(catalog, answers)
    ensures |TopMatches(catalog, answers)| == 3
    ensures var r := TopMatches(catalog, answers);
      forall i :: 0 <= i < |r| ==>
        Score(r[i], answers) > Score(c, answers)
        || (Score(r[i], answers) == Score(c, answers) && r[i].rating >= c.rating)
  {
    var all := ScoreAll(catalog, answers);
    var ranked := Ranked(catalog, answers);
    RankedFacts(catalog, answers);
    var k :| 0 <= k < |catalog| && catalog[k] == c;
    assert all[k] in all;
    var q :| 0 <= q < |ranked| && ranked[q] == all[k];
    LeftOutRanksBelow(ranked, q);
    var r := TopMatches(catalog, answers);
    forall i | 0 <= i < |r|
      ensures Score(r[i], answers) > Score(c, answers)
        || (Score(r[i], answers) == Score(c, answers) && r[i].rating >= c.rating)
    {
      assert ranked[i] in ranked && ranked[q] in ranked;
    }
  }

  /** In a sorted list, an entry at position three or later lies below the first three. */
  lemma LeftOutRanksBelow(ranked: seq<Scored>, q: nat)
    requires Sorted(ranked) && q < |ranked|
    requires ranked[q].casino !in Casinos(ranked[..Min(3, |ranked|)])
    ensures q >= 3 && Min(3, |ranked|) == 3
    ensures forall i :: 0 <= i < 3 ==> RanksAtLeast(ranked[i], ranked[q])
  {
    if q < 3 {
      assert false;
    }
  }

  /** Full ties keep catalog order: for every score and rating, the result's
      casinos with that key are a prefix of the catalog's casinos with it. */
  lemma TopMatchesStable(catalog: seq<Casino>, answers: Answers, score: real, rating: real)
    ensures Tied(TopMatches(catalog, answers), answers, score, rating) <= Tied(catalog, answers, score, rating)
  {
    var all := ScoreAll(catalog, answers);
    var sorted := SortByRank(all);
    var ranked := Ranked(catalog, answers);
    RankedFacts(catalog, answers);
    CasinosOfScoreAll(catalog, answers);
    var n := Min(3, |ranked|);
    var top := ranked[..n];
    assert Consistent(top, answers) by {
      forall x | x in top ensures x in ranked { }
    }
    CasinosWithKey(top, answers, score, rating);
    WithKeyPrefix(ranked, n, score, rating);
    WithKeyPositive(sorted, score, rating);
    SortIsStable(all, score, rating);
    CasinosWithKey(all, answers, score, rating);
    CasinosPrefix(WithKey(top, score, rating), WithKey(ranked, score, rating));
    if score <= 0.0 {
      assert WithKey(ranked, score, rating) == [];
    }
  }

  lemma CasinosPrefix(a: seq<Scored>, b: seq<Scored>)
    requires a <= b
    ensures Casinos(a) <= Casinos(b)
  {
    assert Casinos(b)[..|a|] == Casinos(a);
  }

  /** Equal scores fall back on rating, and a zero score is dropped whatever its rating. */
  lemma HigherRatingBreaksTie()
    ensures
      var answers := map[TypeKey := "online", BankingKey := "crypto"];
      var a := Casino("A", 4.5, ["online"], [], ["crypto"], "instant");
      var b := Casino("B", 4.8, ["online"], [], ["crypto"], "instant");
      var z := Casino("Z", 5.0, [], [], [], "instant");
      TopMatches([a, z, b], answers) == [b, a]
  {
    var answers := map[TypeKey := "online", BankingKey := "crypto"];
    var a := Casino("A", 4.5, ["online"], [], ["crypto"], "instant");
    var b := Casino("B", 4.8, ["online"], [], ["crypto"], "instant");
    var z := Casino("Z", 5.0, [], [], [], "instant");
    assert Score(a, answers) == 60.0 && Score(b, answers) == 60.0 && Score(z, answers) == 0.0;
    TieExample(a, z, b, answers);
  }

  lemma TieExample(a: Casino, z: Casino, b: Casino, answers: Answers)
    requires Score(a, answers) == Score(b, answers) > 0.0 && Score(z, answers) == 0.0
    requires a.rating < b.rating
    ensures TopMatches([a, z, b], answers) == [b, a]
  {
    var sa, sz, sb := Scored(a, Score(a, answers)), Scored(z, 0.0), Scored(b, Score(b, answers));
    ScoreAllOfThree(a, z, b, answers);
    TieExampleRanked(sa, sz, sb);
    var ranked := Ranked([a, z, b], answers);
    assert ranked == [sb, sa];
    assert ranked[..Min(3, |ranked|)] == [sb, sa];
    assert Casinos([sb, sa]) == [b, a];
  }

  lemma ScoreAllOfThree(a: Casino, z: Casino, b: Casino, answers: Answers)
    ensures ScoreAll([a, z, b], answers) == [Scored(a, Score(a, answers)), Scored(z, Score(z, answers)), Scored(b, Score(b, answers))]
  {
  }

  lemma TieExampleRanked(sa: Scored, sz: Scored, sb: Scored)
    requires sa.score == sb.score > 0.0 && sz.score == 0.0
    requires sa.casino.rating < sb.casino.rating
    ensures Positive(SortByRank([sa, sz, sb])) == [sb, sa]
  {
    SortStep(sb, []);
    SortStep(sz, [sb]);
    SortStep(sa, [sz, sb]);
    InsertLast(sz, sb);
    InsertLast(sa, sz);
    InsertSkip(sa, sb, [sz]);
    PositiveExample(sb, sa, sz);
  }

  lemma InsertLast(x: Scored, y: Scored)
    ensures Insert(x, [y]) == if Compare(y, x) < 0.0 then [y, x] else [x, y]
  {
    if Compare(y, x) < 0.0 {
      assert [y][1..] == [];
    }
  }

  lemma InsertSkip(x: Scored, y: Scored, rest: seq<Scored>)
    requires Compare(y, x) < 0.0
    ensures Insert(x, [y] + rest) == [y] + Insert(x, rest)
  {
    assert ([y] + rest)[1..] == rest;
  }

  lemma PositiveExample(sb: Scored, sa: Scored, sz: Scored)
    requires sa.score > 0.0 && sb.score > 0.0 && sz.score == 0.0
    ensures Positive([sb, sa, sz]) == [sb, sa]
  {
    assert [sb, sa, sz][1..] == [sa, sz] && [sa, sz][1..] == [sz] && [sz][1..] == [];
    assert Positive([sz]) == [];
    assert Positive([sa, sz]) == [sa];
  }

  lemma SortStep(x: Scored, s: seq<Scored>)
    ensures SortByRank([x] + s) == Insert(x, SortByRank(s))
  {
    assert ([x] + s)[1..] == s;
  }
}
