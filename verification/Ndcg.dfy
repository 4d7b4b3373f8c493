/** Ranking evaluation, services/ltr_trainer.py. The powers and logarithms of the formula are
    parameters, constrained only to be increasing and to have the values 2^0 = 1, log2(2) = 1. */
module Ndcg {
  import opened Prelude
  import opened StableSort

  type RealFn = real -> real

  /** 2 ** x and math.log2(x) */
  datatype Math = Math(pow2: RealFn, log2: RealFn)

  ghost predicate Faithful(m: Math) {
    && (forall x: real, y: real :: y > x ==> m.pow2(y) > m.pow2(x))
    && (forall x: real, y: real :: y > x > 0.0 ==> m.log2(y) > m.log2(x))
    && m.pow2(0.0) == 1.0 && m.log2(2.0) == 1.0
  }

  function Gain(m: Math, grade: real): real {
    m.pow2(grade) - 1.0
  }

  function LogRank(m: Math, rank: nat): real {
    m.log2((rank + 2) as real)
  }

  lemma LogRankIncreases(m: Math, rank: nat)
    requires Faithful(m)
    ensures 1.0 <= LogRank(m, rank) < LogRank(m, rank + 1)
  {
    assert (rank + 2) as real < (rank + 3) as real;
    if rank > 0 {
      assert m.log2(2.0) < m.log2((rank + 2) as real);
    }
  }

  /** One summand of the discounted gain; no gain counts from rank 10 on. */
  function Term(m: Math, grade: real, rank: nat): real {
    if rank >= 10 || LogRank(m, rank) == 0.0 then 0.0 else Gain(m, grade) / LogRank(m, rank)
  }

  /** The discounted cumulative gain of grades whose first has the given rank. */
  function Dcg(m: Math, grades: seq<real>, rank: nat): real {
    if grades == [] then 0.0 else Term(m, grades[0], rank) + Dcg(m, grades[1..], rank + 1)
  }

  /** The first result counts in full and each later one is divided by more, up to the tenth. */
  lemma DiscountsGrow(m: Math, x: real, rank: nat)
    requires Faithful(m) && x > 0.0
    ensures Term(m, x, 0) == m.pow2(x) - 1.0 > 0.0
    ensures rank < 9 ==> Term(m, x, rank + 1) < Term(m, x, rank)
    ensures rank >= 10 ==> Term(m, x, rank) == 0.0
  {
    assert m.pow2(x) > m.pow2(0.0);
    assert (0 + 2) as real == 2.0;
    LogRankIncreases(m, rank);
    if rank < 9 {
      LogRankIncreases(m, rank + 1);
      QuotientDecreases(Gain(m, x), LogRank(m, rank), LogRank(m, rank + 1));
    }
  }

  function Descending(grades: seq<real>): seq<real> {
    SortBy(grades, (x: real) => -x)
  }

  function Insert(x: real, grades: seq<real>): seq<real> {
    InsertBy(x, grades, (x: real) => -x)
  }

  ghost predicate IsDescending(grades: seq<real>) {
    forall i, j :: 0 <= i < j < |grades| ==> grades[i] >= grades[j]
  }

  // ---------------------------------------------------------------- the rearrangement inequality

  lemma SwapQuotients(x: real, t: real, a: real, b: real)
    requires x < t && 0.0 < a < b
    ensures x / a + t / b < t / a + x / b
  {
    var d := t - x;
    assert t / a - x / a == d / a;
    assert t / b - x / b == d / b;
    QuotientDecreases(d, a, b);
  }

  lemma QuotientDecreases(d: real, a: real, b: real)
    requires d > 0.0 && 0.0 < a < b
    ensures d / b < d / a
  {
    var p, q := d / a, d / b;
    assert p * a == d && q * b == d && q > 0.0;
    assert q * a < q * b;
    assert (p - q) * a > 0.0;
  }

  /** Of two neighbours it pays to put the larger first, strictly before rank 10. */
  lemma SwapTerms(m: Math, x: real, t: real, rank: nat)
    requires Faithful(m) && x < t
    ensures Term(m, x, rank) + Term(m, t, rank + 1) <= Term(m, t, rank) + Term(m, x, rank + 1)
    ensures rank < 10 ==>
      Term(m, x, rank) + Term(m, t, rank + 1) < Term(m, t, rank) + Term(m, x, rank + 1)
  {
    var a, b := LogRank(m, rank), LogRank(m, rank + 1);
    LogRankIncreases(m, rank);
    LogRankIncreases(m, rank + 1);
    assert Gain(m, x) < Gain(m, t);
    if rank + 1 < 10 {
      SwapQuotients(Gain(m, x), Gain(m, t), a, b);
    } else if rank < 10 {
      QuotientIncreases(Gain(m, x), Gain(m, t), a);
    }
  }

  lemma QuotientIncreases(x: real, t: real, a: real)
    requires x < t && 0.0 < a
    ensures x / a < t / a
  {
    assert t / a - x / a == (t - x) / a;
  }

  /** Inserting into a descending list gains over putting in front, strictly if it matters. */
  lemma {:induction false} InsertGains(m: Math, x: real, grades: seq<real>, rank: nat)
    requires Faithful(m) && IsDescending(grades)
    ensures Dcg(m, [x] + grades, rank) <= Dcg(m, Insert(x, grades), rank)
    ensures grades != [] && x < grades[0] && rank < 10 ==>
      Dcg(m, [x] + grades, rank) < Dcg(m, Insert(x, grades), rank)
    ensures grades == [] || x >= grades[0] ==> Insert(x, grades) == [x] + grades
  {
    if grades != [] && x < grades[0] {
      var t, rest := grades[0], grades[1..];
      InsertGains(m, x, rest, rank + 1);
      assert Insert(x, grades) == [t] + Insert(x, rest);
      SwapTerms(m, x, t, rank);
      assert ([x] + grades)[1..] == grades;
      assert ([x] + rest)[1..] == rest;
      assert ([t] + Insert(x, rest))[1..] == Insert(x, rest);
    }
  }

  lemma SortedDescends(grades: seq<real>)
    ensures IsDescending(Descending(grades))
  {
    var key := (x: real) => -x;
    var r := SortBy(grades, key);
    forall i, j | 0 <= i < j < |r|
      ensures r[i] >= r[j]
    {
      assert key(r[i]) <= key(r[j]);
    }
  }

  lemma DcgCons(m: Math, x: real, s: seq<real>, rank: nat)
    ensures Dcg(m, [x] + s, rank) == Term(m, x, rank) + Dcg(m, s, rank + 1)
  {
    assert ([x] + s)[1..] == s;
  }

  lemma DescendingCons(x: real, rest: seq<real>)
    ensures Descending([x] + rest) == Insert(x, Descending(rest))
  {
    assert ([x] + rest)[1..] == rest;
  }

  /** If sorting the rest does not lose, neither does inserting the first; and if nothing is gained
      where it counts, the first was in place already. */
  lemma PutFirst(m: Math, x: real, rest: seq<real>, sorted: seq<real>, rank: nat)
    requires Faithful(m) && IsDescending(sorted) && Dcg(m, rest, rank + 1) <= Dcg(m, sorted, rank + 1)
    ensures Dcg(m, [x] + rest, rank) <= Dcg(m, Insert(x, sorted), rank)
    ensures rank < 10 && Dcg(m, [x] + rest, rank) == Dcg(m, Insert(x, sorted), rank) ==>
              Insert(x, sorted) == [x] + sorted && Dcg(m, rest, rank + 1) == Dcg(m, sorted, rank + 1)
  {
    DcgCons(m, x, rest, rank);
    DcgCons(m, x, sorted, rank);
    InsertGains(m, x, sorted, rank);
  }

  /** No order of the grades has a larger discounted gain than the descending one, and one that
      has as large a gain agrees with it on the ranks that count. */
  lemma {:induction false} Rearrangement(m: Math, grades: seq<real>, rank: nat)
    requires Faithful(m)
    ensures Dcg(m, grades, rank) <= Dcg(m, Descending(grades), rank)
    ensures rank <= 10 && Dcg(m, grades, rank) == Dcg(m, Descending(grades), rank) ==>
      Take(grades, 10 - rank) == Take(Descending(grades), 10 - rank)
  {
    if grades == [] {
    } else {
      var x, rest := grades[0], grades[1..];
      assert grades == [x] + rest;
      Rearrangement(m, rest, rank + 1);
      SortedDescends(rest);
      DescendingCons(x, rest);
      PutFirst(m, x, rest, Descending(rest), rank);
      if rank < 10 {
        TakeCons(x, rest, 10 - rank);
        TakeCons(x, Descending(rest), 10 - rank);
      }
    }
  }

  lemma TakeCons(x: real, s: seq<real>, k: nat)
    requires k > 0
    ensures Take([x] + s, k) == [x] + Take(s, k - 1)
  {
  }

  // ---------------------------------------------------------------- one query

  datatype Scored = Scored(score: real, grade: real)

  function Grades(scored: seq<Scored>): (grades: seq<real>)
    ensures |grades| == |scored| && forall i :: 0 <= i < |scored| ==> grades[i] == scored[i].grade
  {
    seq(|scored|, i requires 0 <= i < |scored| => scored[i].grade)
  }

  function ByScore(scored: seq<Scored>): seq<Scored> {
    SortBy(scored, (p: Scored) => -p.score)
  }

  function IdealDcg(m: Math, scored: seq<Scored>): real {
    Dcg(m, Take(Descending(Grades(scored)), 10), 0)
  }

  function NdcgOf(m: Math, scored: seq<Scored>): real {
    var dcg := Dcg(m, Take(Grades(ByScore(scored)), 10), 0);
    var idcg := IdealDcg(m, scored);
    if idcg > 0.0 then dcg / idcg else 0.0
  }

  /** Cutting at 10 loses nothing that counts. */
  lemma {:induction false} DcgOfTake(m: Math, grades: seq<real>, rank: nat)
    requires rank <= 10
    ensures Dcg(m, Take(grades, 10 - rank), rank) == Dcg(m, grades, rank)
  {
    if rank == 10 {
      DcgBeyond(m, grades, 10);
    } else if grades != [] {
      DcgOfTake(m, grades[1..], rank + 1);
      assert Take(grades, 10 - rank)[1..] == Take(grades[1..], 9 - rank);
    }
  }

  lemma {:induction false} DcgBeyond(m: Math, grades: seq<real>, rank: nat)
    requires rank >= 10
    ensures Dcg(m, grades, rank) == 0.0
  {
    if grades == [] {
    } else {
      DcgBeyond(m, grades[1..], rank + 1);
    }
  }

  lemma {:induction false} DcgNonNegative(m: Math, grades: seq<real>, rank: nat)
    requires Faithful(m) && forall i :: 0 <= i < |grades| ==> grades[i] >= 0.0
    ensures Dcg(m, grades, rank) >= 0.0
  {
    if grades == [] {
    } else {
      DcgNonNegative(m, grades[1..], rank + 1);
      LogRankIncreases(m, rank);
      assert Gain(m, grades[0]) >= 0.0 by {
        if grades[0] > 0.0 {
          assert m.pow2(0.0) < m.pow2(grades[0]);
        }
      }
      QuotientNonNegative(Gain(m, grades[0]), LogRank(m, rank));
    }
  }

  lemma QuotientNonNegative(x: real, a: real)
    requires x >= 0.0 && a > 0.0
    ensures x / a >= 0.0
  {
  }

  lemma LargestFirst(a: seq<real>, b: seq<real>)
    requires IsDescending(a) && IsDescending(b) && multiset(a) == multiset(b) && a != []
    ensures b != [] && a[0] == b[0]
  {
    assert a[0] in multiset(b);
    assert b[0] in multiset(a);
    assert a[0] in b && b[0] in a;
  }

  lemma TailsAgree(a: seq<real>, b: seq<real>)
    requires multiset(a) == multiset(b) && a != [] && b != [] && a[0] == b[0]
    ensures multiset(a[1..]) == multiset(b[1..])
  {
    assert a == [a[0]] + a[1..] && b == [b[0]] + b[1..];
    assert multiset(a[1..]) == multiset(a) - multiset{a[0]};
    assert multiset(b[1..]) == multiset(b) - multiset{b[0]};
  }

  /** Sorting depends on the elements only, not on the order they come in. */
  lemma {:induction false} DescendingUnique(a: seq<real>, b: seq<real>)
    requires IsDescending(a) && IsDescending(b) && multiset(a) == multiset(b)
    ensures a == b
  {
    assert |a| == |multiset(a)| == |b|;
    if a == [] {
    } else {
      LargestFirst(a, b);
      TailsAgree(a, b);
      DescendingUnique(a[1..], b[1..]);
      assert a == [a[0]] + a[1..] && b == [b[0]] + b[1..];
    }
  }

  lemma {:induction false} GradesMultiset(a: seq<Scored>, b: seq<Scored>)
    requires multiset(a) == multiset(b)
    ensures multiset(Grades(a)) == multiset(Grades(b))
    decreases |a|
  {
    assert |a| == |multiset(a)| == |b|;
    if a == [] {
      assert Grades(a) == Grades(b);
    } else {
      var n := |a| - 1;
      var i := RemoveCommon(a, b);
      GradesMultiset(a[..n], b[..i] + b[i + 1..]);
      GradesWithout(a, n);
      GradesWithout(b, i);
      assert a[..n] + a[n + 1..] == a[..n];
    }
  }

  lemma GradesWithout(s: seq<Scored>, i: nat)
    requires i < |s|
    ensures multiset(Grades(s)) == multiset(Grades(s[..i] + s[i + 1..])) + multiset{s[i].grade}
  {
    MultisetWithout(Grades(s), i);
    assert Grades(s[..i] + s[i + 1..]) == Grades(s)[..i] + Grades(s)[i + 1..];
  }

  lemma SameIdeal(scored: seq<Scored>)
    ensures Descending(Grades(ByScore(scored))) == Descending(Grades(scored))
  {
    GradesMultiset(ByScore(scored), scored);
    SortedDescends(Grades(ByScore(scored)));
    SortedDescends(Grades(scored));
    DescendingUnique(Descending(Grades(ByScore(scored))), Descending(Grades(scored)));
  }

  /** The bound: whatever the scores, the discounted gain of a ranking never exceeds the ideal one,
      and reaches it exactly if the ten grades that count are the ideal ones, in their order. */
  lemma DcgAtMostIdeal(m: Math, scored: seq<Scored>)
    requires Faithful(m)
    ensures
      var top := Take(Grades(ByScore(scored)), 10);
      && Dcg(m, top, 0) <= IdealDcg(m, scored)
      && (Dcg(m, top, 0) == IdealDcg(m, scored) <==> top == Take(Descending(Grades(scored)), 10))
  {
    var ranked := Grades(ByScore(scored));
    SameIdeal(scored);
    Rearrangement(m, ranked, 0);
    DcgOfTake(m, ranked, 0);
    DcgOfTake(m, Descending(ranked), 0);
  }

  lemma Ratio(x: real, y: real)
    requires y > 0.0 && x <= y
    ensures x / y <= 1.0
    ensures x >= 0.0 ==> x / y >= 0.0
    ensures x / y == 1.0 <==> x == y
  {
    assert x / y * y == x;
  }

  /** NDCG@10 of any query never exceeds 1, is not negative if no grade is, and is 1 exactly for
      a ranking that starts with the ideal ten grades of a query with positive ideal gain. */
  lemma NdcgBounds(m: Math, scored: seq<Scored>)
    requires Faithful(m)
    ensures NdcgOf(m, scored) <= 1.0
    ensures (forall i :: 0 <= i < |scored| ==> scored[i].grade >= 0.0) ==> NdcgOf(m, scored) >= 0.0
    ensures NdcgOf(m, scored) == 1.0 <==>
            IdealDcg(m, scored) > 0.0 &&
            Take(Grades(ByScore(scored)), 10) == Take(Descending(Grades(scored)), 10)
  {
    DcgAtMostIdeal(m, scored);
    var top := Take(Grades(ByScore(scored)), 10);
    if IdealDcg(m, scored) > 0.0 {
      Ratio(Dcg(m, top, 0), IdealDcg(m, scored));
      if forall i :: 0 <= i < |scored| ==> scored[i].grade >= 0.0 {
        RankedGrades(scored);
        DcgNonNegative(m, top, 0);
        Ratio(Dcg(m, top, 0), IdealDcg(m, scored));
      }
    }
  }

  lemma RankedGrades(scored: seq<Scored>)
    requires forall i :: 0 <= i < |scored| ==> scored[i].grade >= 0.0
    ensures forall i :: 0 <= i < |scored| ==> Grades(ByScore(scored))[i] >= 0.0
  {
    SortSameElements(scored, (p: Scored) => -p.score);
    forall i | 0 <= i < |scored|
      ensures Grades(ByScore(scored))[i] >= 0.0
    {
      assert ByScore(scored)[i] in ByScore(scored);
    }
  }

  /** A grade-sorted ranking with positive ideal gain scores 1. */
  lemma GradeSortedIsPerfect(m: Math, scored: seq<Scored>)
    requires Faithful(m) && IsDescending(Grades(ByScore(scored))) && IdealDcg(m, scored) > 0.0
    ensures NdcgOf(m, scored) == 1.0
  {
    SameIdeal(scored);
    SortedDescends(Grades(ByScore(scored)));
    DescendingUnique(Grades(ByScore(scored)), Descending(Grades(ByScore(scored))));
    NdcgBounds(m, scored);
  }

  // ---------------------------------------------------------------- the value in terms of the scores

  /** The results with a given score, in order. */
  function ScoredAt(s: seq<Scored>, x: real): seq<Scored> {
    if s == [] then [] else (if s[0].score == x then [s[0]] else []) + ScoredAt(s[1..], x)
  }

  /** Best score first, and results of equal score in the order they came in. */
  ghost predicate Ranks(ranked: seq<Scored>, scored: seq<Scored>) {
    && (forall i, j :: 0 <= i < j < |ranked| ==> ranked[i].score >= ranked[j].score)
    && (forall x :: ScoredAt(ranked, x) == ScoredAt(scored, x))
  }

  lemma {:induction false} ScoredAtIsKey(s: seq<Scored>, x: real)
    ensures ScoredAt(s, x) == WithKey(s, (p: Scored) => -p.score, -x)
  {
    if s == [] {
    } else {
      ScoredAtIsKey(s[1..], x);
    }
  }

  /** The evaluated ranking is a permutation by descending score that keeps the order of ties. */
  lemma RankedByScore(scored: seq<Scored>)
    ensures Ranks(ByScore(scored), scored) && multiset(ByScore(scored)) == multiset(scored)
  {
    var key := (p: Scored) => -p.score;
    forall x: real
      ensures ScoredAt(ByScore(scored), x) == ScoredAt(scored, x)
    {
      SortStable(scored, key, -x);
      ScoredAtIsKey(scored, x);
      ScoredAtIsKey(ByScore(scored), x);
    }
    assert SortedBy(SortBy(scored, key), key);
    forall i, j | 0 <= i < j < |ByScore(scored)|
      ensures ByScore(scored)[i].score >= ByScore(scored)[j].score
    {
      assert key(ByScore(scored)[i]) <= key(ByScore(scored)[j]);
    }
  }

  lemma {:induction false} ScoredAtHas(s: seq<Scored>, x: real)
    ensures ScoredAt(s, x) != [] <==> exists i :: 0 <= i < |s| && s[i].score == x
  {
    if s == [] {
    } else {
      ScoredAtHas(s[1..], x);
      if i :| 0 <= i < |s[1..]| && s[1..][i].score == x {
        assert s[i + 1].score == x;
      }
      if i :| 0 <= i < |s| && s[i].score == x {
        assert i > 0 ==> s[1..][i - 1].score == x;
      }
    }
  }

  /** Two best-first lists that agree score by score start with the same result. */
  lemma SameBest(a: seq<Scored>, b: seq<Scored>)
    requires Ranks(a, b) && Ranks(b, b) && a != []
    ensures b != [] && a[0] == b[0]
  {
    ScoredAtHas(a, a[0].score);
    ScoredAtHas(b, a[0].score);
    ScoredAtHas(a, b[0].score);
    ScoredAtHas(b, b[0].score);
    assert ScoredAt(a, a[0].score)[0] == a[0] && ScoredAt(b, b[0].score)[0] == b[0];
  }

  /** Only one list ranks the results. */
  lemma {:induction false} RankingUnique(a: seq<Scored>, b: seq<Scored>)
    requires Ranks(a, b) && Ranks(b, b)
    ensures a == b
  {
    if a == [] {
      if b != [] {
        ScoredAtHas(a, b[0].score);
        ScoredAtHas(b, b[0].score);
      }
    } else {
      SameBest(a, b);
      forall x
        ensures ScoredAt(a[1..], x) == ScoredAt(b[1..], x)
      {
        assert ScoredAt(a, x) == ScoredAt(b, x);
        assert ScoredAt(a[1..], x) == ScoredAt(a, x)[if a[0].score == x then 1 else 0..];
        assert ScoredAt(b[1..], x) == ScoredAt(b, x)[if b[0].score == x then 1 else 0..];
      }
      RankingUnique(a[1..], b[1..]);
      assert a == [a[0]] + a[1..] && b == [b[0]] + b[1..];
    }
  }

  /** (2^g - 1) / log2(i + 2), summed over the first n ranks i. */
  ghost function DiscountedSum(m: Math, grades: seq<real>, n: nat): real
    requires Faithful(m) && n <= |grades|
  {
    if n == 0 then 0.0 else
      LogRankIncreases(m, n - 1);
      DiscountedSum(m, grades, n - 1) + (m.pow2(grades[n - 1]) - 1.0) / m.log2((n + 1) as real)
  }

  lemma {:induction false} DcgSnoc(m: Math, grades: seq<real>, g: real, rank: nat)
    ensures Dcg(m, grades + [g], rank) == Dcg(m, grades, rank) + Term(m, g, rank + |grades|)
  {
    if grades == [] {
      assert [] + [g] == [g] && [g][1..] == [];
      assert Dcg(m, [], rank) == 0.0 && Dcg(m, [], rank + 1) == 0.0;
    } else {
      assert (grades + [g])[1..] == grades[1..] + [g];
      DcgSnoc(m, grades[1..], g, rank + 1);
    }
  }

  lemma {:induction false} DcgIsSum(m: Math, grades: seq<real>, n: nat)
    requires Faithful(m) && n <= |grades| && n <= 10
    ensures Dcg(m, grades[..n], 0) == DiscountedSum(m, grades, n)
  {
    if n == 0 {
    } else {
      DcgIsSum(m, grades, n - 1);
      DcgSnoc(m, grades[..n - 1], grades[n - 1], 0);
      assert grades[..n] == grades[..n - 1] + [grades[n - 1]];
      LogRankIncreases(m, n - 1);
    }
  }

  function FirstTen(n: nat): nat {
    if n <= 10 then n else 10
  }

  /** The value of a query: of whatever ranks the results by score, and whatever puts their grades in
      descending order, the quotient of the two discounted sums, or 0 if the second is not positive. */
  lemma NdcgIs(m: Math, scored: seq<Scored>, ranked: seq<Scored>, ideal: seq<real>)
    requires Faithful(m) && Ranks(ranked, scored)
    requires IsDescending(ideal) && multiset(ideal) == multiset(Grades(scored))
    ensures |ranked| == |scored| == |ideal|
    ensures
      var gain := DiscountedSum(m, Grades(ranked), FirstTen(|scored|));
      var best := DiscountedSum(m, ideal, FirstTen(|scored|));
      QuotientOf(NdcgOf(m, scored), gain, best)
  {
    RankedByScore(scored);
    RankingUnique(ranked, ByScore(scored));
    SortedDescends(Grades(scored));
    DescendingUnique(ideal, Descending(Grades(scored)));
    TopTenIs(m, Grades(ranked));
    TopTenIs(m, ideal);
    assert |ranked| == |multiset(ByScore(scored))| == |scored| && |ideal| == |multiset(ideal)| == |scored|;
    QuotientIs(DiscountedSum(m, Grades(ranked), FirstTen(|ranked|)), DiscountedSum(m, ideal, FirstTen(|ideal|)));
  }

  lemma TopTenIs(m: Math, grades: seq<real>)
    requires Faithful(m)
    ensures Dcg(m, Take(grades, 10), 0) == DiscountedSum(m, grades, FirstTen(|grades|))
  {
    DcgIsSum(m, grades, FirstTen(|grades|));
    assert Take(grades, 10) == grades[..FirstTen(|grades|)];
  }

  /** r is gain / best, or 0 if best is not positive. */
  predicate QuotientOf(r: real, gain: real, best: real) {
    if best > 0.0 then r * best == gain else r == 0.0
  }

  lemma QuotientIs(gain: real, best: real)
    ensures QuotientOf(if best > 0.0 then gain / best else 0.0, gain, best)
  {
    if best > 0.0 {
      QuotientBack(gain, best);
    }
  }

  lemma QuotientBack(x: real, y: real)
    requires y != 0.0
    ensures x / y * y == x
  {
  }

  /** If a better grade always has a better score, and any gain is to be had, the value is 1. */
  lemma ScoresFollowGrades(m: Math, scored: seq<Scored>)
    requires Faithful(m) && IdealDcg(m, scored) > 0.0
    requires forall p, q :: p in scored && q in scored && p.grade > q.grade ==> p.score > q.score
    ensures NdcgOf(m, scored) == 1.0
  {
    var ranked := ByScore(scored);
    RankedByScore(scored);
    SortSameElements(scored, (p: Scored) => -p.score);
    forall i, j | 0 <= i < j < |ranked|
      ensures Grades(ranked)[i] >= Grades(ranked)[j]
    {
      assert ranked[i] in ranked && ranked[j] in ranked;
    }
    GradeSortedIsPerfect(m, scored);
  }

  /** A relevant result that scores better than all others is found at once. */
  lemma BestIsRelevant(scored: seq<Scored>, b: nat)
    requires b < |scored| && scored[b].grade > 0.0
    requires forall i :: 0 <= i < |scored| && i != b ==> scored[i].score < scored[b].score
    ensures ReciprocalRank(ByScore(scored), 0) == 1.0
  {
    var ranked := ByScore(scored);
    RankedByScore(scored);
    SortSameElements(scored, (p: Scored) => -p.score);
    assert scored[b] in ranked;
    var r :| 0 <= r < |ranked| && ranked[r] == scored[b];
    assert ranked[0] in ranked;
    var i :| 0 <= i < |scored| && scored[i] == ranked[0];
    assert ranked[0].score >= ranked[r].score;
    assert Relevant(ranked, 0);
  }

  // ---------------------------------------------------------------- all queries

  /** One test pair with the score the model gives it. */
  datatype Pair = Pair(queryId: string, scored: Scored)

  /** The pairs of one query, in order. */
  function OfQuery(pairs: seq<Pair>, q: string): seq<Scored> {
    if pairs == [] then [] else
      OfQuery(pairs[..|pairs| - 1], q) + if pairs[|pairs| - 1].queryId == q then [pairs[|pairs| - 1].scored] else []
  }

  /** The queries in the order they are first met. */
  function Queries(pairs: seq<Pair>): seq<string> {
    if pairs == [] then [] else
      var qs, q := Queries(pairs[..|pairs| - 1]), pairs[|pairs| - 1].queryId;
      if q in qs then qs else qs + [q]
  }

  /** The groups divide the pairs: a list's pairs of a query are those of its parts, one after the other. */
  lemma {:induction false} OfQuerySplits(a: seq<Pair>, b: seq<Pair>, q: string)
    ensures OfQuery(a + b, q) == OfQuery(a, q) + OfQuery(b, q)
  {
    if b == [] {
      assert a + b == a;
    } else {
      assert (a + b)[..|a + b| - 1] == a + b[..|b| - 1];
      OfQuerySplits(a, b[..|b| - 1], q);
    }
  }

  lemma OfQueryOne(p: Pair, q: string)
    ensures OfQuery([p], q) == if p.queryId == q then [p.scored] else []
  {
    assert [p][..0] == [];
  }

  /** Every query is evaluated once. */
  lemma {:induction false} QueriesOnce(pairs: seq<Pair>)
    ensures Distinct(Queries(pairs))
    ensures forall q :: q in Queries(pairs) <==> exists i :: 0 <= i < |pairs| && pairs[i].queryId == q
  {
    if pairs == [] {
    } else {
      var init := pairs[..|pairs| - 1];
      QueriesOnce(init);
      forall q
        ensures q in Queries(pairs) <==> exists i :: 0 <= i < |pairs| && pairs[i].queryId == q
      {
        if i :| 0 <= i < |init| && init[i].queryId == q {
          assert pairs[i].queryId == q;
        }
        if i :| 0 <= i < |pairs| && pairs[i].queryId == q {
          assert i < |init| ==> init[i].queryId == q;
        }
      }
    }
  }

  predicate Relevant(scored: seq<Scored>, rank: nat) {
    rank < |scored| && rank < 10 && scored[rank].grade > 0.0
  }

  /** 1/(rank + 1) for the first relevant rank from the given one on, within the ten best, or 0. */
  function ReciprocalRank(scored: seq<Scored>, rank: nat): (rr: real)
    ensures rr == 0.0 <==> forall i: nat :: i >= rank ==> !Relevant(scored, i)
    ensures rr != 0.0 ==> exists i: nat :: i >= rank && Relevant(scored, i) && rr == 1.0 / (i + 1) as real &&
                            forall j: nat :: rank <= j < i ==> !Relevant(scored, j)
    decreases 10 - rank
  {
    if rank >= |scored| || rank >= 10 then 0.0
    else if Relevant(scored, rank) then
      Ratio(1.0, (rank + 1) as real);
      1.0 / (rank + 1) as real
    else ReciprocalRank(scored, rank + 1)
  }

  lemma {:induction false} ReciprocalRankBounds(scored: seq<Scored>, rank: nat)
    ensures 0.0 <= ReciprocalRank(scored, rank) <= 1.0
    decreases 10 - rank
  {
    if rank < |scored| && rank < 10 {
      if Relevant(scored, rank) {
        Ratio(1.0, (rank + 1) as real);
      } else {
        ReciprocalRankBounds(scored, rank + 1);
      }
    }
  }

  method ReciprocalRankLoop(scored: seq<Scored>) returns (rr: real)
    ensures rr == ReciprocalRank(scored, 0)
  {
    var rank := 0;
    while rank < |scored| && rank < 10
      invariant ReciprocalRank(scored, 0) == ReciprocalRank(scored, rank)
    {
      if scored[rank].grade > 0.0 {
        return 1.0 / (rank + 1) as real;
      }
      rank := rank + 1;
    }
    return 0.0;
  }

  method DcgLoop(m: Math, grades: seq<real>) returns (dcg: real)
    requires Faithful(m)
    ensures dcg == Dcg(m, Take(grades, 10), 0)
  {
    var top := Take(grades, 10);
    dcg := 0.0;
    for rank := 0 to |top|
      invariant dcg + Dcg(m, top[rank..], rank) == Dcg(m, top, 0)
    {
      LogRankIncreases(m, rank);
      assert top[rank..][1..] == top[rank + 1..] && top[rank..][0] == top[rank];
      dcg := dcg + Gain(m, top[rank]) / LogRank(m, rank);
    }
  }

  function Total(xs: seq<real>): real {
    if xs == [] then 0.0 else Total(xs[..|xs| - 1]) + xs[|xs| - 1]
  }

  function MeanOf(xs: seq<real>): real {
    if xs == [] then 0.0 else Total(xs) / |xs| as real
  }

  lemma {:induction false} TotalAdds(a: seq<real>, b: seq<real>)
    ensures Total(a + b) == Total(a) + Total(b)
  {
    if b == [] {
      assert a + b == a;
    } else {
      assert (a + b)[..|a + b| - 1] == a + b[..|b| - 1];
      TotalAdds(a, b[..|b| - 1]);
    }
  }

  /** The mean of two lists together is that of each, weighted by its length. */
  lemma MeansCombine(a: seq<real>, b: seq<real>)
    ensures MeanOf(a + b) * (|a| + |b|) as real == MeanOf(a) * |a| as real + MeanOf(b) * |b| as real
    ensures forall x :: MeanOf([x]) == x
  {
    TotalAdds(a, b);
    MeanTimes(a);
    MeanTimes(b);
    MeanTimes(a + b);
    forall x
      ensures MeanOf([x]) == x
    {
      assert [x][..0] == [] && Total([x]) == x;
      MeanTimes([x]);
    }
  }

  lemma MeanTimes(xs: seq<real>)
    ensures MeanOf(xs) * |xs| as real == Total(xs)
  {
    if xs != [] {
      QuotientBack(Total(xs), |xs| as real);
    }
  }

  lemma {:induction false} TotalBounds(xs: seq<real>)
    ensures (forall i :: 0 <= i < |xs| ==> xs[i] <= 1.0) ==> Total(xs) <= |xs| as real
    ensures (forall i :: 0 <= i < |xs| ==> xs[i] >= 0.0) ==> Total(xs) >= 0.0
  {
    if xs == [] {
    } else {
      TotalBounds(xs[..|xs| - 1]);
    }
  }

  lemma MeanBounds(xs: seq<real>)
    requires forall i :: 0 <= i < |xs| ==> xs[i] <= 1.0
    ensures MeanOf(xs) <= 1.0
    ensures (forall i :: 0 <= i < |xs| ==> xs[i] >= 0.0) ==> MeanOf(xs) >= 0.0
  {
    TotalBounds(xs);
    if xs != [] {
      Ratio(Total(xs), |xs| as real);
    }
  }

  datatype Evaluation = Evaluation(ndcgAt10: real, mrr: real, numQueries: nat, numPairs: nat)

  /** The groups dictionary: its keys in order and its lists. */
  method Group(pairs: seq<Pair>) returns (order: seq<string>, groups: map<string, seq<Scored>>)
    ensures order == Queries(pairs)
    ensures forall q :: q in order <==> q in groups
    ensures forall q :: q in groups ==> groups[q] == OfQuery(pairs, q)
  {
    order, groups := [], map[];
    for i := 0 to |pairs|
      invariant order == Queries(pairs[..i])
      invariant forall q :: q in order <==> q in groups
      invariant forall q :: (if q in groups then groups[q] else []) == OfQuery(pairs[..i], q)
    {
      assert pairs[..i + 1][..i] == pairs[..i];
      var q := pairs[i].queryId;
      if q !in groups {
        order := order + [q];
      }
      groups := groups[q := (if q in groups then groups[q] else []) + [pairs[i].scored]];
    }
    assert pairs[..|pairs|] == pairs;
  }

  /** The values of the queries, in order. */
  function NdcgScores(m: Math, pairs: seq<Pair>, order: seq<string>): (scores: seq<real>)
    ensures |scores| == |order|
    ensures forall i :: 0 <= i < |scores| ==> scores[i] == NdcgOf(m, OfQuery(pairs, order[i]))
  {
    seq(|order|, i requires 0 <= i < |order| => NdcgOf(m, OfQuery(pairs, order[i])))
  }

  function MrrScores(pairs: seq<Pair>, order: seq<string>): (scores: seq<real>)
    ensures |scores| == |order|
    ensures forall i :: 0 <= i < |scores| ==> scores[i] == ReciprocalRank(ByScore(OfQuery(pairs, order[i])), 0)
  {
    seq(|order|, i requires 0 <= i < |order| => ReciprocalRank(ByScore(OfQuery(pairs, order[i])), 0))
  }

  method EvaluateQuery(m: Math, group: seq<Scored>) returns (ndcg: real, rr: real)
    requires Faithful(m)
    ensures ndcg == NdcgOf(m, group) && rr == ReciprocalRank(ByScore(group), 0)
  {
    var ranked := ByScore(group);
    var dcg := DcgLoop(m, Grades(ranked));
    var idcg := DcgLoop(m, Descending(Grades(group)));
    ndcg := if idcg > 0.0 then dcg / idcg else 0.0;
    rr := ReciprocalRankLoop(ranked);
  }

  lemma NdcgOneMore(m: Math, pairs: seq<Pair>, order: seq<string>, i: nat)
    requires i < |order|
    ensures NdcgScores(m, pairs, order[..i + 1]) ==
            NdcgScores(m, pairs, order[..i]) + [NdcgOf(m, OfQuery(pairs, order[i]))]
  {
  }

  lemma MrrOneMore(pairs: seq<Pair>, order: seq<string>, i: nat)
    requires i < |order|
    ensures MrrScores(pairs, order[..i + 1]) ==
            MrrScores(pairs, order[..i]) + [ReciprocalRank(ByScore(OfQuery(pairs, order[i])), 0)]
  {
  }

  method EvaluateQueries(m: Math, order: seq<string>, groups: map<string, seq<Scored>>, ghost pairs: seq<Pair>)
    returns (ndcgScores: seq<real>, mrrScores: seq<real>)
    requires Faithful(m)
    requires forall q :: q in order ==> q in groups && groups[q] == OfQuery(pairs, q)
    ensures ndcgScores == NdcgScores(m, pairs, order) && mrrScores == MrrScores(pairs, order)
  {
    ndcgScores, mrrScores := [], [];
    for i := 0 to |order|
      invariant ndcgScores == NdcgScores(m, pairs, order[..i])
      invariant mrrScores == MrrScores(pairs, order[..i])
    {
      NdcgOneMore(m, pairs, order, i);
      MrrOneMore(pairs, order, i);
      var ndcg, rr := EvaluateQuery(m, groups[order[i]]);
      ndcgScores := ndcgScores + [ndcg];
      mrrScores := mrrScores + [rr];
    }
    assert order[..|order|] == order;
  }

  /** The report averages the queries' values. */
  method Evaluate(m: Math, pairs: seq<Pair>) returns (report: Evaluation)
    requires Faithful(m)
    ensures report == Evaluation(MeanOf(NdcgScores(m, pairs, Queries(pairs))), MeanOf(MrrScores(pairs, Queries(pairs))),
                                 |Queries(pairs)|, |pairs|)
  {
    var order, groups := Group(pairs);
    var ndcgScores, mrrScores := EvaluateQueries(m, order, groups, pairs);
    report := Evaluation(MeanOf(ndcgScores), MeanOf(mrrScores), |order|, |pairs|);
  }

  lemma {:induction false} OfQueryGrades(pairs: seq<Pair>, q: string)
    requires GradesNonNegative(pairs)
    ensures forall i :: 0 <= i < |OfQuery(pairs, q)| ==> OfQuery(pairs, q)[i].grade >= 0.0
  {
    if pairs == [] {
    } else {
      OfQueryGrades(pairs[..|pairs| - 1], q);
    }
  }

  /** For any scores the reported NDCG@10 is at most 1, and at least 0 if no grade is negative; the
      reported MRR lies in [0, 1]. */
  lemma ReportBounds(m: Math, pairs: seq<Pair>)
    requires Faithful(m)
    ensures MeanOf(NdcgScores(m, pairs, Queries(pairs))) <= 1.0
    ensures GradesNonNegative(pairs) ==> MeanOf(NdcgScores(m, pairs, Queries(pairs))) >= 0.0
    ensures 0.0 <= MeanOf(MrrScores(pairs, Queries(pairs))) <= 1.0
  {
    NdcgScoresBounds(m, pairs, Queries(pairs));
    MrrScoresBounds(pairs, Queries(pairs));
    MeanBounds(NdcgScores(m, pairs, Queries(pairs)));
    MeanBounds(MrrScores(pairs, Queries(pairs)));
  }

  ghost predicate InUnit(xs: seq<real>) {
    forall i :: 0 <= i < |xs| ==> 0.0 <= xs[i] <= 1.0
  }

  ghost predicate GradesNonNegative(pairs: seq<Pair>) {
    forall i :: 0 <= i < |pairs| ==> pairs[i].scored.grade >= 0.0
  }

  lemma QueryBounds(m: Math, pairs: seq<Pair>, q: string)
    requires Faithful(m)
    ensures NdcgOf(m, OfQuery(pairs, q)) <= 1.0
    ensures GradesNonNegative(pairs) ==> NdcgOf(m, OfQuery(pairs, q)) >= 0.0
  {
    NdcgBounds(m, OfQuery(pairs, q));
    if GradesNonNegative(pairs) {
      OfQueryGrades(pairs, q);
    }
  }

  lemma NdcgScoresBounds(m: Math, pairs: seq<Pair>, order: seq<string>)
    requires Faithful(m)
    ensures forall i :: 0 <= i < |NdcgScores(m, pairs, order)| ==> NdcgScores(m, pairs, order)[i] <= 1.0
    ensures GradesNonNegative(pairs) ==> InUnit(NdcgScores(m, pairs, order))
  {
    var scores := NdcgScores(m, pairs, order);
    forall i | 0 <= i < |scores|
      ensures scores[i] <= 1.0 && (GradesNonNegative(pairs) ==> scores[i] >= 0.0)
    {
      QueryBounds(m, pairs, order[i]);
    }
  }

  lemma MrrScoresBounds(pairs: seq<Pair>, order: seq<string>)
    ensures InUnit(MrrScores(pairs, order))
  {
    forall i | 0 <= i < |order|
      ensures 0.0 <= MrrScores(pairs, order)[i] <= 1.0
    {
      ReciprocalRankBounds(ByScore(OfQuery(pairs, order[i])), 0);
    }
  }
}
