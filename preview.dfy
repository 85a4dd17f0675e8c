/**
 * The weighted preview average of the vote screen (`calculateAverage`):
 * the entries whose key is not omitted are kept, and the result is the sum of
 * rating times weight over the sum of weights, or 0 when no weight remains.
 * The average is an exact real; the two-decimal formatting is not modelled.
 */
module Preview {
  import opened Ratings
  import Catalog

  /** `Object.entries(es).filter(([key]) => !omitted.has(key))`, order kept. */
  function Contributing(es: Entries, omitted: set<string>): (r: Entries)
    ensures forall e :: e in r <==> e in es && e.key !in omitted
    ensures |r| <= |es|
  {
    if es == [] then []
    else if es[0].key in omitted then Contributing(es[1..], omitted)
    else [es[0]] + Contributing(es[1..], omitted)
  }

  /**
   * `es.reduce((sum, e) => sum + term(e), 0)`: the sum of one term per entry,
   * accumulated from the left.
   */
  function Sum(es: Entries, term: Entry -> int): int {
    if es == [] then 0 else Sum(es[..|es| - 1], term) + term(es[|es| - 1])
  }

  /** The term of the first `reduce`: rating times the key's weight. */
  function ScoreTerm(e: Entry): int {
    e.rating * Catalog.Weight(e.key)
  }

  /** The term of the second `reduce`: the key's weight. */
  function WeightTerm(e: Entry): int {
    Catalog.Weight(e.key)
  }

  /** Σ rating × weight. */
  function WeightedScore(es: Entries): int {
    Sum(es, ScoreTerm)
  }

  /** Σ weight. */
  function TotalWeight(es: Entries): int {
    Sum(es, WeightTerm)
  }

  /** The preview: the weighted mean of the contributing ratings, or 0 when nothing contributes. */
  function Average(es: Entries, omitted: set<string>): real {
    var valid := Contributing(es, omitted);
    var totalWeights := TotalWeight(valid);
    if totalWeights > 0 then WeightedScore(valid) as real / totalWeights as real else 0.0
  }

  /** A sum splits over a concatenation. */
  lemma {:induction false} SumAppend(a: Entries, b: Entries, term: Entry -> int)
    ensures Sum(a + b, term) == Sum(a, term) + Sum(b, term)
  {
    if b != [] {
      var last := |b| - 1;
      assert (a + b)[..|a + b| - 1] == a + b[..last];
      assert (a + b)[|a + b| - 1] == b[last];
      SumAppend(a, b[..last], term);
    } else {
      assert a + b == a;
    }
  }

  /** Filtering splits over a concatenation. */
  lemma {:induction false} ContributingAppend(a: Entries, b: Entries, omitted: set<string>)
    ensures Contributing(a + b, omitted) == Contributing(a, omitted) + Contributing(b, omitted)
  {
    if a == [] {
      assert a + b == b;
    } else {
      assert (a + b)[0] == a[0];
      assert (a + b)[1..] == a[1..] + b;
      ContributingAppend(a[1..], b, omitted);
    }
  }

  /** The entries without position j. */
  function RemoveAt(es: Entries, j: nat): Entries
    requires j < |es|
  {
    es[..j] + es[j + 1..]
  }

  lemma {:induction false} MultisetOfRemoval(es: Entries, j: nat)
    requires j < |es|
    ensures multiset(es) == multiset(RemoveAt(es, j)) + multiset([es[j]])
  {
    var p, x, q := es[..j], es[j], es[j + 1..];
    assert es == p + [x] + q;
    assert multiset(es) == multiset(p) + multiset([x]) + multiset(q);
  }

  /** Removing one entry removes exactly its term from a sum. */
  lemma {:induction false} SumOfRemoval(es: Entries, j: nat, term: Entry -> int)
    requires j < |es|
    ensures Sum(es, term) == Sum(RemoveAt(es, j), term) + term(es[j])
  {
    var p, x, q := es[..j], es[j], es[j + 1..];
    assert es == (p + [x]) + q;
    SumAppend(p + [x], q, term);
    SumAppend(p, [x], term);
    SumAppend(p, q, term);
    SumOfOne(x, term);
  }

  /** A one-entry sum is its term. */
  lemma {:induction false} SumOfOne(x: Entry, term: Entry -> int)
    ensures Sum([x], term) == term(x)
  {
    assert [x][..0] == [];
  }

  /** Removing a matching entry from two permutations of each other leaves permutations of each other. */
  lemma {:induction false} PermutationOfRemovals(a: Entries, i: nat, b: Entries, j: nat)
    requires i < |a| && j < |b| && a[i] == b[j]
    requires multiset(a) == multiset(b)
    ensures multiset(RemoveAt(a, i)) == multiset(RemoveAt(b, j))
  {
    MultisetOfRemoval(a, i);
    MultisetOfRemoval(b, j);
    var x := multiset([a[i]]);
    assert multiset(RemoveAt(a, i)) == multiset(a) - x;
    assert multiset(RemoveAt(b, j)) == multiset(b) - x;
  }

  /** A sum depends only on the multiset of entries, not on their order. */
  lemma {:induction false} SumPermutation(a: Entries, b: Entries, term: Entry -> int)
    requires multiset(a) == multiset(b)
    ensures Sum(a, term) == Sum(b, term)
    decreases |a|
  {
    if a != [] {
      assert a[0] in multiset(b);
      var j :| 0 <= j < |b| && b[j] == a[0];
      PermutationOfRemovals(a, 0, b, j);
      SumPermutation(RemoveAt(a, 0), RemoveAt(b, j), term);
      SumOfRemoval(a, 0, term);
      SumOfRemoval(b, j, term);
    } else {
      assert b == [];
    }
  }

  /** Filtering commutes with reordering the entries. */
  lemma {:induction false} ContributingPermutation(a: Entries, b: Entries, omitted: set<string>)
    requires multiset(a) == multiset(b)
    ensures multiset(Contributing(a, omitted)) == multiset(Contributing(b, omitted))
    decreases |a|
  {
    if a != [] {
      assert a[0] in multiset(b);
      var j :| 0 <= j < |b| && b[j] == a[0];
      PermutationOfRemovals(a, 0, b, j);
      ContributingPermutation(RemoveAt(a, 0), RemoveAt(b, j), omitted);
      ContributingOfRemoval(a, 0, omitted);
      ContributingOfRemoval(b, j, omitted);
    } else {
      assert b == [];
    }
  }

  /** Removing one entry from the list removes at most that entry from the contributing ones. */
  lemma {:induction false} ContributingOfRemoval(es: Entries, j: nat, omitted: set<string>)
    requires j < |es|
    ensures multiset(Contributing(es, omitted)) ==
            multiset(Contributing(RemoveAt(es, j), omitted)) + multiset(Contributing([es[j]], omitted))
  {
    var p, x, q := es[..j], es[j], es[j + 1..];
    assert es == (p + [x]) + q;
    ContributingAppend(p + [x], q, omitted);
    ContributingAppend(p, [x], omitted);
    ContributingAppend(p, q, omitted);
    var cp, cx, cq := Contributing(p, omitted), Contributing([x], omitted), Contributing(q, omitted);
    assert multiset(cp + cx + cq) == multiset(cp) + multiset(cx) + multiset(cq);
    assert multiset(cp + cq) == multiset(cp) + multiset(cq);
  }

  /**
   * The preview does not depend on the order in which the ratings were
   * entered: any reordering of the same entries gives the same average.
   */
  lemma {:induction false} AverageOrderIndependent(a: Entries, b: Entries, omitted: set<string>)
    requires multiset(a) == multiset(b)
    ensures Average(a, omitted) == Average(b, omitted)
  {
    var ca, cb := Contributing(a, omitted), Contributing(b, omitted);
    ContributingPermutation(a, b, omitted);
    SumPermutation(ca, cb, ScoreTerm);
    SumPermutation(ca, cb, WeightTerm);
  }

  /**
   * Nothing is divided when nothing contributes: the weight sum is positive
   * exactly when some entry is not omitted, and otherwise the preview is 0.
   */
  lemma {:induction false} AverageZeroWithoutContributions(es: Entries, omitted: set<string>)
    ensures TotalWeight(Contributing(es, omitted)) > 0 <==> exists e :: e in es && e.key !in omitted
    ensures (forall e :: e in es ==> e.key in omitted) ==> Average(es, omitted) == 0.0
  {
    var valid := Contributing(es, omitted);
    TotalWeightBounds(valid);
    if exists e :: e in es && e.key !in omitted {
      var e :| e in es && e.key !in omitted;
      assert e in valid;
    }
  }

  /** Changing the rating of an omitted category does not move the preview. */
  lemma {:induction false} OmittedRatingIgnored(es: Entries, omitted: set<string>, key: string, value: int)
    requires key in omitted
    ensures Contributing(Put(es, key, value), omitted) == Contributing(es, omitted)
    ensures Average(Put(es, key, value), omitted) == Average(es, omitted)
  {
    if es != [] && es[0].key != key {
      OmittedRatingIgnored(es[1..], omitted, key, value);
      assert Put(es, key, value) == [es[0]] + Put(es[1..], key, value);
      assert ([es[0]] + Put(es[1..], key, value))[1..] == Put(es[1..], key, value);
    } else if es != [] {
      assert Put(es, key, value) == [Entry(key, value)] + es[1..];
      assert ([Entry(key, value)] + es[1..])[1..] == es[1..];
    }
  }

  /**
   * After `handleVoteChange(key, value)` the omission of `key` has already been
   * cleared when the preview is recomputed, so the new rating is among the
   * contributing entries.
   */
  lemma {:induction false} RatedCategoryContributes(es: Entries, omitted: set<string>, key: string, value: int)
    ensures Entry(key, value) in Contributing(Put(es, key, value), omitted - {key})
    ensures TotalWeight(Contributing(Put(es, key, value), omitted - {key})) > 0
  {
    var valid := Contributing(Put(es, key, value), omitted - {key});
    assert Entry(key, value) in valid;
    TotalWeightBounds(valid);
  }

  /**
   * When every term of one sum lies between lo and hi times the matching term
   * of another, the sums are bracketed the same way.
   */
  lemma {:induction false} SumBracket(es: Entries, f: Entry -> int, g: Entry -> int, lo: int, hi: int)
    requires forall e :: e in es ==> lo * g(e) <= f(e) <= hi * g(e)
    ensures lo * Sum(es, g) <= Sum(es, f) <= hi * Sum(es, g)
  {
    if es != [] {
      var front, last := es[..|es| - 1], es[|es| - 1];
      assert forall e :: e in front ==> e in es;
      assert last in es;
      SumBracket(front, f, g, lo, hi);
      var sg := Sum(front, g);
      assert lo * (sg + g(last)) == lo * sg + lo * g(last);
      assert hi * (sg + g(last)) == hi * sg + hi * g(last);
    }
  }

  /** The weight sum lies between the number of entries and twice that number. */
  lemma {:induction false} TotalWeightBounds(es: Entries)
    ensures |es| <= TotalWeight(es) <= 2 * |es|
  {
    SumBracket(es, WeightTerm, e => 1, 1, 2);
    SumOfOnes(es);
  }

  lemma {:induction false} SumOfOnes(es: Entries)
    ensures Sum(es, e => 1) == |es|
  {
    if es != [] {
      SumOfOnes(es[..|es| - 1]);
    }
  }

  /** The weighted score is bracketed by the smallest and largest rating times the weight sum. */
  lemma {:induction false} ScoreBounds(es: Entries, lo: int, hi: int)
    requires forall e :: e in es ==> lo <= e.rating <= hi
    ensures lo * TotalWeight(es) <= WeightedScore(es) <= hi * TotalWeight(es)
  {
    forall e | e in es ensures lo * WeightTerm(e) <= ScoreTerm(e) <= hi * WeightTerm(e) {
      var w := Catalog.Weight(e.key);
      if w == 2 {
        assert lo * 2 <= e.rating * 2 <= hi * 2;
      }
    }
    SumBracket(es, ScoreTerm, WeightTerm, lo, hi);
  }

  /** A quotient with positive divisor lies between the bounds that bracket its numerator. */
  lemma {:induction false} QuotientBounds(s: int, t: int, lo: int, hi: int)
    requires t > 0
    requires lo * t <= s <= hi * t
    ensures lo as real <= s as real / t as real <= hi as real
  {
    var q := s as real / t as real;
    assert q * t as real == s as real;
    assert (lo as real) * (t as real) <= s as real;
    assert s as real <= (hi as real) * (t as real);
  }

  /** The smallest and largest rating in a non-empty list of entries. */
  function MinRating(es: Entries): (m: int)
    requires es != []
    ensures exists e :: e in es && e.rating == m
    ensures forall e :: e in es ==> m <= e.rating
  {
    if |es| == 1 then es[0].rating
    else
      var m := MinRating(es[1..]);
      assert forall e :: e in es ==> e == es[0] || e in es[1..];
      if es[0].rating <= m then es[0].rating else m
  }

  function MaxRating(es: Entries): (m: int)
    requires es != []
    ensures exists e :: e in es && e.rating == m
    ensures forall e :: e in es ==> e.rating <= m
  {
    if |es| == 1 then es[0].rating
    else
      var m := MaxRating(es[1..]);
      assert forall e :: e in es ==> e == es[0] || e in es[1..];
      if es[0].rating >= m then es[0].rating else m
  }

  /** When something contributes, the preview lies between the smallest and the largest contributing rating. */
  lemma {:induction false} AverageWithinRatings(es: Entries, omitted: set<string>)
    requires Contributing(es, omitted) != []
    ensures var valid := Contributing(es, omitted);
            MinRating(valid) as real <= Average(es, omitted) <= MaxRating(valid) as real
  {
    var valid := Contributing(es, omitted);
    ScoreBounds(valid, MinRating(valid), MaxRating(valid));
    TotalWeightBounds(valid);
    QuotientBounds(WeightedScore(valid), TotalWeight(valid), MinRating(valid), MaxRating(valid));
  }

  /** With every contributing rating a star count from 1 to 5, the preview is in [1, 5]. */
  lemma {:induction false} AverageInStarRange(es: Entries, omitted: set<string>)
    requires forall e :: e in es && e.key !in omitted ==> 1 <= e.rating <= 5
    requires exists e :: e in es && e.key !in omitted
    ensures 1.0 <= Average(es, omitted) <= 5.0
  {
    var valid := Contributing(es, omitted);
    var e :| e in es && e.key !in omitted;
    assert e in valid;
    AverageWithinRatings(es, omitted);
  }

  /** When no key is omitted, every entry contributes, in order. */
  lemma {:induction false} ContributingAll(es: Entries, omitted: set<string>)
    requires forall e :: e in es ==> e.key !in omitted
    ensures Contributing(es, omitted) == es
  {
    if es != [] {
      assert forall e :: e in es[1..] ==> e in es;
      ContributingAll(es[1..], omitted);
      assert es == [es[0]] + es[1..];
    }
  }

  /** A three-entry sum is the sum of the three terms. */
  lemma {:induction false} SumOfThree(x: Entry, y: Entry, z: Entry, term: Entry -> int)
    ensures Sum([x, y, z], term) == term(x) + term(y) + term(z)
  {
    assert [x, y, z] == ([x] + [y]) + [z];
    SumAppend([x] + [y], [z], term);
    SumAppend([x], [y], term);
    SumOfOne(x, term);
    SumOfOne(y, term);
    SumOfOne(z, term);
  }

  /** The weights of the keys used in the worked example. */
  lemma ExampleWeights()
    ensures Catalog.Weight("HR") == 1 && Catalog.Weight("FRONT DESK") == 1
    ensures Catalog.Weight("DISCRIMINATION") == 2
  {
  }

  /**
   * The worked example: HR 5, FRONT DESK 3 and DISCRIMINATION 5 (weight 2),
   * with none of them omitted, give 18 / 4 whatever else is omitted.
   */
  lemma {:induction false} WorkedExample(omitted: set<string>)
    requires "HR" !in omitted && "FRONT DESK" !in omitted && "DISCRIMINATION" !in omitted
    ensures Average([Entry("HR", 5), Entry("FRONT DESK", 3), Entry("DISCRIMINATION", 5)], omitted) == 4.5
  {
    var hr, desk, disc := Entry("HR", 5), Entry("FRONT DESK", 3), Entry("DISCRIMINATION", 5);
    var es := [hr, desk, disc];
    ContributingAll(es, omitted);
    ExampleWeights();
    SumOfThree(hr, desk, disc, ScoreTerm);
    SumOfThree(hr, desk, disc, WeightTerm);
    assert TotalWeight(es) == 4;
    assert WeightedScore(es) == 18;
  }
}
