/** `Yolov8nFaceDetector.CalculateOverlap` and `NMSBoxes`: greedy
    non-maximum suppression over integer rectangles. */
module Nms {
  import opened Drawing

  // ---------------------------------------------------------------------
  // Overlap
  // ---------------------------------------------------------------------

  /** The overlap as the source computes it, before the float division:
      `num / den` with `num` the intersection and `den` the union term. */
  datatype Ratio = Ratio(num: int, den: int)

  /** The number of integer positions in both closed ranges `[lo1, hi1]`
      and `[lo2, hi2]` (the intersection side with its inclusive `+ 1`). */
  function CommonSpan(lo1: int, hi1: int, lo2: int, hi2: int): (n: int)
    ensures n >= 0
  {
    Max(0, Min(hi1, hi2) - Max(lo1, lo2) + 1)
  }

  /** `CalculateOverlap`. The intersection counts pixels inclusively
      (`x2 - x1 + 1`) while the areas are plain `Width * Height`, so the ratio
      can exceed 1, be negative, or have a zero denominator. */
  function CalculateOverlap(a: Rectangle, b: Rectangle): (r: Ratio)
    ensures r.num >= 0
    ensures r.den == a.Area() + b.Area() - r.num
    ensures r.num > 0 <==>
      Max(a.Left(), b.Left()) <= Min(a.Right(), b.Right()) && Max(a.Top(), b.Top()) <= Min(a.Bottom(), b.Bottom())
  {
    var intersection := CommonSpan(a.Left(), a.Right(), b.Left(), b.Right()) *
                        CommonSpan(a.Top(), a.Bottom(), b.Top(), b.Bottom());
    Ratio(intersection, a.Area() + b.Area() - intersection)
  }

  /** `overlap > threshold` with C# float semantics for the division
      `(float)num / den`: a non-zero denominator compares the quotient; a
      zero denominator gives +Infinity when `num > 0` (greater than every
      threshold) and NaN when `num == 0` (greater than nothing). */
  predicate Exceeds(o: Ratio, threshold: real)
  {
    if o.den != 0 then (o.num as real) / (o.den as real) > threshold
    else o.num > 0
  }

  /** The set of integers in a closed range. */
  function Span(lo: int, hi: int): (r: set<int>)
    ensures forall p :: p in r <==> lo <= p <= hi
    ensures |r| == Max(0, hi - lo + 1)
    decreases hi - lo
  {
    if hi < lo then {} else Span(lo, hi - 1) + {hi}
  }

  /** `CommonSpan` counts exactly the integer positions both closed ranges
      contain: each intersection side is a pixel count. */
  lemma CommonSpanCountsSharedPixels(lo1: int, hi1: int, lo2: int, hi2: int)
    ensures CommonSpan(lo1, hi1, lo2, hi2) == |Span(lo1, hi1) * Span(lo2, hi2)|
  {
    assert Span(lo1, hi1) * Span(lo2, hi2) == Span(Max(lo1, lo2), Min(hi1, hi2));
  }

  lemma OverlapSymmetric(a: Rectangle, b: Rectangle)
    ensures CalculateOverlap(a, b) == CalculateOverlap(b, a)
  {
  }

  /** Two identical `w x h` boxes share `(w+1)(h+1)` pixels, more than either
      box's area, so the ratio of a box with itself is not 1. */
  lemma OverlapOfIdenticalBoxes(a: Rectangle)
    requires a.width >= 0 && a.height >= 0
    ensures CalculateOverlap(a, a).num == (a.width + 1) * (a.height + 1)
    ensures CalculateOverlap(a, a).den == 2 * a.width * a.height - (a.width + 1) * (a.height + 1)
  {
  }

  /** A 10 x 10 box overlaps itself with ratio 121/79, above 1. */
  lemma SelfOverlapExceedsOne()
    ensures CalculateOverlap(Rectangle(0, 0, 10, 10), Rectangle(0, 0, 10, 10)) == Ratio(121, 79)
    ensures Exceeds(Ratio(121, 79), 1.0)
  {
  }

  /** Two zero-area boxes at one spot share one pixel, so the ratio is
      1 / -1 = -1 (not 0 and not NaN), which suppresses nothing at a
      threshold of -1 or more. */
  lemma CoincidentPointsOverlapNegatively(a: Rectangle, threshold: real)
    requires a.width == 0 && a.height == 0 && threshold >= -1.0
    ensures CalculateOverlap(a, a) == Ratio(1, -1)
    ensures !Exceeds(CalculateOverlap(a, a), threshold)
  {
    assert (1 as real) / (-1 as real) == -1.0;
  }

  /** A 1 x 1 box and a zero-area box at its top-left corner share one
      pixel and the union term is 1 + 0 - 1 = 0: the ratio is 1 / 0,
      +Infinity, which exceeds every threshold. */
  lemma PointInsideBoxOverlapsInfinitely(a: Rectangle, b: Rectangle, threshold: real)
    requires a.width == 1 && a.height == 1 && b == Rectangle(a.x, a.y, 0, 0)
    ensures CalculateOverlap(a, b) == Ratio(1, 0)
    ensures Exceeds(CalculateOverlap(a, b), threshold)
  {
    assert CommonSpan(a.Left(), a.Right(), b.Left(), b.Right()) == 1;
    assert CommonSpan(a.Top(), a.Bottom(), b.Top(), b.Bottom()) == 1;
  }

  /** Two zero-area boxes apart from each other: 0 / 0 is NaN, which exceeds
      no threshold. */
  lemma SeparatedPointsOverlapNaN(a: Rectangle, b: Rectangle, threshold: real)
    requires a.width == 0 && a.height == 0 && b.width == 0 && b.height == 0 && a.x < b.x
    ensures CalculateOverlap(a, b) == Ratio(0, 0)
    ensures !Exceeds(CalculateOverlap(a, b), threshold)
  {
    assert CommonSpan(a.Left(), a.Right(), b.Left(), b.Right()) == 0;
  }

  // ---------------------------------------------------------------------
  // Index sequences
  // ---------------------------------------------------------------------

  predicate InRange(s: seq<nat>, n: nat)
  {
    forall k :: 0 <= k < |s| ==> s[k] < n
  }

  predicate Distinct(s: seq<nat>)
  {
    forall i, j :: 0 <= i < j < |s| ==> s[i] != s[j]
  }

  /** The indices' scores never increase along the sequence. */
  predicate NonIncreasing(s: seq<nat>, scores: seq<real>)
    requires InRange(s, |scores|)
  {
    forall i, j :: 0 <= i < j < |s| ==> scores[s[i]] >= scores[s[j]]
  }

  /** `order` is a permutation of the candidate indices sorted by descending
      score. `List.Sort` is not stable, so any such order may be the one the
      source uses; the theorems below hold for all of them. */
  predicate IsScoreOrder(order: seq<nat>, candidates: seq<nat>, scores: seq<real>)
  {
    && InRange(order, |scores|)
    && multiset(order) == multiset(candidates)
    && Distinct(order)
    && NonIncreasing(order, scores)
  }

  lemma DistinctCons(a: nat, t: seq<nat>)
    requires a !in t && Distinct(t)
    ensures Distinct([a] + t)
  {
    forall i, j | 0 <= i < j < |[a] + t| ensures ([a] + t)[i] != ([a] + t)[j] {
      if i == 0 {
        assert ([a] + t)[j] == t[j - 1];
      } else {
        assert ([a] + t)[i] == t[i - 1] && ([a] + t)[j] == t[j - 1];
      }
    }
  }

  lemma NonIncreasingCons(a: nat, t: seq<nat>, scores: seq<real>)
    requires a < |scores| && InRange(t, |scores|) && NonIncreasing(t, scores)
    requires forall y :: y in t ==> scores[a] >= scores[y]
    ensures InRange([a] + t, |scores|) && NonIncreasing([a] + t, scores)
  {
    var s := [a] + t;
    assert forall k :: 1 <= k < |s| ==> s[k] == t[k - 1];
    forall i, j | 0 <= i < j < |s| ensures scores[s[i]] >= scores[s[j]] {
      if i == 0 {
        assert s[j] in t;
      }
    }
  }

  /** The head of a score-ordered sequence scores at least as high as
      everything after it. */
  lemma NonIncreasingHead(s: seq<nat>, scores: seq<real>)
    requires |s| > 0 && InRange(s, |scores|) && NonIncreasing(s, scores)
    ensures forall y :: y in s[1..] ==> scores[s[0]] >= scores[y]
    ensures InRange(s[1..], |scores|) && NonIncreasing(s[1..], scores)
  {
    forall y | y in s[1..] ensures scores[s[0]] >= scores[y] {
      var k :| 0 <= k < |s[1..]| && s[1..][k] == y;
      assert s[k + 1] == y;
    }
    forall i, j | 0 <= i < j < |s[1..]| ensures scores[s[1..][i]] >= scores[s[1..][j]] {
      assert s[1..][i] == s[i + 1] && s[1..][j] == s[j + 1];
    }
  }

  // ---------------------------------------------------------------------
  // The score filter
  // ---------------------------------------------------------------------

  /** The indices below `n` whose score is strictly above the threshold, in
      increasing order. */
  function AboveThreshold(scores: seq<real>, threshold: real, n: nat): (r: seq<nat>)
    requires n <= |scores|
    ensures InRange(r, n)
    ensures forall i, j :: 0 <= i < j < |r| ==> r[i] < r[j]
    ensures forall x: nat :: x in r <==> x < n && scores[x] > threshold
    decreases n
  {
    if n == 0 then []
    else AboveThreshold(scores, threshold, n - 1) + (if scores[n - 1] > threshold then [n - 1] else [])
  }

  // ---------------------------------------------------------------------
  // The sort
  // ---------------------------------------------------------------------

  /** Inserts `x` before the first element scoring strictly less. */
  function Insert(x: nat, s: seq<nat>, scores: seq<real>): (r: seq<nat>)
    requires x < |scores| && InRange(s, |scores|)
    ensures InRange(r, |scores|)
    ensures multiset(r) == multiset(s) + multiset{x}
    decreases |s|
  {
    if |s| == 0 then [x]
    else if scores[s[0]] >= scores[x] then
      assert s == [s[0]] + s[1..];
      [s[0]] + Insert(x, s[1..], scores)
    else [x] + s
  }

  /** Every element of `Insert(x, s)` is `x` or an element of `s`. */
  lemma InsertMembers(x: nat, s: seq<nat>, scores: seq<real>)
    requires x < |scores| && InRange(s, |scores|)
    ensures forall y :: y in Insert(x, s, scores) ==> y == x || y in s
  {
    var r := Insert(x, s, scores);
    forall y | y in r ensures y == x || y in s {
      assert y in multiset(r);
    }
  }

  lemma {:induction false} InsertKeepsDistinct(x: nat, s: seq<nat>, scores: seq<real>)
    requires x < |scores| && InRange(s, |scores|)
    requires Distinct(s) && x !in s
    ensures Distinct(Insert(x, s, scores))
    decreases |s|
  {
    if |s| == 0 {
    } else if scores[s[0]] >= scores[x] {
      assert InRange(s[1..], |scores|);
      DistinctTail(s);
      InsertKeepsDistinct(x, s[1..], scores);
      InsertMembers(x, s[1..], scores);
      DistinctCons(s[0], Insert(x, s[1..], scores));
    } else {
      DistinctCons(x, s);
    }
  }

  lemma {:induction false} InsertKeepsScoreOrder(x: nat, s: seq<nat>, scores: seq<real>)
    requires x < |scores| && InRange(s, |scores|)
    requires NonIncreasing(s, scores)
    ensures NonIncreasing(Insert(x, s, scores), scores)
    decreases |s|
  {
    if |s| == 0 {
    } else if scores[s[0]] >= scores[x] {
      NonIncreasingHead(s, scores);
      InsertKeepsScoreOrder(x, s[1..], scores);
      InsertMembers(x, s[1..], scores);
      NonIncreasingCons(s[0], Insert(x, s[1..], scores), scores);
    } else {
      NonIncreasingHead(s, scores);
      NonIncreasingCons(x, s, scores);
    }
  }

  /** `validIndices.Sort((a, b) => scores[b].CompareTo(scores[a]))`: one
      permutation of the candidates with non-increasing scores. */
  function SortByScore(s: seq<nat>, scores: seq<real>): (r: seq<nat>)
    requires InRange(s, |scores|)
    ensures InRange(r, |scores|)
    ensures multiset(r) == multiset(s)
    ensures Distinct(s) ==> Distinct(r)
    ensures NonIncreasing(r, scores)
    decreases |s|
  {
    if |s| == 0 then []
    else
      var rest := SortByScore(s[1..], scores);
      SortStep(s, rest, scores);
      Insert(s[0], rest, scores)
  }

  /** Inserting the head into the sorted tail sorts the whole sequence. */
  lemma SortStep(s: seq<nat>, rest: seq<nat>, scores: seq<real>)
    requires |s| > 0 && InRange(s, |scores|) && InRange(rest, |scores|)
    requires multiset(rest) == multiset(s[1..]) && NonIncreasing(rest, scores)
    requires Distinct(s[1..]) ==> Distinct(rest)
    ensures multiset(Insert(s[0], rest, scores)) == multiset(s)
    ensures Distinct(s) ==> Distinct(Insert(s[0], rest, scores))
    ensures NonIncreasing(Insert(s[0], rest, scores), scores)
  {
    assert s == [s[0]] + s[1..];
    InsertKeepsScoreOrder(s[0], rest, scores);
    if Distinct(s) {
      DistinctTail(s);
      assert s[0] !in multiset(s[1..]);
      assert s[0] !in rest;
      InsertKeepsDistinct(s[0], rest, scores);
    }
  }

  // ---------------------------------------------------------------------
  // Greedy suppression (reference definition)
  // ---------------------------------------------------------------------

  /** `suppresses(a, b)`: once `a` is accepted, candidate `b` is dropped. */
  type Suppression = (nat, nat) -> bool

  /** The candidates of `rest` that survive the accepted index `cur`, in
      their order. */
  function Survivors(suppresses: Suppression, cur: nat, rest: seq<nat>): (r: seq<nat>)
    ensures |r| <= |rest|
    decreases |rest|
  {
    if |rest| == 0 then []
    else (if suppresses(cur, rest[0]) then [] else [rest[0]]) + Survivors(suppresses, cur, rest[1..])
  }

  /** A candidate survives exactly when `cur` does not suppress it. */
  lemma {:induction false} SurvivorsMembers(suppresses: Suppression, cur: nat, rest: seq<nat>)
    ensures forall x :: x in Survivors(suppresses, cur, rest) <==> x in rest && !suppresses(cur, x)
    decreases |rest|
  {
    if |rest| > 0 {
      SurvivorsMembers(suppresses, cur, rest[1..]);
      assert rest == [rest[0]] + rest[1..];
    }
  }

  lemma DistinctTail(s: seq<nat>)
    requires |s| > 0 && Distinct(s)
    ensures s[0] !in s[1..] && Distinct(s[1..])
  {
    assert forall i, j :: 0 <= i < j < |s[1..]| ==> s[1..][i] == s[i + 1] && s[1..][j] == s[j + 1];
  }

  lemma {:induction false} SurvivorsKeepOrder(suppresses: Suppression, cur: nat, rest: seq<nat>, scores: seq<real>)
    requires InRange(rest, |scores|)
    ensures InRange(Survivors(suppresses, cur, rest), |scores|)
    ensures Distinct(rest) ==> Distinct(Survivors(suppresses, cur, rest))
    ensures NonIncreasing(rest, scores) ==> NonIncreasing(Survivors(suppresses, cur, rest), scores)
    decreases |rest|
  {
    if |rest| > 0 {
      var tail := Survivors(suppresses, cur, rest[1..]);
      SurvivorsKeepOrder(suppresses, cur, rest[1..], scores);
      SurvivorsMembers(suppresses, cur, rest[1..]);
      if !suppresses(cur, rest[0]) {
        assert Survivors(suppresses, cur, rest) == [rest[0]] + tail;
        if Distinct(rest) {
          DistinctTail(rest);
          DistinctCons(rest[0], tail);
        }
        if NonIncreasing(rest, scores) {
          NonIncreasingHead(rest, scores);
          NonIncreasingCons(rest[0], tail, scores);
        }
      } else {
        assert Survivors(suppresses, cur, rest) == tail;
        if Distinct(rest) {
          DistinctTail(rest);
        }
        if NonIncreasing(rest, scores) {
          NonIncreasingHead(rest, scores);
        }
      }
    }
  }

  /** Greedy NMS over an already sorted candidate order: accept the head,
      drop every later candidate it suppresses, repeat. */
  function Greedy(suppresses: Suppression, order: seq<nat>): (r: seq<nat>)
    ensures |r| <= |order|
    decreases |order|
  {
    if |order| == 0 then []
    else [order[0]] + Greedy(suppresses, Survivors(suppresses, order[0], order[1..]))
  }

  /** Every accepted index is a candidate. */
  lemma {:induction false} GreedyMembers(suppresses: Suppression, order: seq<nat>)
    ensures forall x :: x in Greedy(suppresses, order) ==> x in order
    decreases |order|
  {
    if |order| > 0 {
      var rest := Survivors(suppresses, order[0], order[1..]);
      GreedyMembers(suppresses, rest);
      SurvivorsMembers(suppresses, order[0], order[1..]);
      assert order == [order[0]] + order[1..];
    }
  }

  /** The accepted indices keep the order's distinctness and score order. */
  lemma {:induction false} GreedyKeepsOrder(suppresses: Suppression, order: seq<nat>, scores: seq<real>)
    requires InRange(order, |scores|)
    ensures InRange(Greedy(suppresses, order), |scores|)
    ensures Distinct(order) ==> Distinct(Greedy(suppresses, order))
    ensures NonIncreasing(order, scores) ==> NonIncreasing(Greedy(suppresses, order), scores)
    decreases |order|
  {
    if |order| > 0 {
      var head := order[0];
      var rest := Survivors(suppresses, head, order[1..]);
      assert InRange(order[1..], |scores|);
      SurvivorsKeepOrder(suppresses, head, order[1..], scores);
      SurvivorsMembers(suppresses, head, order[1..]);
      GreedyKeepsOrder(suppresses, rest, scores);
      GreedyMembers(suppresses, rest);
      var tail := Greedy(suppresses, rest);
      assert Greedy(suppresses, order) == [head] + tail;
      if Distinct(order) {
        DistinctTail(order);
        DistinctCons(head, tail);
      }
      if NonIncreasing(order, scores) {
        NonIncreasingHead(order, scores);
        NonIncreasingCons(head, tail, scores);
      }
    }
  }

  /** No element of `r` is suppressed by an earlier one. */
  predicate NoSuppressedPair(suppresses: Suppression, r: seq<nat>)
  {
    forall i, j :: 0 <= i < j < |r| ==> !suppresses(r[i], r[j])
  }

  /** No accepted index is suppressed by an earlier accepted one. */
  lemma {:induction false} GreedyNoSuppressedPair(suppresses: Suppression, order: seq<nat>)
    ensures NoSuppressedPair(suppresses, Greedy(suppresses, order))
    decreases |order|
  {
    if |order| > 0 {
      var rest := Survivors(suppresses, order[0], order[1..]);
      GreedyNoSuppressedPair(suppresses, rest);
      GreedyMembers(suppresses, rest);
      SurvivorsMembers(suppresses, order[0], order[1..]);
      var r := Greedy(suppresses, order);
      var tail := Greedy(suppresses, rest);
      assert r == [order[0]] + tail;
      forall i, j | 0 <= i < j < |r| ensures !suppresses(r[i], r[j]) {
        assert r[j] == tail[j - 1];
        if i == 0 {
          assert tail[j - 1] in tail;
          assert tail[j - 1] in rest;
        } else {
          assert r[i] == tail[i - 1];
          assert !suppresses(tail[i - 1], tail[j - 1]);
        }
      }
    }
  }

  /** Every candidate is kept, or suppressed by a kept index scoring at
      least as high. */
  predicate Covers(suppresses: Suppression, kept: seq<nat>, candidates: seq<nat>, scores: seq<real>)
    requires InRange(candidates, |scores|)
  {
    forall x :: x in candidates ==> (x in kept ||
      exists y :: y in kept && y < |scores| && scores[y] >= scores[x] && suppresses(y, x))
  }

  /** Every candidate is either accepted or suppressed by an accepted index
      of at least its score. */
  lemma {:induction false} GreedyComplete(suppresses: Suppression, order: seq<nat>, scores: seq<real>)
    requires InRange(order, |scores|) && NonIncreasing(order, scores)
    ensures Covers(suppresses, Greedy(suppresses, order), order, scores)
    decreases |order|
  {
    if |order| > 0 {
      var head := order[0];
      var rest := Survivors(suppresses, head, order[1..]);
      NonIncreasingHead(order, scores);
      SurvivorsKeepOrder(suppresses, head, order[1..], scores);
      SurvivorsMembers(suppresses, head, order[1..]);
      GreedyComplete(suppresses, rest, scores);
      var r := Greedy(suppresses, order);
      var tail := Greedy(suppresses, rest);
      assert r == [head] + tail;
      forall x | x in order
        ensures x in r || exists y :: y in r && y < |scores| && scores[y] >= scores[x] && suppresses(y, x)
      {
        if x != head {
          assert order == [head] + order[1..];
          assert x in order[1..];
          if x !in rest {
            assert head in r;
          } else if x !in tail {
            var y :| y in tail && y < |scores| && scores[y] >= scores[x] && suppresses(y, x);
            assert y in r;
          }
        }
      }
    }
  }

  /** `topK` truncation: keep the first `topK` accepted indices when `topK`
      is positive and the list is longer. */
  function KeepTopK(selected: seq<nat>, topK: int): (r: seq<nat>)
    ensures topK > 0 ==> |r| <= topK
    ensures r <= selected
    ensures topK <= 0 || |selected| <= topK ==> r == selected
    ensures topK > 0 && |selected| > topK ==> |r| == topK
  {
    if topK > 0 && |selected| > topK then selected[..topK] else selected
  }

  /** A prefix keeps every property of the list it is cut from. */
  lemma PrefixKeeps(suppresses: Suppression, s: seq<nat>, n: nat, scores: seq<real>)
    requires n <= |s| && InRange(s, |scores|)
    ensures InRange(s[..n], |scores|)
    ensures forall x :: x in s[..n] ==> x in s
    ensures Distinct(s) ==> Distinct(s[..n])
    ensures NonIncreasing(s, scores) ==> NonIncreasing(s[..n], scores)
    ensures NoSuppressedPair(suppresses, s) ==> NoSuppressedPair(suppresses, s[..n])
  {
    assert forall k :: 0 <= k < n ==> s[..n][k] == s[k];
  }

  /** The accepted list after the `topK` cut: in range, without repeats, in
      score order, without a suppressed pair, drawn from the candidates, and
      (without a cut) covering every candidate. */
  lemma AcceptedSelection(suppresses: Suppression, order: seq<nat>, candidates: seq<nat>, scores: seq<real>,
                          topK: int, r: seq<nat>)
    requires InRange(candidates, |scores|) && IsScoreOrder(order, candidates, scores)
    requires r == KeepTopK(Greedy(suppresses, order), topK)
    ensures InRange(r, |scores|) && Distinct(r) && NonIncreasing(r, scores)
    ensures NoSuppressedPair(suppresses, r)
    ensures forall x :: x in r ==> x in candidates
    ensures topK <= 0 ==> Covers(suppresses, r, candidates, scores)
  {
    var full := Greedy(suppresses, order);
    GreedyKeepsOrder(suppresses, order, scores);
    GreedyNoSuppressedPair(suppresses, order);
    GreedyMembers(suppresses, order);
    GreedyComplete(suppresses, order, scores);
    PrefixKeeps(suppresses, full, |r|, scores);
    assert full[..|r|] == r;
    forall x | x in r ensures x in candidates {
      assert x in multiset(order);
    }
    if topK <= 0 {
      forall x | x in candidates ensures x in order {
        assert x in multiset(candidates);
      }
    }
  }

  // ---------------------------------------------------------------------
  // NMSBoxes
  // ---------------------------------------------------------------------

  lemma SurvivorsSplit(suppresses: Suppression, cur: nat, s: seq<nat>, i: nat)
    requires i < |s|
    ensures Survivors(suppresses, cur, s[i..]) ==
      (if suppresses(cur, s[i]) then [] else [s[i]]) + Survivors(suppresses, cur, s[i + 1..])
  {
    assert s[i..][1..] == s[i + 1..];
  }

  /** Deleting a suppressed candidate at `i` leaves the survivors unchanged. */
  lemma DropStep(suppresses: Suppression, cur: nat, s: seq<nat>, i: nat)
    requires i < |s| && suppresses(cur, s[i])
    ensures var t := s[..i] + s[i + 1..];
      i <= |t| && t[..i] + Survivors(suppresses, cur, t[i..]) == s[..i] + Survivors(suppresses, cur, s[i..])
  {
    var t := s[..i] + s[i + 1..];
    assert t[..i] == s[..i] && t[i..] == s[i + 1..];
    SurvivorsSplit(suppresses, cur, s, i);
  }

  /** Stepping over a surviving candidate at `i` leaves the survivors unchanged. */
  lemma KeepStep(suppresses: Suppression, cur: nat, s: seq<nat>, i: nat)
    requires i < |s| && !suppresses(cur, s[i])
    ensures s[..i + 1] + Survivors(suppresses, cur, s[i + 1..]) == s[..i] + Survivors(suppresses, cur, s[i..])
  {
    assert s[..i + 1] == s[..i] + [s[i]];
    SurvivorsSplit(suppresses, cur, s, i);
  }

  /** The inner loop of `NMSBoxes`: removes from `valid`, in place, every
      candidate the accepted `current` suppresses. */
  method RemoveSuppressed(suppresses: Suppression, current: nat, candidates: seq<nat>) returns (valid: seq<nat>)
    ensures valid == Survivors(suppresses, current, candidates)
  {
    valid := candidates;
    var i := 0;
    assert valid[..0] + Survivors(suppresses, current, valid[0..]) == Survivors(suppresses, current, candidates) by {
      assert valid[..0] == [] && valid[0..] == valid;
    }
    while i < |valid|
      invariant 0 <= i <= |valid|
      invariant valid[..i] + Survivors(suppresses, current, valid[i..]) == Survivors(suppresses, current, candidates)
      decreases |valid| - i
    {
      if suppresses(current, valid[i]) {
        DropStep(suppresses, current, valid, i);
        valid := valid[..i] + valid[i + 1..];
      } else {
        KeepStep(suppresses, current, valid, i);
        i := i + 1;
      }
    }
    assert valid[..i] == valid && valid[i..] == [];
  }

  /** The outer loop of `NMSBoxes`: accept the head of the working list,
      then remove what it suppresses, until the list is empty. */
  method Suppress(suppresses: Suppression, order: seq<nat>) returns (selected: seq<nat>)
    ensures selected == Greedy(suppresses, order)
  {
    selected := [];
    var valid := order;
    while |valid| > 0
      invariant selected + Greedy(suppresses, valid) == Greedy(suppresses, order)
      decreases |valid|
    {
      var current := valid[0];
      selected := selected + [current];
      valid := RemoveSuppressed(suppresses, current, valid[1..]);
    }
  }

  /** `CalculateOverlap(bboxes[a], bboxes[b]) > nmsThreshold`, the test the
      source's inner loop applies to the accepted `a` and the candidate `b`. */
  predicate OverlapSuppresses(boxes: seq<Rectangle>, threshold: real, a: nat, b: nat)
  {
    a < |boxes| && b < |boxes| && Exceeds(CalculateOverlap(boxes[a], boxes[b]), threshold)
  }

  /** `OverlapSuppresses` as the suppression relation of the greedy loop. */
  function OverlapTest(boxes: seq<Rectangle>, threshold: real): (r: Suppression)
  {
    (a: nat, b: nat) => OverlapSuppresses(boxes, threshold, a, b)
  }

  /** The score filter loop of `NMSBoxes`. */
  method FilterByScore(scores: seq<real>, threshold: real) returns (valid: seq<nat>)
    ensures valid == AboveThreshold(scores, threshold, |scores|)
  {
    valid := [];
    for i := 0 to |scores|
      invariant valid == AboveThreshold(scores, threshold, i)
    {
      if scores[i] > threshold {
        valid := valid + [i];
      }
    }
  }

  /** `NMSBoxes`: filter by score, sort by descending score, suppress
      greedily, optionally keep the first `topK`; returns the accepted indices
      and their rectangles. `order` is the sorted candidate list it used and
      `full` the accepted list before truncation. */
  method NMSBoxes(boxes: seq<Rectangle>, scores: seq<real>, scoreThreshold: real, nmsThreshold: real, topK: int)
    returns (indices: seq<nat>, rects: seq<Rectangle>, ghost order: seq<nat>, ghost full: seq<nat>)
    requires |boxes| == |scores|
    ensures IsScoreOrder(order, AboveThreshold(scores, scoreThreshold, |scores|), scores)
    ensures full == Greedy(OverlapTest(boxes, nmsThreshold), order)
    ensures indices == KeepTopK(full, topK)
    ensures InRange(indices, |boxes|)
    ensures |rects| == |indices| && forall k :: 0 <= k < |indices| ==> rects[k] == boxes[indices[k]]
  {
    var valid := FilterByScore(scores, scoreThreshold);
    var sorted := SortByScore(valid, scores);
    order := sorted;
    var suppresses := OverlapTest(boxes, nmsThreshold);
    var selected := Suppress(suppresses, sorted);
    full := selected;
    indices := KeepTopK(selected, topK);
    AcceptedSelection(suppresses, sorted, valid, scores, topK, indices);
    rects := seq(|indices|, k requires 0 <= k < |indices| => boxes[indices[k]]);
  }

  /** What `NMSBoxes` guarantees, for every score order the unstable sort
      may produce: the kept indices score above the threshold, are distinct,
      come in non-increasing score order, contain no pair whose overlap
      exceeds the threshold, respect `topK`, and (without a cut) every
      candidate is kept or suppressed by a kept box scoring at least as high. */
  lemma NMSBoxesGuarantees(boxes: seq<Rectangle>, scores: seq<real>, scoreThreshold: real, nmsThreshold: real,
                           topK: int, order: seq<nat>, indices: seq<nat>)
    requires |boxes| == |scores|
    requires IsScoreOrder(order, AboveThreshold(scores, scoreThreshold, |scores|), scores)
    requires indices == KeepTopK(Greedy(OverlapTest(boxes, nmsThreshold), order), topK)
    ensures InRange(indices, |scores|)
    ensures forall k :: 0 <= k < |indices| ==> scores[indices[k]] > scoreThreshold
    ensures Distinct(indices)
    ensures NonIncreasing(indices, scores)
    ensures NoSuppressedPair(OverlapTest(boxes, nmsThreshold), indices)
    ensures topK > 0 ==> |indices| <= topK
    ensures topK <= 0 ==> Covers(OverlapTest(boxes, nmsThreshold), indices, AboveThreshold(scores, scoreThreshold, |scores|), scores)
  {
    var suppresses := OverlapTest(boxes, nmsThreshold);
    AcceptedSelection(suppresses, order, AboveThreshold(scores, scoreThreshold, |scores|), scores, topK, indices);
    assert forall k :: 0 <= k < |indices| ==> indices[k] in indices;
  }

  /** Two 10 x 10 boxes one pixel apart overlap at exactly 1 under the
      inclusive intersection: boxes (0,0,10,10) at 0.9 and (1,1,10,10) at 0.8
      overlap with ratio exactly 1, so only the first survives at 0.5 and
      also at 0.95. */
  lemma ShiftedBoxesOverlapFully()
    ensures CalculateOverlap(Rectangle(0, 0, 10, 10), Rectangle(1, 1, 10, 10)) == Ratio(100, 100)
    ensures Exceeds(Ratio(100, 100), 0.5) && Exceeds(Ratio(100, 100), 0.95)
    ensures var boxes := [Rectangle(0, 0, 10, 10), Rectangle(1, 1, 10, 10)];
      Greedy(OverlapTest(boxes, 0.95), [0, 1]) == [0]
  {
    var boxes := [Rectangle(0, 0, 10, 10), Rectangle(1, 1, 10, 10)];
    var suppresses := OverlapTest(boxes, 0.95);
    assert suppresses(0, 1);
    assert Survivors(suppresses, 0, [1]) == [];
  }
}
