/** The sample of a Case's lifecycle: the first card, the latest one, and evenly spread cards between them. */
module Sampling {
  import opened Wrappers

  /** Python's `round(a / b)`: the nearest integer, and of two the even one. */
  function RoundHalfEven(a: nat, b: nat): (r: nat)
    requires b > 0
    ensures 2 * a - b <= 2 * (b * r) <= 2 * a + b
  {
    var q, rest := a / b, a % b;
    assert a == b * q + rest;
    assert b * (q + 1) == b * q + b;
    if 2 * rest < b || (2 * rest == b && q % 2 == 0) then q else q + 1
  }

  /** Halfway between two integers the even one is taken. */
  lemma HalvesRoundToEven(a: nat, b: nat, q: nat)
    requires b > 0 && 2 * a == 2 * (b * q) + b
    ensures RoundHalfEven(a, b) % 2 == 0 && RoundHalfEven(a, b) in {q, q + 1}
  {
    QuotientIs(a, b, q);
  }

  lemma QuotientIs(a: nat, b: nat, q: nat)
    requires b > 0 && b * q <= a < b * q + b
    ensures a / b == q && a % b == a - b * q
  {
    var r, rest := a / b, a % b;
    assert a == b * r + rest;
    if r < q {
      Scaled(r, q, b);
    } else if q < r {
      Scaled(q, r, b);
    }
  }

  /** Where the sample's card `i` comes from. */
  function Position(i: nat, n: nat, limit: nat): nat
    requires 2 <= limit && 0 < n
  {
    RoundHalfEven(i * (n - 1), limit - 1)
  }

  predicate Increasing(p: seq<nat>) {
    forall i, j | 0 <= i < j < |p| :: p[i] < p[j]
  }

  /** Rounding never makes two quotients meet that are more than one apart. */
  lemma RoundsApart(x: nat, y: nat, b: nat)
    requires b > 0 && y > x + b
    ensures RoundHalfEven(x, b) < RoundHalfEven(y, b)
  {
    var r, r' := RoundHalfEven(x, b), RoundHalfEven(y, b);
    assert b * r < b * r';
    if r' <= r {
      Scaled(r', r, b);
    }
  }

  lemma {:induction false} Scaled(i: nat, j: nat, m: nat)
    requires i <= j
    ensures i * m <= j * m && m * i <= m * j
    ensures i < j ==> i * m + m <= j * m && m * i + m <= m * j
  {
    if i < j {
      Scaled(i, j - 1, m);
      assert j * m == (j - 1) * m + m && m * j == m * (j - 1) + m;
    }
  }

  lemma PositionsRise(i: nat, j: nat, n: nat, limit: nat)
    requires 2 <= limit < n && i < j
    ensures Position(i, n, limit) < Position(j, n, limit)
  {
    Scaled(i, j, n - 1);
    RoundsApart(i * (n - 1), j * (n - 1), limit - 1);
  }

  /** A whole quotient is its own rounding. */
  lemma WholeIsKept(m: nat, b: nat)
    requires b > 0
    ensures RoundHalfEven(b * m, b) == m
  {
    var r := RoundHalfEven(b * m, b);
    if r < m {
      Scaled(r, m, b);
    } else if m < r {
      Scaled(m, r, b);
    }
  }

  lemma EndsAreKept(n: nat, limit: nat)
    requires 2 <= limit < n
    ensures Position(0, n, limit) == 0 && Position(limit - 1, n, limit) == n - 1
  {
    WholeIsKept(0, limit - 1);
    WholeIsKept(n - 1, limit - 1);
  }

  /** `sorted` of a set of numbers below `k`. */
  function Sorted(s: set<nat>, k: nat): seq<nat> {
    if k == 0 then [] else Sorted(s, k - 1) + if k - 1 in s then [k - 1] else []
  }

  /** Sorting the set of an increasing list gives the list back: below `k`, its first `c` numbers. */
  lemma {:induction false} SortedLists(p: seq<nat>, s: set<nat>, k: nat) returns (c: nat)
    requires Increasing(p) && forall x :: x in s <==> x in p
    ensures c <= |p| && Sorted(s, k) == p[..c]
    ensures (forall i | 0 <= i < c :: p[i] < k) && (forall i | c <= i < |p| :: p[i] >= k)
  {
    c := 0;
    if k > 0 {
      c := SortedLists(p, s, k - 1);
      if c < |p| && p[c] == k - 1 {
        assert p[c] in p;
        assert p[..c + 1] == p[..c] + [k - 1];
        c := c + 1;
      } else {
        assert k - 1 !in p;
      }
    }
  }

  datatype SampleError = LimitMustBePositive

  /** What a sample must be: all the cards if they fit, and else exactly `limit` of them at the rounded positions. */
  predicate Samples<T(==)>(cards: seq<T>, limit: nat, sample: seq<T>)
    requires 2 <= limit
  {
    if |cards| <= limit then sample == cards
    else
      && |sample| == limit
      && forall i | 0 <= i < limit ::
           Position(i, |cards|, limit) < |cards| && sample[i] == cards[Position(i, |cards|, limit)]
  }

  /** The numbers chosen by the first `count - 1` rounds of the loop. */
  function Chosen(n: nat, limit: nat, count: nat): set<nat>
    requires 2 <= limit && 2 <= n
  {
    {0, n - 1} + set i: nat | 1 <= i < count :: Position(i, n, limit)
  }

  lemma ChosenGrows(n: nat, limit: nat, count: nat)
    requires 2 <= limit && 2 <= n && 1 <= count
    ensures Chosen(n, limit, count + 1) == Chosen(n, limit, count) + {Position(count, n, limit)}
  {
  }

  lemma ChosenAreThePositions(n: nat, limit: nat)
    requires 2 <= limit < n
    ensures var p := Sorted(Chosen(n, limit, limit - 1), n);
            |p| == limit && forall i | 0 <= i < limit :: p[i] == Position(i, n, limit) < n
  {
    var selected := Chosen(n, limit, limit - 1);
    var p := seq(limit, i requires 0 <= i < limit => Position(i, n, limit));
    EndsAreKept(n, limit);
    forall i, j | 0 <= i < j < limit ensures p[i] < p[j] {
      PositionsRise(i, j, n, limit);
    }
    assert p[0] == 0 && p[limit - 1] == n - 1;
    forall x ensures x in selected <==> x in p {
      if x in p {
        var i :| 0 <= i < limit && p[i] == x;
        assert i == 0 || i == limit - 1 || Position(i, n, limit) in selected;
      }
      if x in selected && x != 0 && x != n - 1 {
        var i: nat :| 1 <= i < limit - 1 && x == Position(i, n, limit);
        assert p[i] == x;
      }
    }
    var c := SortedLists(p, selected, n);
    assert c == limit && p[..c] == p;
  }

  /** The method's answer, for every limit. */
  ghost predicate IsSample<T>(cards: seq<T>, limit: int, r: Result<seq<T>, SampleError>) {
    if limit <= 0 then r == Err(LimitMustBePositive)
    else if |cards| <= limit then r == Ok(cards)
    else if limit == 1 then r == Ok([cards[0], cards[|cards| - 1]])
    else r.Ok? && Samples(cards, limit, r.value)
  }

  method LifecycleSample<T>(cards: seq<T>, limit: int) returns (r: Result<seq<T>, SampleError>)
    ensures IsSample(cards, limit, r)
  {
    if limit <= 0 {
      return Err(LimitMustBePositive);
    }
    if |cards| <= limit {
      return Ok(cards);
    }
    var n := |cards|;
    var selected: set<nat> := {0, n - 1};
    var index := 1;
    while index < limit - 1
      invariant 1 <= index && (index == 1 || index <= limit - 1)
      invariant selected == if limit == 1 then {0, n - 1} else Chosen(n, limit, index)
    {
      ChosenGrows(n, limit, index);
      selected := selected + {Position(index, n, limit)};
      index := index + 1;
    }
    SortedChoiceIsASample(cards, limit);
    r := Ok(Picked(cards, Sorted(selected, n)));
  }

  lemma SortedChoiceIsASample<T>(cards: seq<T>, limit: nat)
    requires 0 < limit < |cards|
    ensures var p := Sorted(if limit == 1 then {0, |cards| - 1} else Chosen(|cards|, limit, limit - 1), |cards|);
            (forall i | 0 <= i < |p| :: p[i] < |cards|) && IsSample(cards, limit, Ok(Picked(cards, p)))
  {
    if limit == 1 {
      PairIsSorted(|cards|);
      assert Picked(cards, [0, |cards| - 1]) == [cards[0], cards[|cards| - 1]];
    } else {
      ChosenAreThePositions(|cards|, limit);
    }
  }

  /** `[cards[index] for index in indices]` */
  function Picked<T>(cards: seq<T>, indices: seq<nat>): (r: seq<T>)
    requires forall i | 0 <= i < |indices| :: indices[i] < |cards|
    ensures |r| == |indices| && forall i | 0 <= i < |indices| :: r[i] == cards[indices[i]]
  {
    seq(|indices|, i requires 0 <= i < |indices| => cards[indices[i]])
  }

  lemma PairIsSorted(n: nat)
    requires n >= 2
    ensures Sorted({0, n - 1}, n) == [0, n - 1]
  {
    var p := [0, n - 1];
    var c := SortedLists(p, {0, n - 1}, n);
    assert p[..c] == p;
  }

  /**
   The sample keeps the first and the latest card, takes cards in their order without
   repetition, each from the place nearest to its even share, and is as long as the
   limit says, save that a limit of one gives two cards.
   */
  lemma SampleSpansTheLifecycle<T>(cards: seq<T>, limit: nat, sample: seq<T>)
    requires 0 < limit < |cards| && IsSample(cards, limit, Ok(sample))
    ensures sample[0] == cards[0] && sample[|sample| - 1] == cards[|cards| - 1]
    ensures |sample| == limit <==> limit >= 2
    ensures limit >= 2 ==>
              exists p: seq<nat> ::
                && |p| == |sample| && Increasing(p)
                && (forall i | 0 <= i < |p| :: p[i] < |cards| && sample[i] == cards[p[i]])
                && (forall i | 0 <= i < |p| ::
                      -(limit - 1) <= 2 * ((limit - 1) * p[i] - i * (|cards| - 1)) <= limit - 1)
  {
    if limit >= 2 {
      var n := |cards|;
      EndsAreKept(n, limit);
      var p := seq(limit, i requires 0 <= i < limit => Position(i, n, limit));
      forall i, j | 0 <= i < j < limit ensures p[i] < p[j] {
        PositionsRise(i, j, n, limit);
      }
      assert |p| == |sample| && Increasing(p);
    }
  }
}