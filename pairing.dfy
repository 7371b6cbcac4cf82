/**
 * The grouping of the article table's rows in `Webscraper.parse`:
 * `zip(newsRows[0::3], newsRows[1::3])`. Rows come in groups of three (story,
 * metadata, spacer); the story row of each group is paired with the metadata
 * row after it and the spacer row is dropped.
 */
module Pairing {

  /** The extended slice `s[start::3]`. */
  function EveryThird<T>(s: seq<T>, start: nat): seq<T>
    decreases |s| - start
  {
    if start >= |s| then [] else [s[start]] + EveryThird(s, start + 3)
  }

  /** `s[start::3]` takes one element from every started group of three: `ceil((|s| - start) / 3)`. */
  lemma {:induction false} EveryThirdLength<T>(s: seq<T>, start: nat)
    ensures start >= |s| ==> |EveryThird(s, start)| == 0
    ensures start < |s| ==> 3 * |EveryThird(s, start)| - 3 < |s| - start <= 3 * |EveryThird(s, start)|
    decreases |s| - start
  {
    if start < |s| {
      EveryThirdLength(s, start + 3);
    }
  }

  /** Element `k` of `s[start::3]` is `s[start + 3k]`. */
  lemma {:induction false} EveryThirdAt<T>(s: seq<T>, start: nat, k: nat)
    requires k < |EveryThird(s, start)|
    ensures start + 3 * k < |s| && EveryThird(s, start)[k] == s[start + 3 * k]
    decreases k
  {
    if k > 0 {
      EveryThirdAt(s, start + 3, k - 1);
    }
  }

  /** Python's `zip`: pairs up equal positions and stops at the shorter input. */
  function Zip<A, B>(a: seq<A>, b: seq<B>): (r: seq<(A, B)>)
    ensures |r| == if |a| < |b| then |a| else |b|
    ensures forall k :: 0 <= k < |r| ==> r[k] == (a[k], b[k])
  {
    if a == [] || b == [] then [] else [(a[0], b[0])] + Zip(a[1..], b[1..])
  }

  /** `zip(rows[0::3], rows[1::3])`: the (story row, metadata row) pairs. */
  function Pairs<T>(rows: seq<T>): seq<(T, T)>
  {
    Zip(EveryThird(rows, 0), EveryThird(rows, 1))
  }

  /** `n` rows give `(n + 1) / 3` pairs, that is `min(ceil(n / 3), ceil((n - 1) / 3))`. */
  lemma PairsLength<T>(rows: seq<T>)
    ensures |Pairs(rows)| == (|rows| + 1) / 3
  {
    EveryThirdLength(rows, 0);
    EveryThirdLength(rows, 1);
  }

  /** Pair `k` is rows `3k` and `3k + 1`. */
  lemma PairAt<T>(rows: seq<T>, k: nat)
    requires k < |Pairs(rows)|
    ensures 3 * k + 1 < |rows| && Pairs(rows)[k] == (rows[3 * k], rows[3 * k + 1])
  {
    var stories, metas := EveryThird(rows, 0), EveryThird(rows, 1);
    assert Pairs(rows) == Zip(stories, metas);
    assert k < |stories| && k < |metas|;
    EveryThirdAt(rows, 0, k);
    EveryThirdAt(rows, 1, k);
  }

  /** All pairs at once: their number, and that pair `k` is rows `3k` and `3k + 1`. */
  lemma PairsAt<T>(rows: seq<T>)
    ensures |Pairs(rows)| == (|rows| + 1) / 3
    ensures forall k :: 0 <= k < |Pairs(rows)| ==>
      3 * k + 1 < |rows| && Pairs(rows)[k] == (rows[3 * k], rows[3 * k + 1])
  {
    PairsLength(rows);
    forall k | 0 <= k < |Pairs(rows)|
      ensures 3 * k + 1 < |rows| && Pairs(rows)[k] == (rows[3 * k], rows[3 * k + 1])
    {
      PairAt(rows, k);
    }
  }

  /** Row `i` is the spacer row of its group of three. */
  predicate IsSpacer(i: nat) {
    i % 3 == 2
  }

  /** The story row and the metadata row of group `k` are not spacers. */
  lemma GroupPositions(k: nat)
    ensures !IsSpacer(3 * k) && !IsSpacer(3 * k + 1)
  {
  }

  /**
   * Spacer rows never reach a pair: two row lists of the same length that
   * differ only at positions `3k + 2` give the same pairs.
   */
  lemma SpacersIgnored<T>(rows: seq<T>, other: seq<T>)
    requires |rows| == |other|
    requires forall i :: 0 <= i < |rows| && !IsSpacer(i) ==> rows[i] == other[i]
    ensures Pairs(rows) == Pairs(other)
  {
    PairsLength(rows);
    PairsLength(other);
    forall k: nat | k < |Pairs(rows)|
      ensures Pairs(rows)[k] == Pairs(other)[k]
    {
      PairAt(rows, k);
      GroupPositions(k);
      SamePairAt(rows, other, k);
    }
  }

  /** Rows that agree on a story row and its metadata row give the same pair there. */
  lemma SamePairAt<T>(rows: seq<T>, other: seq<T>, k: nat)
    requires |rows| == |other| && 3 * k + 1 < |rows|
    requires rows[3 * k] == other[3 * k] && rows[3 * k + 1] == other[3 * k + 1]
    ensures k < |Pairs(rows)| && k < |Pairs(other)| && Pairs(rows)[k] == Pairs(other)[k]
  {
    PairsLength(rows);
    PairsLength(other);
    PairAt(rows, k);
    PairAt(other, k);
  }
}
