/**
 Ordering of price rows newest first, as the sort in parseSites does it.

 The source sorts with the comparator `a < b ? 1 : -1` on transaction times.
 That comparator never answers 0, so for two rows with equal times each one
 claims to come first, and the order of ties is left to the JavaScript
 engine. The sort is modelled here by an insertion sort driven by the same
 comparator; everything said about the resulting price map is proved for
 every descending permutation (see `SiteNormaliser`), so the engine's choice
 among ties does not matter.
 */
module PriceOrder {
  import opened FuelRecords

  /** The comparator: a negative answer puts `a` before `b`. */
  function Compare(a: SitePrice, b: SitePrice): (r: int)
    ensures r != 0
    ensures r < 0 <==> b.TransactionDateUtc <= a.TransactionDateUtc
  {
    if a.TransactionDateUtc < b.TransactionDateUtc then 1 else -1
  }

  /** On equal times the comparator is inconsistent: both rows ask to go first. */
  lemma CompareTiesInconsistent(a: SitePrice, b: SitePrice)
    requires a.TransactionDateUtc == b.TransactionDateUtc
    ensures Compare(a, b) < 0 && Compare(b, a) < 0
  {
  }

  /** Newest first: no row is newer than a row before it. */
  predicate Descending(rows: seq<SitePrice>)
  {
    forall i, j :: 0 <= i < j < |rows| ==> rows[j].TransactionDateUtc <= rows[i].TransactionDateUtc
  }

  /** Every row of `rows` is no newer than `t`. */
  predicate AllNoNewerThan(rows: seq<SitePrice>, t: int)
  {
    forall i :: 0 <= i < |rows| ==> rows[i].TransactionDateUtc <= t
  }

  lemma AllNoNewerThanByMultiset(rows: seq<SitePrice>, other: seq<SitePrice>, t: int)
    requires multiset(rows) <= multiset(other)
    requires AllNoNewerThan(other, t)
    ensures AllNoNewerThan(rows, t)
  {
    forall i | 0 <= i < |rows|
      ensures rows[i].TransactionDateUtc <= t
    {
      assert rows[i] in multiset(rows);
      assert rows[i] in other;
    }
  }

  /** Puts `x` into an already descending sequence, in front of the first row
      the comparator lets it precede. */
  function Insert(x: SitePrice, sorted: seq<SitePrice>): (r: seq<SitePrice>)
    requires Descending(sorted)
    ensures Descending(r)
    ensures multiset(r) == multiset(sorted) + multiset{x}
    ensures |r| == |sorted| + 1
  {
    if |sorted| == 0 then [x]
    else if Compare(x, sorted[0]) < 0 then [x] + sorted
    else
      var rest := Insert(x, sorted[1..]);
      assert sorted == [sorted[0]] + sorted[1..];
      assert AllNoNewerThan(sorted[1..] + [x], sorted[0].TransactionDateUtc);
      assert multiset(rest) == multiset(sorted[1..] + [x]);
      AllNoNewerThanByMultiset(rest, sorted[1..] + [x], sorted[0].TransactionDateUtc);
      [sorted[0]] + rest
  }

  /** The rows newest first. */
  function SortByTimeDesc(rows: seq<SitePrice>): (r: seq<SitePrice>)
    ensures Descending(r)
    ensures multiset(r) == multiset(rows)
  {
    if |rows| == 0 then []
    else
      assert rows == [rows[0]] + rows[1..];
      Insert(rows[0], SortByTimeDesc(rows[1..]))
  }
}
