/**
 The site/price merge: for each raw site, pick its price rows, order them
 newest first, keep the first row seen for each fuel, and reshape the raw
 site's fields into a normalised `Site`.
 */
module SiteNormaliser {
  import opened FuelRecords
  import opened PriceOrder

  /** The rows of `sitePrices` for site `siteId`, each with its multiplicity;
      `RowsForSiteAppend` shows that the filter works piece by piece along the list. */
  function RowsForSite(sitePrices: seq<SitePrice>, siteId: int): (r: seq<SitePrice>)
    ensures forall p :: multiset(r)[p] == if p.SiteId == siteId then multiset(sitePrices)[p] else 0
    ensures |r| <= |sitePrices|
  {
    if |sitePrices| == 0 then []
    else
      assert sitePrices == [sitePrices[0]] + sitePrices[1..];
      if sitePrices[0].SiteId == siteId then [sitePrices[0]] + RowsForSite(sitePrices[1..], siteId)
      else RowsForSite(sitePrices[1..], siteId)
  }

  /** The fuel ids that occur among `rows`. */
  function FuelsOf(rows: seq<SitePrice>): set<int>
  {
    set p | p in rows :: p.FuelId
  }

  /** `i` is the first position in `rows` holding fuel `f`. */
  predicate FirstOfFuel(rows: seq<SitePrice>, f: int, i: int)
  {
    && 0 <= i < |rows|
    && rows[i].FuelId == f
    && forall k :: 0 <= k < i ==> rows[k].FuelId != f
  }

  /** The walk over the sorted rows: a fuel already in `prices` keeps its
      row, any other fuel takes the row being visited. */
  function FirstWins(rows: seq<SitePrice>, prices: map<int, SitePrice>): (r: map<int, SitePrice>)
    ensures r.Keys == prices.Keys + FuelsOf(rows)
    ensures forall f :: f in prices ==> r[f] == prices[f]
  {
    if |rows| == 0 then prices
    else
      assert rows == [rows[0]] + rows[1..];
      var next := if rows[0].FuelId in prices then prices else prices[rows[0].FuelId := rows[0]];
      FirstWins(rows[1..], next)
  }

  /** A fuel that was not yet assigned ends up with the first row holding it. */
  lemma {:induction false} FirstWinsTakesFirst(rows: seq<SitePrice>, prices: map<int, SitePrice>, f: int)
    requires f in FirstWins(rows, prices) && f !in prices
    ensures exists i :: FirstOfFuel(rows, f, i) && FirstWins(rows, prices)[f] == rows[i]
  {
    if |rows| == 0 {
    } else {
      var next := if rows[0].FuelId in prices then prices else prices[rows[0].FuelId := rows[0]];
      assert FirstWins(rows, prices) == FirstWins(rows[1..], next);
      if rows[0].FuelId == f {
        assert FirstOfFuel(rows, f, 0);
      } else {
        FirstWinsTakesFirst(rows[1..], next, f);
        var i :| FirstOfFuel(rows[1..], f, i) && FirstWins(rows[1..], next)[f] == rows[1..][i];
        assert FirstOfFuel(rows, f, i + 1);
      }
    }
  }

  /** The fuel ids that have at least one row for site `siteId`. */
  function SiteFuels(sitePrices: seq<SitePrice>, siteId: int): set<int>
  {
    set p | p in sitePrices && p.SiteId == siteId :: p.FuelId
  }

  /** What the merge promises of one site's price map: exactly one entry per
      fuel that has a row for the site, and each entry is such a row with the
      latest transaction time for that fuel. */
  predicate IsLatestPriceMap(m: map<int, SitePrice>, sitePrices: seq<SitePrice>, siteId: int)
  {
    && m.Keys == SiteFuels(sitePrices, siteId)
    && (forall f :: f in m ==> m[f] in sitePrices && m[f].SiteId == siteId && m[f].FuelId == f)
    && (forall f, q :: f in m && q in sitePrices && q.SiteId == siteId && q.FuelId == f ==>
          q.TransactionDateUtc <= m[f].TransactionDateUtc)
  }

  /** A reordering of the filtered rows holds exactly the site's rows. */
  lemma SameRows(sorted: seq<SitePrice>, sitePrices: seq<SitePrice>, siteId: int)
    requires multiset(sorted) == multiset(RowsForSite(sitePrices, siteId))
    ensures forall p :: p in sorted <==> p in sitePrices && p.SiteId == siteId
  {
    forall p
      ensures p in sorted <==> p in sitePrices && p.SiteId == siteId
    {
      assert p in sorted <==> p in multiset(sorted);
      assert p in sitePrices <==> p in multiset(sitePrices);
    }
  }

  /** In a descending sequence the first row of a fuel is at least as new as
      every row of that fuel. */
  lemma FirstIsNewest(sorted: seq<SitePrice>, f: int, i: int, q: SitePrice)
    requires Descending(sorted)
    requires FirstOfFuel(sorted, f, i)
    requires q in sorted && q.FuelId == f
    ensures q.TransactionDateUtc <= sorted[i].TransactionDateUtc
  {
    var j :| 0 <= j < |sorted| && sorted[j] == q;
    assert i <= j;
  }

  /** Walking any descending ordering of a site's rows yields the latest price map. */
  lemma FirstWinsIsLatest(sorted: seq<SitePrice>, sitePrices: seq<SitePrice>, siteId: int)
    requires Descending(sorted)
    requires multiset(sorted) == multiset(RowsForSite(sitePrices, siteId))
    ensures IsLatestPriceMap(FirstWins(sorted, map[]), sitePrices, siteId)
  {
    var m := FirstWins(sorted, map[]);
    SameRows(sorted, sitePrices, siteId);
    assert FuelsOf(sorted) == SiteFuels(sitePrices, siteId);
    forall f | f in m
      ensures m[f] in sitePrices && m[f].SiteId == siteId && m[f].FuelId == f
      ensures forall q :: q in sitePrices && q.SiteId == siteId && q.FuelId == f ==>
                q.TransactionDateUtc <= m[f].TransactionDateUtc
    {
      FirstWinsTakesFirst(sorted, map[], f);
      var i :| FirstOfFuel(sorted, f, i) && m[f] == sorted[i];
      forall q | q in sitePrices && q.SiteId == siteId && q.FuelId == f
        ensures q.TransactionDateUtc <= m[f].TransactionDateUtc
      {
        FirstIsNewest(sorted, f, i, q);
      }
    }
  }

  /** The price map the source builds for site `siteId`: filter, sort newest
      first, first row per fuel wins. */
  function LatestPrices(sitePrices: seq<SitePrice>, siteId: int): (m: map<int, SitePrice>)
    ensures IsLatestPriceMap(m, sitePrices, siteId)
  {
    var sorted := SortByTimeDesc(RowsForSite(sitePrices, siteId));
    FirstWinsIsLatest(sorted, sitePrices, siteId);
    FirstWins(sorted, map[])
  }

  /** The normalised record keeps every raw field under its long name and
      derives the geohash from the coordinates alone. */
  predicate CopiesRawFields(raw: RawSite, s: Site, geohash: (real, real) -> string)
  {
    && s.SiteId == raw.S
    && s.Address == raw.A
    && s.Name == raw.N
    && s.BrandId == raw.B
    && s.PostCode == raw.P
    && s.Lat == raw.Lat
    && s.Lng == raw.Lng
    && s.LastModified == raw.M
    && s.GooglePlaceId == raw.GPI
    && s.Geohash == geohash(raw.Lat, raw.Lng)
  }

  /** One raw site normalised against the full price list. */
  function NormaliseSite(raw: RawSite, sitePrices: seq<SitePrice>, geohash: (real, real) -> string): (s: Site)
    ensures CopiesRawFields(raw, s, geohash)
    ensures IsLatestPriceMap(s.Prices, sitePrices, raw.S)
  {
    Site(
      SiteId := raw.S,
      Address := raw.A,
      Name := raw.N,
      BrandId := raw.B,
      PostCode := raw.P,
      Lat := raw.Lat,
      Lng := raw.Lng,
      LastModified := raw.M,
      GooglePlaceId := raw.GPI,
      Geohash := geohash(raw.Lat, raw.Lng),
      Prices := LatestPrices(sitePrices, raw.S)
    )
  }

  /** parseSites: one normalised site per raw site, in input order. */
  function ParseSites(rawData: seq<RawSite>, sitePrices: seq<SitePrice>, geohash: (real, real) -> string): (r: seq<Site>)
    ensures |r| == |rawData|
    ensures forall i :: 0 <= i < |r| ==> CopiesRawFields(rawData[i], r[i], geohash)
    ensures forall i :: 0 <= i < |r| ==> IsLatestPriceMap(r[i].Prices, sitePrices, rawData[i].S)
    ensures forall i, j :: 0 <= i < |r| && 0 <= j < |r| && rawData[i].Lat == rawData[j].Lat && rawData[i].Lng == rawData[j].Lng ==>
              r[i].Geohash == r[j].Geohash
  {
    if |rawData| == 0 then []
    else [NormaliseSite(rawData[0], sitePrices, geohash)] + ParseSites(rawData[1..], sitePrices, geohash)
  }

  // ---------------------------------------------------------------------
  // Properties of the merge
  // ---------------------------------------------------------------------

  /** A site without any price row gets an empty price map, not an error. */
  lemma NoRowsGivesEmptyPrices(raw: RawSite, sitePrices: seq<SitePrice>, geohash: (real, real) -> string)
    requires forall p :: p in sitePrices ==> p.SiteId != raw.S
    ensures NormaliseSite(raw, sitePrices, geohash).Prices == map[]
  {
    var m := NormaliseSite(raw, sitePrices, geohash).Prices;
    assert m.Keys == {};
  }

  /** When one row for a site and fuel is strictly newer than every other
      row for them, that row is the stored price. */
  lemma UniqueLatestIsChosen(raw: RawSite, sitePrices: seq<SitePrice>, geohash: (real, real) -> string, p: SitePrice)
    requires p in sitePrices && p.SiteId == raw.S
    requires forall q :: q in sitePrices && q.SiteId == raw.S && q.FuelId == p.FuelId && q != p ==>
               q.TransactionDateUtc < p.TransactionDateUtc
    ensures p.FuelId in NormaliseSite(raw, sitePrices, geohash).Prices
    ensures NormaliseSite(raw, sitePrices, geohash).Prices[p.FuelId] == p
  {
    var m := NormaliseSite(raw, sitePrices, geohash).Prices;
    assert p.FuelId in m;
    var c := m[p.FuelId];
    assert p.TransactionDateUtc <= c.TransactionDateUtc;
  }

  /** Two latest price maps over price lists with the same rows price the
      same fuels, each at the same time. */
  lemma LatestMapsAgree(m1: map<int, SitePrice>, m2: map<int, SitePrice>, ps: seq<SitePrice>, qs: seq<SitePrice>, siteId: int)
    requires IsLatestPriceMap(m1, ps, siteId) && IsLatestPriceMap(m2, qs, siteId)
    requires forall p :: p in ps <==> p in qs
    ensures m1.Keys == m2.Keys
    ensures forall f :: f in m1 ==> m1[f].TransactionDateUtc == m2[f].TransactionDateUtc
  {
    assert SiteFuels(ps, siteId) == SiteFuels(qs, siteId);
    forall f | f in m1
      ensures m1[f].TransactionDateUtc == m2[f].TransactionDateUtc
    {
      assert m1[f] in qs;
      assert m2[f] in ps;
    }
  }

  /** Reordering the price list (any permutation) leaves the same fuels
      priced, each at the same latest time; only the choice among rows with
      equal times may differ. */
  lemma ReorderKeepsLatest(raw: RawSite, ps: seq<SitePrice>, qs: seq<SitePrice>, geohash: (real, real) -> string)
    requires multiset(ps) == multiset(qs)
    ensures NormaliseSite(raw, ps, geohash).Prices.Keys == NormaliseSite(raw, qs, geohash).Prices.Keys
    ensures forall f :: f in NormaliseSite(raw, ps, geohash).Prices ==>
              NormaliseSite(raw, ps, geohash).Prices[f].TransactionDateUtc
              == NormaliseSite(raw, qs, geohash).Prices[f].TransactionDateUtc
  {
    forall p
      ensures p in ps <==> p in qs
    {
      assert p in ps <==> p in multiset(ps);
      assert p in qs <==> p in multiset(qs);
    }
    LatestMapsAgree(NormaliseSite(raw, ps, geohash).Prices, NormaliseSite(raw, qs, geohash).Prices, ps, qs, raw.S);
  }

  /** The filter distributes over concatenation. */
  lemma {:induction false} RowsForSiteAppend(a: seq<SitePrice>, b: seq<SitePrice>, siteId: int)
    ensures RowsForSite(a + b, siteId) == RowsForSite(a, siteId) + RowsForSite(b, siteId)
  {
    if |a| == 0 {
      assert a + b == b;
    } else {
      assert (a + b)[1..] == a[1..] + b;
      RowsForSiteAppend(a[1..], b, siteId);
    }
  }

  /** Inserting a row for another site anywhere in the price list, or
      removing one, does not change a site's record. Reordering rows of other
      sites is a sequence of such removals and insertions. */
  lemma OtherSiteRowIrrelevant(raw: RawSite, a: seq<SitePrice>, o: SitePrice, b: seq<SitePrice>, geohash: (real, real) -> string)
    requires o.SiteId != raw.S
    ensures NormaliseSite(raw, a + [o] + b, geohash) == NormaliseSite(raw, a + b, geohash)
  {
    OtherSiteRowFiltered(a, o, b, raw.S);
    OnlyOwnRowsMatter(raw, a + [o] + b, a + b, geohash);
  }

  /** The filter drops a row of another site wherever it stands. */
  lemma OtherSiteRowFiltered(a: seq<SitePrice>, o: SitePrice, b: seq<SitePrice>, siteId: int)
    requires o.SiteId != siteId
    ensures RowsForSite(a + [o] + b, siteId) == RowsForSite(a + b, siteId)
  {
    var ao := a + [o];
    assert [o][1..] == [];
    var none := RowsForSite([o], siteId);
    assert none == [];
    RowsForSiteAppend(a, [o], siteId);
    assert RowsForSite(ao, siteId) == RowsForSite(a, siteId);
    RowsForSiteAppend(ao, b, siteId);
    RowsForSiteAppend(a, b, siteId);
  }

  /** A site's record depends on the price list only through that site's rows. */
  lemma OnlyOwnRowsMatter(raw: RawSite, ps: seq<SitePrice>, qs: seq<SitePrice>, geohash: (real, real) -> string)
    requires RowsForSite(ps, raw.S) == RowsForSite(qs, raw.S)
    ensures NormaliseSite(raw, ps, geohash) == NormaliseSite(raw, qs, geohash)
  {
  }

  /** A worked example: two rows for site 100 and fuel 2, the later one at
      195.5; the normalised site prices fuel 2 at 195.5. Times are the
      millisecond values of 2024-01-01T00:00:00Z, 2024-01-02T10:00:00Z and
      2024-01-03T08:00:00Z. */
  lemma LaterRowWinsExample(geohash: (real, real) -> string)
    ensures var raw := RawSite(100, "1 Main St", "Servo", 5, "4000", -27.5, 153.0, 1704067200000, "abc");
            var rows := [SitePrice(100, 2, 189.9, 1704189600000, ""), SitePrice(100, 2, 195.5, 1704268800000, "")];
            var sites := ParseSites([raw], rows, geohash);
            |sites| == 1 && 2 in sites[0].Prices && sites[0].Prices[2].Price == 195.5
  {
    var raw := RawSite(100, "1 Main St", "Servo", 5, "4000", -27.5, 153.0, 1704067200000, "abc");
    var older := SitePrice(100, 2, 189.9, 1704189600000, "");
    var newer := SitePrice(100, 2, 195.5, 1704268800000, "");
    var rows := [older, newer];
    SingleSite(raw, rows, geohash);
    forall q | q in rows && q.SiteId == raw.S && q.FuelId == newer.FuelId && q != newer
      ensures q.TransactionDateUtc < newer.TransactionDateUtc
    {
      assert q == older;
    }
    UniqueLatestIsChosen(raw, rows, geohash, newer);
  }

  lemma SingleSite(raw: RawSite, sitePrices: seq<SitePrice>, geohash: (real, real) -> string)
    ensures ParseSites([raw], sitePrices, geohash) == [NormaliseSite(raw, sitePrices, geohash)]
  {
    assert [raw][1..] == [];
  }
}
