/**
 The pure part of the `"sites"` branch of getAllData: what is handed to
 parseSites once the sites response has been decoded.

 The sites resource answers `{S: [...]}` and nothing else, yet the branch
 reads the price list from a `site_prices` field of that same response. The
 field is absent, so parseSites receives `undefined` as its price list, and
 `undefined.filter` throws a TypeError as soon as the first raw site is
 visited. The prices resource is fetched but no branch consumes it.
 `SitesBranchAsWritten` models the branch as written, on top of
 `ParseSitesJs`, which is parseSites with a price argument that may be
 `undefined`; `SitesBranch` joins the sites response with the prices
 response, which is what the merge is for.
 */
module SitesStep {
  import opened FuelRecords
  import opened SiteNormaliser

  /** A JavaScript value that is either a price list or `undefined`. */
  datatype PricesArg = Undefined | Defined(rows: seq<SitePrice>)

  /** The decoded sites response. Reading a field the JSON object lacks
      yields `undefined`; the API's sites response carries only `S`, so its
      `site_prices` is `Undefined`. */
  datatype SitesResponse = SitesResponse(S: seq<RawSite>, site_prices: PricesArg)

  /** The sites response exactly as the API documents it: no `site_prices`. */
  predicate DocumentedShape(data: SitesResponse)
  {
    data.site_prices.Undefined?
  }

  /** The decoded prices response. */
  datatype PricesResponse = PricesResponse(SitePrices: seq<SitePrice>)

  /** What a call ends with: the parsed sites, or the TypeError thrown when
      `.filter` is called on `undefined`. */
  datatype BranchOutcome = Parsed(sites: seq<Site>) | TypeError

  /** The per-site callback of parseSites: its first act is
      `sitePrices.filter(...)`, which throws when the list is `undefined`. */
  function NormaliseSiteJs(raw: RawSite, p: PricesArg, geohash: (real, real) -> string): (r: BranchOutcome)
    ensures r.Parsed? ==> |r.sites| == 1 && CopiesRawFields(raw, r.sites[0], geohash)
  {
    match p
    case Undefined => TypeError
    case Defined(rows) => Parsed([NormaliseSite(raw, rows, geohash)])
  }

  /** parseSites with a price argument that may be `undefined`: the raw
      sites are visited in order and the first thrown error ends the call. */
  function ParseSitesJs(rawData: seq<RawSite>, p: PricesArg, geohash: (real, real) -> string): (r: BranchOutcome)
    ensures r.Parsed? ==> |r.sites| == |rawData|
  {
    if |rawData| == 0 then Parsed([])
    else
      match NormaliseSiteJs(rawData[0], p, geohash)
      case TypeError => TypeError
      case Parsed(first) =>
        match ParseSitesJs(rawData[1..], p, geohash)
        case TypeError => TypeError
        case Parsed(rest) => Parsed(first + rest)
  }

  /** With a real price list, the JavaScript-level call is exactly ParseSites. */
  lemma {:induction false} ParseSitesJsDefined(rawData: seq<RawSite>, rows: seq<SitePrice>, geohash: (real, real) -> string)
    ensures ParseSitesJs(rawData, Defined(rows), geohash) == Parsed(ParseSites(rawData, rows, geohash))
  {
    if |rawData| > 0 {
      ParseSitesJsDefined(rawData[1..], rows, geohash);
    }
  }

  /** With `undefined` prices the call throws exactly when there is a site to visit. */
  lemma {:induction false} ParseSitesJsUndefined(rawData: seq<RawSite>, geohash: (real, real) -> string)
    ensures ParseSitesJs(rawData, Undefined, geohash).TypeError? <==> |rawData| > 0
    ensures ParseSitesJs(rawData, Undefined, geohash).Parsed? ==> ParseSitesJs(rawData, Undefined, geohash).sites == []
  {
    if |rawData| > 0 {
      assert NormaliseSiteJs(rawData[0], Undefined, geohash) == TypeError;
    }
  }

  /** The branch as written: parseSites gets the response's `site_prices`. */
  function SitesBranchAsWritten(data: SitesResponse, geohash: (real, real) -> string): (r: BranchOutcome)
    ensures r.Parsed? ==> |r.sites| == |data.S|
  {
    ParseSitesJs(data.S, data.site_prices, geohash)
  }

  /** On a response of the documented shape the branch throws whenever the
      response lists a site, and parses nothing otherwise. */
  lemma SitesBranchLosesEverySite(data: SitesResponse, geohash: (real, real) -> string)
    requires DocumentedShape(data)
    ensures SitesBranchAsWritten(data, geohash).TypeError? <==> |data.S| > 0
    ensures forall sites :: SitesBranchAsWritten(data, geohash) == Parsed(sites) ==> sites == []
  {
    ParseSitesJsUndefined(data.S, geohash);
  }

  /** A concrete response showing it: one site, and the branch throws. */
  lemma OneSiteThrows(raw: RawSite, geohash: (real, real) -> string)
    ensures SitesBranchAsWritten(SitesResponse([raw], Undefined), geohash) == TypeError
  {
    SitesBranchLosesEverySite(SitesResponse([raw], Undefined), geohash);
  }

  /** The corrected branch: join the sites response with the prices response. */
  function SitesBranch(data: SitesResponse, prices: PricesResponse, geohash: (real, real) -> string): (r: BranchOutcome)
    ensures r.Parsed?
    ensures |r.sites| == |data.S|
    ensures forall i :: 0 <= i < |r.sites| ==> CopiesRawFields(data.S[i], r.sites[i], geohash)
    ensures forall i :: 0 <= i < |r.sites| ==> IsLatestPriceMap(r.sites[i].Prices, prices.SitePrices, data.S[i].S)
    ensures r == ParseSitesJs(data.S, Defined(prices.SitePrices), geohash)
  {
    ParseSitesJsDefined(data.S, prices.SitePrices, geohash);
    Parsed(ParseSites(data.S, prices.SitePrices, geohash))
  }
}
