# Queensland fuel-price site normaliser, modelled in Dafny

The updater fetches brands, fuel types, sites and site prices from the
Queensland fuel-price API and stores them in a document store. Its one piece
of logic is `parseSites`. It joins the raw site list with the flat list of
timestamped price rows and picks, for each site and fuel, the newest price row.
It also renames the raw site's terse fields (`S`, `A`, `N`, `B`, `P`, `Lat`,
`Lng`, `M`, `GPI`) to the stored schema.

The project has four modules:

- `FuelRecords` (`records.dfy`) holds the three record shapes `IRawSite`,
  `ISitePrice` and `ISite` as datatypes. `Prices` is a `map<int, SitePrice>`
  keyed by fuel id.
- `PriceOrder` (`price_order.dfy`) models the sort comparator `a < b ? 1 : -1`
  and a sort driven by it. Its result is specified as a newest-first
  permutation.
- `SiteNormaliser` (`site_normaliser.dfy`) holds the per-site filter, the
  first-row-per-fuel walk, the normalised record and `parseSites` itself. It
  also holds the predicate `IsLatestPriceMap`, which says what a correct price
  map is. The price-map lemmas are stated against that predicate.
- `SitesStep` (`sites_step.dfy`) holds the pure part of the `"sites"` branch of
  `getAllData`, as written and corrected (see Findings).

Some modelling choices:

- Timestamps are already-parsed integers (milliseconds, as `Date.getTime()`
  gives).
- `Lat`, `Lng` and `Price` are `real`s that are only ever copied.
- The geohash is a function parameter `(real, real) -> string`. It stands for
  the foreign `geohashForLocation` call.

The comparator never returns 0. For two rows with equal times, each one asks to
go first. The model sorts with an insertion sort driven by that comparator.
Every price-map property is proved for any newest-first permutation
(`FirstWinsIsLatest`), not only the one this insertion sort returns.

The code does not reject a malformed timestamp: `new Date(...)` gives `NaN`,
every comparison with `NaN` is false, and the comparator then answers -1.
Timestamps here are already parsed, so that path is not modelled. Rows with
equal times get no fixed order, so the model promises only some row with the
latest time.

## Model

| member | source | states |
|---|---|---|
| PriceOrder.Compare | qldFuelApiClient.ts:119-120 | the comparator never answers 0; it puts `a` first exactly when `a` is not older than `b` |
| PriceOrder.CompareTiesInconsistent | qldFuelApiClient.ts:120 | for two rows with equal times, both calls say "me first", so tie order is engine-defined |
| PriceOrder.Insert | qldFuelApiClient.ts:119-120 | inserting a row into a newest-first sequence keeps it newest first and adds exactly that row to the multiset |
| PriceOrder.SortByTimeDesc | qldFuelApiClient.ts:119-120 | the sorted rows are a permutation of the input (same multiset) ordered newest first |
| SiteNormaliser.RowsForSite | qldFuelApiClient.ts:119 | the filter keeps every row of the site, with its multiplicity, and no row of another site |
| SiteNormaliser.FirstWins | qldFuelApiClient.ts:121-125 | the walk's keys are the fuels already assigned plus the fuels seen; a fuel already assigned is never overwritten by a later row |
| SiteNormaliser.FirstWinsTakesFirst | qldFuelApiClient.ts:121-125 | a fuel not yet assigned ends up with the first row in walk order that has that fuel |
| SiteNormaliser.FirstWinsIsLatest | qldFuelApiClient.ts:119-125 | walking ANY newest-first permutation of the site's rows gives one entry per fuel of the site; each entry is a row of that site and fuel with the maximal transaction time |
| SiteNormaliser.LatestPrices | qldFuelApiClient.ts:118-125 | the `prices` object built for a site satisfies the latest-price-map property |
| SiteNormaliser.NormaliseSite | qldFuelApiClient.ts:127-139 | `S`, `A`, `N`, `B`, `P`, `Lat`, `Lng`, `M`, `GPI` are copied to `SiteId`, `Address`, `Name`, `BrandId`, `PostCode`, `Lat`, `Lng`, `LastModified`, `GooglePlaceId`; the geohash depends only on (`Lat`, `Lng`); `Prices` is the latest price map of that site |
| SiteNormaliser.ParseSites | qldFuelApiClient.ts:113-146 | one output site per raw site, in input order, each with copied fields and the latest price map of its own site id; equal coordinates give equal geohashes |
| SiteNormaliser.NoRowsGivesEmptyPrices | qldFuelApiClient.ts:118-119 | a site with no price rows gets an empty `Prices` map, not an error |
| SiteNormaliser.UniqueLatestIsChosen | qldFuelApiClient.ts:119-124 | when one row is strictly newer than every other row for its site and fuel, that exact row is stored |
| SiteNormaliser.LatestMapsAgree | qldFuelApiClient.ts:119-124 | two latest price maps over lists with the same rows price the same fuels, each at the same time |
| SiteNormaliser.ReorderKeepsLatest | qldFuelApiClient.ts:119-124 | permuting the price list keeps the same fuels priced at the same latest times |
| SiteNormaliser.RowsForSiteAppend | qldFuelApiClient.ts:119 | filtering a concatenation is the concatenation of the filtered parts |
| SiteNormaliser.OtherSiteRowFiltered | qldFuelApiClient.ts:119 | a row of another site, inserted anywhere in the price list, is dropped by the filter |
| SiteNormaliser.OtherSiteRowIrrelevant | qldFuelApiClient.ts:119 | inserting or removing a row of another site anywhere in the price list leaves a site's record unchanged |
| SiteNormaliser.OnlyOwnRowsMatter | qldFuelApiClient.ts:118-139 | a site's record depends on the price list only through that site's own rows |
| SiteNormaliser.LaterRowWinsExample | qldFuelApiClient.ts:117-139 | worked example: site 100 with fuel-2 rows at 189.9 and, later, 195.5 gets `Prices[2].Price == 195.5` |
| SitesStep.NormaliseSiteJs | qldFuelApiClient.ts:117-139 | the per-site callback either throws at the `.filter` call or yields one site with the raw fields copied |
| SitesStep.ParseSitesJs | qldFuelApiClient.ts:113-146 | parseSites with a price argument that may be `undefined`: visits the sites in order, stops at the first throw, and on success yields one site per raw site |
| SitesStep.ParseSitesJsDefined | qldFuelApiClient.ts:113-146 | with a real price list, the call always succeeds and equals `ParseSites` |
| SitesStep.ParseSitesJsUndefined | qldFuelApiClient.ts:117-119 | with `undefined` prices, the call throws exactly when the site list is non-empty, and otherwise parses no sites |
| SitesStep.SitesBranchAsWritten | qldFuelApiClient.ts:95-99 | the branch as written passes the response's own `site_prices` field to parseSites; on success it yields one site per raw site |
| SitesStep.SitesBranchLosesEverySite | qldFuelApiClient.ts:95-99 | on a sites response of the documented `{S: [...]}` shape, the branch throws exactly when the response lists a site, and otherwise yields no sites |
| SitesStep.OneSiteThrows | qldFuelApiClient.ts:97 | a documented-shape response with a single site already throws |
| SitesStep.SitesBranch | qldFuelApiClient.ts:95-99 | the corrected branch joins the sites response with the prices response: it never throws, and yields one site per raw site with the latest price map |

## Left out

- `getAllData` (qldFuelApiClient.ts:60-110) and the resource table (lines 5-13) are left out. They do HTTP fetches, JSON decoding, `API_TOKEN` lookup and promise orchestration, which are I/O and concurrency. Only the pure part of the `"sites"` branch is modelled, in `SitesStep`.
- update.ts is left out. It sets up the Mongo connection and issues fire-and-forget `replaceOne` upserts. Convergence of upsert-by-key is the driver's behaviour, not code in this repository.
- `IBrand` and `IFuel` (lines 15-23) are only passed through to storage and take part in no logic.
- Date parsing (`new Date(...)` at lines 120 and 135) is left out. Timestamps come in already parsed as integers. The `NaN` produced for a malformed date, and the comparator's behaviour on it, are not modelled.
- The geohash algorithm is left out. It is a foreign call to `geohashForLocation`, modelled as an arbitrary function of (`Lat`, `Lng`).
- SiteNormaliser.NormaliseSite: the geohash call is total here. In geofire-common, `geohashForLocation` validates its argument and throws on a latitude outside [-90, 90] or a longitude outside [-180, 180]. One such raw site would make the whole parseSites call throw. The model does not include that exception.
- SiteNormaliser.ParseSites: always returns a site list. It does not model the throw that a raw site with out-of-range coordinates causes in `geohashForLocation`, for the reason on the line above.
- Floating-point behaviour of `Lat`, `Lng` and `Price` is left out. They are only copied, so `real` stands in for them.
- The engine's sort algorithm is left out. The model uses an insertion sort driven by the source comparator.
- The comparator is not consistent once two filtered rows share a time. ECMA-262's definition of `Array.prototype.sort` then makes the whole sort order implementation-defined, not just the order of the tied rows. `FirstWinsIsLatest` requires a newest-first ordering, so the price-map properties assume the engine still returns rows with distinct times newest first. The language does not promise that.
- The model's insertion sort keeps input order among rows with equal times. The row that `NormaliseSite` picks among equal-time rows is therefore this model's choice, not necessarily the engine's.
- SiteNormaliser.ReorderKeepsLatest: promises equal fuels and equal latest times after a permutation, not equal rows, because the row chosen among equal-time rows depends on the engine's tie order.
- The object-key stringification at lines 122-123 (`prices[sp.FuelId]`) is left out. `String(FuelId)` is one-to-one on integer ids, so the map is keyed by the integer.

## Findings

| source | as written | input that shows it | evidently intended | confidence | as-written member | corrected member |
|---|---|---|---|---|---|---|
| qldFuelApiClient.ts:97 | passes `data.site_prices` of the sites response as the price list; that response is `{S: [...]}` only, so parseSites receives `undefined` and `sitePrices.filter` throws a TypeError on the first raw site | any sites response with one or more sites, e.g. `SitesResponse([raw], Undefined)` | pass the `SitePrices` list of the prices resource, which is fetched but consumed by no branch | not executed; high (the documented sites response has no such field) | SitesStep.SitesBranchAsWritten | SitesStep.SitesBranch |

The TypeError is thrown inside a `.then` callback. That callback's promise rejects, so `Promise.all` rejects and `getAllData` never calls `resolve`. update.ts issues all of its upserts, brands and fuels included, inside `getAllData().then`, so nothing at all is stored. The promise chain itself is not part of this model.
