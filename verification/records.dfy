/**
 The record shapes the site normaliser maps between: a raw site and a raw
 price row as the Queensland fuel-price API delivers them, and the
 normalised site that is handed to the document store.

 Timestamps are already parsed to milliseconds since the epoch (what
 `Date.getTime()` yields); coordinates and prices are only ever copied, so
 `real` stands in for the source's floating-point numbers.
 */
module FuelRecords {

  /** A raw site, keeping the API's terse field names. */
  datatype RawSite = RawSite(
    S: int,        // site id, the join key
    A: string,     // address
    N: string,     // name
    B: int,        // brand id
    P: string,     // post code
    Lat: real,
    Lng: real,
    M: int,        // last-modified time
    GPI: string    // Google place id
  )

  /** One observed price event; many rows may share a site and fuel. */
  datatype SitePrice = SitePrice(
    SiteId: int,
    FuelId: int,
    Price: real,
    TransactionDateUtc: int,
    CollectionMethod: string
  )

  /** The normalised site. `Prices` is keyed by fuel id; the source keys a
      plain object by the fuel id's decimal string, which is one-to-one on
      integer ids, so an integer key loses nothing. */
  datatype Site = Site(
    SiteId: int,
    Address: string,
    Name: string,
    BrandId: int,
    PostCode: string,
    Lat: real,
    Lng: real,
    LastModified: int,
    GooglePlaceId: string,
    Geohash: string,
    Prices: map<int, SitePrice>
  )
}
