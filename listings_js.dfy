/** lib/loadListings.js: the earlier loader that lib/loadListings.ts
    replaced. It reads every row, with no cache and no estimates; column
    aliases are chained with `??`, so only a missing or null cell falls
    through to the next alias, and the address is an `||` chain of raw
    cells. The workbook read is an input: `None` when the file does not
    exist, otherwise the rows of its first sheet. */
module ListingsJs {
  import opened Numeral
  import opened Js
  import opened Coerce
  import opened Pipeline

  datatype Listing = Listing(
    id: nat,
    address: Value,
    price: Option<real>,
    beds: Option<real>,
    baths: Option<real>,
    sqft: Option<real>,
    estRent: Option<real>,
    noi: Option<real>,
    capRate: Option<real>,
    raw: Row)

  const ADDRESS_KEYS: seq<string> := ["Location", "Address", "address", "ADDRESS"]
  const PRICE_KEYS: seq<string> := ["Price_Listing", "Price", "price", "Purchase Price"]
  const BED_KEYS: seq<string> := ["Bed", "Beds", "Bedrooms", "bedrooms"]
  const BATH_KEYS: seq<string> := ["Bath", "Baths", "Bathrooms", "bathrooms"]
  const SQFT_KEYS: seq<string> := ["Property_Sqft", "Sqft", "sqft", "Square Feet"]
  const RENT_KEYS: seq<string> := ["Rent", "estimatedRent", "Estimated Rent"]
  const NOI_KEYS: seq<string> := ["NOI", "noi", "NOI/yr"]
  const CAP_KEYS: seq<string> := ["Cap Rate", "capRate", "cap_rate"]

  /** `num(r[k1] ?? r[k2] ?? ...)`: the number read from the first alias
      whose cell is neither missing nor null, and null when every alias
      cell is. */
  function Column(r: Row, keys: seq<string>): (c: Option<real>)
    ensures forall j :: 0 <= j < |keys| && !IsNullish(Get(r, keys[j])) && (forall i :: 0 <= i < j ==> IsNullish(Get(r, keys[i]))) ==>
                c == Coerce.Num(Get(r, keys[j]))
    ensures (forall k :: 0 <= k < |keys| ==> IsNullish(Get(r, keys[k]))) ==> c == None
  {
    var vs := Fields(r, keys);
    if keys != [] then CoalesceNullish(vs); Coerce.Num(Coalesce(vs))
    else Coerce.Num(Coalesce(vs))
  }

  /** `r.Location || r.Address || r.address || r.ADDRESS || ""` */
  function Address(r: Row): Value
  {
    OrChain(Fields(r, ADDRESS_KEYS) + [Str("")])
  }

  /** One row of the sheet as the `i`-th listing; every number is read
      from the file and is null when the file has none. */
  function RowToListing(r: Row, i: nat): (l: Listing)
    ensures l.id == i && l.raw == r
    ensures l.address == Address(r)
    ensures l.price == Column(r, PRICE_KEYS) && l.beds == Column(r, BED_KEYS)
    ensures l.baths == Column(r, BATH_KEYS) && l.sqft == Column(r, SQFT_KEYS)
    ensures l.estRent == Column(r, RENT_KEYS) && l.noi == Column(r, NOI_KEYS)
    ensures l.capRate == Column(r, CAP_KEYS)
  {
    Listing(i, Address(r), Column(r, PRICE_KEYS), Column(r, BED_KEYS), Column(r, BATH_KEYS),
      Column(r, SQFT_KEYS), Column(r, RENT_KEYS), Column(r, NOI_KEYS), Column(r, CAP_KEYS), r)
  }

  /** The junk-row test: some of address, price, beds, baths and square
      footage is truthy. */
  predicate Kept(l: Listing)
  {
    HasContent(l.address, l.price, l.beds, l.baths, l.sqft)
  }

  function ListingId(l: Listing): int
  {
    l.id
  }

  /** `loadListings()`: `[]` when the file is missing, otherwise the kept
      rows of the whole sheet. */
  function Load(file: Option<seq<Row>>): (ls: seq<Listing>)
    ensures file.None? ==> ls == []
    ensures file.Some? ==> |ls| <= |file.value| && forall j :: 0 <= j < |ls| ==> Kept(ls[j])
  {
    if file.None? then [] else MapFilter(file.value, 0, RowToListing, Kept)
  }

  /** The listings are exactly the kept rows, in sheet order and with no row
      limit: each id is the index of its row, ids rise strictly, and every
      row that passes the junk-row test is present. */
  lemma LoadRows(rows: seq<Row>)
    ensures FromRows(Load(Some(rows)), rows, 0, RowToListing, ListingId)
    ensures IdsRising(Load(Some(rows)), ListingId)
    ensures NoneLost(Load(Some(rows)), rows, 0, RowToListing, Kept, ListingId)
  {
    MapFilterFromRows(rows, 0, RowToListing, Kept, ListingId);
    MapFilterIdsRise(rows, 0, RowToListing, Kept, ListingId);
    MapFilterNoneLost(rows, 0, RowToListing, Kept, ListingId);
  }

  /** The address is truthy exactly when one of the four address cells is,
      and is "" otherwise. */
  lemma AddressTruthy(r: Row)
    ensures Truthy(Address(r)) <==> exists k :: 0 <= k < |ADDRESS_KEYS| && Truthy(Get(r, ADDRESS_KEYS[k]))
    ensures !Truthy(Address(r)) ==> Address(r) == Str("")
  {
    var vs := Fields(r, ADDRESS_KEYS) + [Str("")];
    OrChainTruthy(vs);
    assert forall k :: 0 <= k < |ADDRESS_KEYS| ==> vs[k] == Get(r, ADDRESS_KEYS[k]);
    assert !Truthy(vs[|vs| - 1]);
  }

  /** Unlike `pickFirst`, `??` stops at an empty cell: with `Price_Listing`
      holding "" the price is null whatever `Price` holds. Sheets are read
      with empty cells as "", so the later aliases are reached only when
      the first column is absent from the sheet. */
  lemma EmptyCellStopsChain(r: Row)
    requires Get(r, "Price_Listing") == Str("")
    ensures Column(r, PRICE_KEYS) == None
  {
    var vs := Fields(r, PRICE_KEYS);
    assert vs[0] == Str("");
  }
}
