/** lib/loadListings.ts: spreadsheet rows become `Listing` records. Column
    aliases are resolved with `pickFirst`, dirty numbers are read with
    `num`, missing rent, NOI and cap rate are estimated, junk rows are
    dropped and at most `MAX_ROWS` rows are read. The result is kept for an
    hour in module state, modelled by `ListingStore`. The workbook read is
    an input: `None` when the file does not exist, otherwise the rows of
    its first sheet. */
module ListingsTs {
  import opened Text
  import opened Numeral
  import opened Js
  import opened Coerce
  import opened Finance
  import opened Pipeline

  const CACHE_MS: int := 60 * 60 * 1000
  const MAX_ROWS: nat := 8000

  datatype Listing = Listing(
    id: nat,
    address: string,
    price: Option<real>,
    beds: Option<real>,
    baths: Option<real>,
    sqft: Option<real>,
    estRent: Option<real>,   // monthly
    noi: Option<real>,       // annual
    capRate: Option<real>,   // percent
    raw: Row)

  /** `str(v)`: `null` and `undefined` give "", anything else its trimmed
      string. */
  function StrOf(v: Value): (s: string)
    ensures IsNullish(v) ==> s == ""
    ensures !IsNullish(v) ==> s == Trim(ToStr(v))
  {
    if IsNullish(v) then "" else Trim(ToStr(v))
  }

  /** The test `pickFirst` applies to each candidate, by cases: booleans and
      numbers are never blank, strings are blank when only white space. */
  predicate Filled(v: Value)
  {
    match v
    case Undefined => false
    case Null => false
    case Bool(_) => true
    case Num(_) => true
    case Str(s) => Trim(s) != ""
  }

  /** `Filled` is `v !== undefined && v !== null && String(v).trim() !== ""`. */
  lemma FilledIsNotBlank(v: Value)
    ensures Filled(v) <==> !IsNullish(v) && Trim(ToStr(v)) != ""
  {
    if v.Num? {
      NumberNotBlank(v.x);
    }
  }

  /** `pickFirst(...vals)`: the first candidate that is neither null nor
      blank once trimmed; `undefined` when there is none. */
  function PickFirst(vals: seq<Value>): (v: Value)
    ensures v == Undefined || Filled(v)
  {
    if vals == [] then Undefined
    else if Filled(vals[0]) then vals[0]
    else PickFirst(vals[1..])
  }

  /** `pickFirst` returns the first filled candidate, and `undefined` only
      when no candidate is filled. */
  lemma {:induction false} PickFirstSpec(vals: seq<Value>)
    ensures forall k :: 0 <= k < |vals| && Filled(vals[k]) && (forall j :: 0 <= j < k ==> !Filled(vals[j])) ==> PickFirst(vals) == vals[k]
    ensures (forall k :: 0 <= k < |vals| ==> !Filled(vals[k])) <==> PickFirst(vals) == Undefined
  {
    if vals != [] && !Filled(vals[0]) {
      PickFirstSpec(vals[1..]);
      assert forall k :: 1 <= k < |vals| ==> vals[k] == vals[1..][k - 1];
    }
  }

  /** `estimateMonthlyRent(beds, base, perBed, fallbackBeds)`: a whole,
      non-negative rent, nearest to `base + beds * perBed` (with
      `fallbackBeds` when the bed count is missing), and 0 when that is
      below one half. */
  function EstimateMonthlyRent(beds: Option<real>, base: real := 1200.0, perBed: real := 700.0, fallbackBeds: real := 2.0): (rent: real)
    ensures rent >= 0.0 && rent == rent.Floor as real
    ensures var b := if beds.Some? then beds.value else fallbackBeds;
      base + b * perBed >= 0.5 ==> rent - 0.5 <= base + b * perBed < rent + 0.5
    ensures var b := if beds.Some? then beds.value else fallbackBeds;
      base + b * perBed < 0.5 ==> rent == 0.0
  {
    var b := if beds.Some? then beds.value else fallbackBeds;
    var r := Round(base + b * perBed);
    assert base + b * perBed >= 0.5 ==> r > 0;
    if r > 0 then r as real else 0.0
  }

  /** With the default parameters a listing without a bed count is
      estimated at 2600 a month. */
  lemma DefaultRentEstimate()
    ensures EstimateMonthlyRent(None) == 2600.0
  {
    RoundOfInt(2600);
  }

  /** `estimateAnnualNOI(monthlyRent, expenseRatio)`: the whole number
      nearest to a year of rent less the expense share. */
  function EstimateAnnualNOI(monthlyRent: real, expenseRatio: real := 0.35): (noi: real)
    ensures noi == noi.Floor as real
    ensures noi - 0.5 <= monthlyRent * 12.0 * (1.0 - expenseRatio) < noi + 0.5
  {
    Round(monthlyRent * 12.0 * (1.0 - expenseRatio)) as real
  }

  /** `calcCapRate(noi, price)`: null when the NOI is missing or zero or the
      price is missing or not positive; otherwise NOI over price as a
      percentage rounded to two decimals. A negative NOI gives a cap rate
      of at most zero, not null. */
  function CalcCapRate(noiAnnual: Option<real>, price: Option<real>): (cap: Option<real>)
    ensures cap.None? <==> !TruthyNum(noiAnnual) || !TruthyNum(price) || price.value <= 0.0
    ensures cap.Some? ==> var exact := noiAnnual.value / price.value * 100.0;
      && cap.value * 100.0 == (cap.value * 100.0).Floor as real
      && cap.value - 0.005 <= exact < cap.value + 0.005
    ensures cap.Some? && noiAnnual.value < 0.0 ==> cap.value <= 0.0
  {
    if !TruthyNum(noiAnnual) || !TruthyNum(price) || price.value <= 0.0 then None
    else
      var q := noiAnnual.value / price.value;
      assert noiAnnual.value < 0.0 ==> q < 0.0;
      Some(Round(q * 10000.0) as real / 100.0)
  }

  const ADDRESS_KEYS: seq<string> := ["Location", "Address", "address", "ADDRESS", "Full Address", "Property Address"]
  const PRICE_KEYS: seq<string> := ["Price_Listing", "Price", "price", "Purchase Price"]
  const BED_KEYS: seq<string> := ["Bed", "Beds", "Bedrooms", "bedrooms"]
  const BATH_KEYS: seq<string> := ["Bath", "Baths", "Bathrooms", "bathrooms"]
  const SQFT_KEYS: seq<string> := ["Property_Sqft", "Sqft", "sqft", "Square Feet", "squareFeet"]
  const RENT_KEYS: seq<string> := ["Rent", "rent", "estimatedRent", "Estimated Rent", "Est Rent"]
  const NOI_KEYS: seq<string> := ["NOI", "noi", "NOI/yr", "NOI Yearly", "noiYear"]
  const CAP_KEYS: seq<string> := ["Cap Rate", "capRate", "cap_rate", "CapRate"]

  /** `num(pickFirst(r[k1], r[k2], ...))` */
  function Column(r: Row, keys: seq<string>): Option<real>
  {
    Coerce.Num(PickFirst(Fields(r, keys)))
  }

  /** `String(v ?? "").trim()` */
  function TextOrEmpty(v: Value): (a: string)
    ensures IsNullish(v) ==> a == ""
    ensures !IsNullish(v) ==> a == StrOf(v)
  {
    var c := Coalesce([v, Str("")]);
    assert !IsNullish(v) ==> c == v;
    StrOf(c)
  }

  /** The address of a row: the first filled address cell as trimmed text,
      or "" when none is filled. */
  function AddressOf(r: Row): (a: string)
    ensures PickFirst(Fields(r, ADDRESS_KEYS)) == Undefined ==> a == ""
    ensures PickFirst(Fields(r, ADDRESS_KEYS)) != Undefined ==> a == StrOf(PickFirst(Fields(r, ADDRESS_KEYS)))
  {
    TextOrEmpty(PickFirst(Fields(r, ADDRESS_KEYS)))
  }

  /** One row of the sheet as the `i`-th listing. Rent, NOI and cap rate
      come from the file when a column holds a number, and are estimated
      otherwise, so rent and NOI are never null. */
  function RowToListing(r: Row, i: nat): (l: Listing)
    ensures l.id == i && l.raw == r
    ensures l.address == AddressOf(r)
    ensures l.price == Column(r, PRICE_KEYS) && l.beds == Column(r, BED_KEYS)
    ensures l.baths == Column(r, BATH_KEYS) && l.sqft == Column(r, SQFT_KEYS)
    ensures l.estRent.Some? && l.noi.Some?
    ensures Column(r, RENT_KEYS).Some? ==> l.estRent == Column(r, RENT_KEYS)
    ensures Column(r, RENT_KEYS).None? ==> l.estRent == Some(EstimateMonthlyRent(l.beds))
    ensures Column(r, NOI_KEYS).Some? ==> l.noi == Column(r, NOI_KEYS)
    ensures Column(r, NOI_KEYS).None? ==> l.noi == Some(EstimateAnnualNOI(l.estRent.value))
    ensures Column(r, CAP_KEYS).Some? ==> l.capRate == Column(r, CAP_KEYS)
    ensures Column(r, CAP_KEYS).None? ==> l.capRate == CalcCapRate(l.noi, l.price)
  {
    var address := AddressOf(r);
    var price := Column(r, PRICE_KEYS);
    var beds := Column(r, BED_KEYS);
    var baths := Column(r, BATH_KEYS);
    var sqft := Column(r, SQFT_KEYS);
    var fileRent := Column(r, RENT_KEYS);
    var estRent := if fileRent.Some? then fileRent.value else EstimateMonthlyRent(beds);
    var fileNoi := Column(r, NOI_KEYS);
    var noi := if fileNoi.Some? then fileNoi.value else EstimateAnnualNOI(estRent);
    var fileCap := Column(r, CAP_KEYS);
    var capRate := if fileCap.Some? then fileCap else CalcCapRate(Some(noi), price);
    Listing(i, address, price, beds, baths, sqft, Some(estRent), Some(noi), capRate, r)
  }

  /** The junk-row test: some of address, price, beds, baths and square
      footage is truthy. */
  predicate Kept(l: Listing)
  {
    HasContent(Str(l.address), l.price, l.beds, l.baths, l.sqft)
  }

  function Min(a: nat, b: nat): nat
  {
    if a <= b then a else b
  }

  /** The rows actually read: `rows.slice(0, MAX_ROWS)`. */
  function Limited(rows: seq<Row>): (lim: seq<Row>)
    ensures |lim| <= MAX_ROWS && |lim| <= |rows| && lim == rows[..|lim|]
    ensures |rows| <= MAX_ROWS ==> lim == rows
  {
    rows[..Min(|rows|, MAX_ROWS)]
  }

  function ListingId(l: Listing): int
  {
    l.id
  }

  /** The map/filter of `loadListings` over the rows of the sheet. */
  function Normalize(rows: seq<Row>): (ls: seq<Listing>)
    ensures |ls| <= MAX_ROWS
    ensures forall j :: 0 <= j < |ls| ==> Kept(ls[j])
  {
    MapFilter(Limited(rows), 0, RowToListing, Kept)
  }

  /** The listings are exactly the kept rows among the first `MAX_ROWS`, in
      sheet order: each id is the index of its row, below `MAX_ROWS`, ids
      rise strictly (with gaps where rows were dropped), and every row that
      passes the junk-row test is present. */
  lemma NormalizeRows(rows: seq<Row>)
    ensures FromRows(Normalize(rows), Limited(rows), 0, RowToListing, ListingId)
    ensures IdsRising(Normalize(rows), ListingId)
    ensures NoneLost(Normalize(rows), Limited(rows), 0, RowToListing, Kept, ListingId)
  {
    var lim := Limited(rows);
    MapFilterFromRows(lim, 0, RowToListing, Kept, ListingId);
    MapFilterIdsRise(lim, 0, RowToListing, Kept, ListingId);
    MapFilterNoneLost(lim, 0, RowToListing, Kept, ListingId);
  }

  /** Every listing has a rent and an NOI, from the file or estimated. */
  lemma NormalizeHasRentAndNoi(rows: seq<Row>)
    ensures forall l :: l in Normalize(rows) ==> l.estRent.Some? && l.noi.Some?
  {
    NormalizeRows(rows);
  }

  /** `pickFirst` skips a blank cell: with `Price_Listing` holding "" and
      `Price` a number, the price is that number. */
  lemma BlankCellSkipped(r: Row, x: real)
    requires Get(r, "Price_Listing") == Str("") && Get(r, "Price") == Num(x)
    ensures Column(r, PRICE_KEYS) == Some(x)
  {
    var vs := Fields(r, PRICE_KEYS);
    assert vs[0] == Str("") && vs[1] == Num(x);
    assert Trim("") == "";
    assert PickFirst(vs) == PickFirst(vs[1..]);
    assert vs[1..][0] == Num(x);
  }

  /** The module-level cache of lib/loadListings.ts. */
  class ListingStore {
    var cached: Option<seq<Listing>>
    var cachedAt: int

    constructor()
      ensures cached == None && cachedAt == 0
    {
      cached := None;
      cachedAt := 0;
    }

    /** Whether a call at time `now` is served from the cache. */
    predicate Fresh(now: int)
      reads this
    {
      cached.Some? && now - cachedAt < CACHE_MS
    }

    /** `loadListings()` at time `now`, with `file` the rows of the sheet or
        `None` when the file is missing. Within the hour the cached listings
        are returned and nothing changes; otherwise the listings are rebuilt
        (as `[]` when the file is missing) and cached with the time. */
    method Load(now: int, file: Option<seq<Row>>) returns (result: seq<Listing>)
      modifies this
      ensures old(Fresh(now)) ==> result == old(cached).value && cached == old(cached) && cachedAt == old(cachedAt)
      ensures !old(Fresh(now)) ==> result == (if file.None? then [] else Normalize(file.value))
      ensures !old(Fresh(now)) ==> cached == Some(result) && cachedAt == now
    {
      if cached.Some? && now - cachedAt < CACHE_MS {
        return cached.value;
      }
      if file.None? {
        cached := Some([]);
        cachedAt := now;
        return [];
      }
      result := Normalize(file.value);
      cached := Some(result);
      cachedAt := now;
    }
  }
}
