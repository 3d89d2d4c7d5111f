/** app/api/market-summary/route.ts: the location heuristic that reads a
    city, province and country out of a free-form address, and the summary
    the route returns for a location query: how many listings pass the hard
    rules and the query, and the averages of their cap rates, prices and
    rents. The listings are an input; the HTTP request is reduced to its
    three query parameters. */
module MarketSummary {
  import opened Text
  import opened Numeral
  import opened Js
  import opened Coerce
  import ListingsTs

  const HARD_MIN_PRICE: real := 200000.0
  const UNKNOWN: string := "Unknown"
  const ANY: string := "any"

  /** The alternatives of `/\b(BC|AB|SK|MB|ON|QC|NB|NS|NL|PE|NT|NU|YT)\b/i`. */
  const PROVINCES: seq<string> := ["BC", "AB", "SK", "MB", "ON", "QC", "NB", "NS", "NL", "PE", "NT", "NU", "YT"]

  /** The alternatives of the street-word pattern, in lower case. */
  const STREET_WORDS: seq<string> := ["ave", "avenue", "st", "street", "rd", "road", "blvd", "boulevard", "dr",
    "drive", "way", "lane", "ln", "pl", "place", "cres", "court", "ct"]

  datatype Location = Location(city: string, province: string, country: string)

  /** `s.split(sep)` for a one-character separator: the pieces between
      separators, empty ones included. */
  function Split(s: string, sep: char): (pieces: seq<string>)
    ensures |pieces| >= 1
  {
    if s == [] then [""]
    else if s[0] == sep then [""] + Split(s[1..], sep)
    else
      var rest := Split(s[1..], sep);
      [[s[0]] + rest[0]] + rest[1..]
  }

  /** `pieces.join(sep)` */
  function Join(pieces: seq<string>, sep: char): string
    requires |pieces| >= 1
  {
    if |pieces| == 1 then pieces[0] else pieces[0] + [sep] + Join(pieces[1..], sep)
  }

  /** Splitting and joining again gives back the address. */
  lemma {:induction false} SplitJoin(s: string, sep: char)
    ensures Join(Split(s, sep), sep) == s
  {
    if s != [] {
      SplitJoin(s[1..], sep);
      var rest := Split(s[1..], sep);
      if s[0] != sep && |rest| > 1 {
        assert rest == [rest[0]] + rest[1..];
      }
    }
  }

  /** No piece holds the separator. */
  lemma {:induction false} SplitPiecesFree(s: string, sep: char)
    ensures forall k :: 0 <= k < |Split(s, sep)| ==> sep !in Split(s, sep)[k]
  {
    if s != [] {
      SplitPiecesFree(s[1..], sep);
      var rest := Split(s[1..], sep);
      var pieces := Split(s, sep);
      if s[0] == sep {
        assert forall k :: 1 <= k < |pieces| ==> pieces[k] == rest[k - 1];
      } else {
        assert forall k :: 1 <= k < |pieces| ==> pieces[k] == rest[k];
      }
    }
  }

  /** `.map(f)` on strings. */
  function MapAll(pieces: seq<string>, f: string -> string): (ts: seq<string>)
    ensures |ts| == |pieces|
    ensures forall k :: 0 <= k < |pieces| ==> ts[k] == f(pieces[k])
  {
    seq(|pieces|, k requires 0 <= k < |pieces| => f(pieces[k]))
  }

  /** `.filter(Boolean)` on strings: the non-empty ones, in order. */
  function NonEmpty(xs: seq<string>): (r: seq<string>)
    ensures |r| <= |xs|
    ensures forall k :: 0 <= k < |r| ==> r[k] != "" && r[k] in xs
  {
    if xs == [] then []
    else
      var rest := NonEmpty(xs[1..]);
      var h := if xs[0] == "" then [] else [xs[0]];
      assert forall k :: |h| <= k < |h + rest| ==> (h + rest)[k] == rest[k - |h|];
      h + rest
  }

  lemma {:induction false} NonEmptyAppend(xs: seq<string>, x: string)
    ensures NonEmpty(xs + [x]) == NonEmpty(xs) + (if x == "" then [] else [x])
  {
    if xs == [] {
      assert [x][1..] == [];
    } else {
      assert (xs + [x])[1..] == xs[1..] + [x];
      NonEmptyAppend(xs[1..], x);
    }
  }

  lemma {:induction false} NonEmptyMembers(xs: seq<string>)
    ensures forall x :: x in NonEmpty(xs) <==> x in xs && x != ""
  {
    if xs != [] {
      NonEmptyMembers(xs[1..]);
      assert xs == [xs[0]] + xs[1..];
    }
  }

  /** Mapping then keeping the non-empty results, one more piece at the
      end adds its non-empty image at the end. */
  lemma MapNonEmptyAppend(pieces: seq<string>, piece: string, f: string -> string)
    ensures NonEmpty(MapAll(pieces + [piece], f)) == NonEmpty(MapAll(pieces, f)) + (if f(piece) == "" then [] else [f(piece)])
  {
    assert MapAll(pieces + [piece], f) == MapAll(pieces, f) + [f(piece)];
    NonEmptyAppend(MapAll(pieces, f), f(piece));
  }

  /** Mapping then keeping the non-empty results keeps exactly the
      non-empty images. */
  lemma MapNonEmptyMembers(pieces: seq<string>, f: string -> string)
    ensures forall t :: t in NonEmpty(MapAll(pieces, f)) <==> t != "" && exists k :: 0 <= k < |pieces| && f(pieces[k]) == t
  {
    var ts := MapAll(pieces, f);
    NonEmptyMembers(ts);
    forall t | t != "" && (exists k :: 0 <= k < |pieces| && f(pieces[k]) == t)
      ensures t in ts
    {
      var k :| 0 <= k < |pieces| && f(pieces[k]) == t;
      assert ts[k] == t;
    }
  }

  /** Keeping the non-empty strings keeps only trimmed ones when all of
      them were trimmed. */
  lemma {:induction false} NonEmptyTrimmed(xs: seq<string>)
    requires forall k :: 0 <= k < |xs| ==> Trimmed(xs[k])
    ensures forall k :: 0 <= k < |NonEmpty(xs)| ==> Trimmed(NonEmpty(xs)[k])
  {
    if xs != [] {
      NonEmptyTrimmed(xs[1..]);
      assert NonEmpty(xs) == (if xs[0] == "" then [] else [xs[0]]) + NonEmpty(xs[1..]);
    }
  }

  lemma MapTrimTrimmed(pieces: seq<string>)
    ensures forall k :: 0 <= k < |pieces| ==> Trimmed(MapAll(pieces, Trim)[k])
  {
    forall k | 0 <= k < |pieces| ensures Trimmed(MapAll(pieces, Trim)[k]) {
      var t := Trim(pieces[k]);
      assert MapAll(pieces, Trim)[k] == t;
    }
  }

  /** `.map((s) => s.trim()).filter(Boolean)` */
  function TrimmedParts(pieces: seq<string>): (parts: seq<string>)
    ensures |parts| <= |pieces|
    ensures forall k :: 0 <= k < |parts| ==> parts[k] != "" && Trimmed(parts[k])
  {
    MapTrimTrimmed(pieces);
    NonEmptyTrimmed(MapAll(pieces, Trim));
    NonEmpty(MapAll(pieces, Trim))
  }

  /** Every non-blank piece is kept, trimmed and in order: one more piece at
      the end adds its trimmed text at the end exactly when that is not
      empty. */
  lemma TrimmedPartsAppend(pieces: seq<string>, piece: string)
    ensures TrimmedParts(pieces + [piece]) == TrimmedParts(pieces) + (if Trim(piece) == "" then [] else [Trim(piece)])
  {
    MapNonEmptyAppend(pieces, piece, Trim);
  }

  /** A text is a part exactly when it is the non-empty trimmed text of some
      piece, so no non-blank piece is lost. */
  lemma TrimmedPartsMembers(pieces: seq<string>)
    ensures forall t :: t in TrimmedParts(pieces) <==> t != "" && exists k :: 0 <= k < |pieces| && Trim(pieces[k]) == t
  {
    MapNonEmptyMembers(pieces, Trim);
  }

  /** Word characters of a regular expression: `[A-Za-z0-9_]`. */
  predicate IsWordChar(c: char)
  {
    'a' <= c <= 'z' || 'A' <= c <= 'Z' || IsDigit(c) || c == '_'
  }

  /** `word`, given in lower case, occurs in `s` at `i` ignoring ASCII case,
      with a word boundary on both sides. */
  predicate WordAt(s: string, word: string, i: nat)
  {
    && i + |word| <= |s|
    && ToLower(s[i..i + |word|]) == word
    && (i == 0 || !IsWordChar(s[i - 1]))
    && (i + |word| == |s| || !IsWordChar(s[i + |word|]))
  }

  /** The province code that matches at `i`, if any: the two characters at
      `i` upper-cased, when they name a province and stand as a word. The
      codes are distinct, so at most one alternative matches at a position. */
  function ProvinceAt(s: string, i: nat): (r: Option<string>)
    ensures r.Some? ==> r.value in PROVINCES
  {
    if i + 2 <= |s| && ToUpper(s[i..i + 2]) in PROVINCES && (i == 0 || !IsWordChar(s[i - 1]))
       && (i + 2 == |s| || !IsWordChar(s[i + 2]))
    then Some(ToUpper(s[i..i + 2]))
    else None
  }

  /** `s.match(provinces)`, from position `i` on: the leftmost match wins. */
  function FindProvince(s: string, i: nat): (r: Option<string>)
    ensures r.Some? ==> r.value in PROVINCES
    decreases |s| - i
  {
    if i >= |s| then None
    else if ProvinceAt(s, i).Some? then ProvinceAt(s, i)
    else FindProvince(s, i + 1)
  }

  /** The match found is the leftmost one: when `j` is the first position
      from `i` on where a province code stands, that code is found. */
  lemma {:induction false} FindProvinceLeftmost(s: string, i: nat, j: nat)
    requires i <= j < |s| && ProvinceAt(s, j).Some?
    requires forall k :: i <= k < j ==> ProvinceAt(s, k).None?
    ensures FindProvince(s, i) == ProvinceAt(s, j)
    decreases j - i
  {
    if i < j {
      FindProvinceLeftmost(s, i + 1, j);
    }
  }

  /** Without a province code standing as a word, the province is unknown. */
  lemma {:induction false} FindProvinceNone(s: string, i: nat)
    requires forall k :: i <= k < |s| ==> ProvinceAt(s, k).None?
    ensures FindProvince(s, i) == None
    decreases |s| - i
  {
    if i < |s| {
      FindProvinceNone(s, i + 1);
    }
  }

  /** `/\d/.test(first) || /\b(ave|avenue|...)\b/i.test(first)` */
  predicate LooksLikeStreet(first: string)
  {
    HasDigit(first) || exists i, k | 0 <= i <= |first| && 0 <= k < |STREET_WORDS| :: WordAt(first, STREET_WORDS[k], i)
  }

  /** The non-blank, trimmed comma-separated parts of an address. */
  function AddressParts(address: string): seq<string>
  {
    TrimmedParts(Split(address, ','))
  }

  /** `parts[parts.length - 1] || ""` */
  function LastPart(parts: seq<string>): string
  {
    if parts != [] then parts[|parts| - 1] else ""
  }

  /** The location read from the parts of a non-empty address: the country
      is always "Canada"; the province is the first province code standing
      as a word in the last part; the city is the second part when the
      first looks like a street and the second is non-empty, else a
      non-empty first part, else "Unknown". */
  function LocationOfParts(parts: seq<string>): (loc: Location)
    ensures loc.country == "Canada"
    ensures loc.province == UNKNOWN || loc.province in PROVINCES
    ensures FindProvince(LastPart(parts), 0).Some? ==> loc.province == FindProvince(LastPart(parts), 0).value
    ensures FindProvince(LastPart(parts), 0).None? ==> loc.province == UNKNOWN
    ensures |parts| > 1 && LooksLikeStreet(parts[0]) && parts[1] != "" ==> loc.city == parts[1]
    ensures parts != [] && parts[0] != "" && !(|parts| > 1 && LooksLikeStreet(parts[0]) && parts[1] != "")
      ==> loc.city == parts[0]
    ensures loc.city != UNKNOWN ==> loc.city in parts
  {
    var province := match FindProvince(LastPart(parts), 0) case Some(p) => p case None => UNKNOWN;
    var first := if parts != [] then parts[0] else "";
    var city :=
      if LooksLikeStreet(first) && |parts| > 1 && parts[1] != "" then parts[1]
      else if parts != [] && parts[0] != "" then parts[0]
      else UNKNOWN;
    Location(city, province, "Canada")
  }

  /** `parseLocation(address)`: all "Unknown" for a falsy address, otherwise
      the location of its trimmed, non-blank comma-separated parts. */
  function ParseLocation(address: Value): (loc: Location)
    ensures !Truthy(address) ==> loc == Location(UNKNOWN, UNKNOWN, UNKNOWN)
    ensures Truthy(address) ==> loc == LocationOfParts(AddressParts(ToStr(address)))
    ensures Truthy(address) ==> loc.country == "Canada"
    ensures loc.province == UNKNOWN || loc.province in PROVINCES
  {
    if !Truthy(address) then Location(UNKNOWN, UNKNOWN, UNKNOWN)
    else LocationOfParts(AddressParts(ToStr(address)))
  }

  /** For the parts of an address, which are never blank, the city is
      "Unknown" exactly when there is no part, unless a part itself reads
      "Unknown". */
  lemma CityIsAPart(address: string)
    ensures var parts := AddressParts(address);
      var city := LocationOfParts(parts).city;
      && (parts == [] ==> city == UNKNOWN)
      && (parts != [] ==> city in parts)
      && (|parts| > 1 && LooksLikeStreet(parts[0]) ==> city == parts[1])
  {
  }

  /** "60-8220 King George Blvd, Surrey, BC V3W 6E1": the first part has a
      digit, so the city is the second part, and "BC" opens the last. */
  lemma SurreyExample()
    ensures LocationOfParts(["60-8220 King George Blvd", "Surrey", "BC V3W 6E1"]) == Location("Surrey", "BC", "Canada")
  {
    var first := "60-8220 King George Blvd";
    assert IsDigit(first[0]);
    var last := "BC V3W 6E1";
    assert last[0..2] == "BC";
    assert ToUpper("BC") == [UpperChar('B')] + ToUpper("C");
    assert ToUpper("BC") == "BC" == PROVINCES[0];
    assert !IsWordChar(last[2]);
    assert ProvinceAt(last, 0) == Some("BC");
  }

  /** "St. Albert, AB": "St" stands as a street word, so the city is taken
      from the second part, "AB", which is also the province. */
  lemma SaintAlbertExample()
    ensures LocationOfParts(["St. Albert", "AB"]) == Location("AB", "AB", "Canada")
  {
    assert WordAt("St. Albert", STREET_WORDS[2], 0);
    var s := "AB";
    assert s[0..2] == s;
    assert ToUpper(s) == [UpperChar('A')] + ToUpper("B");
    assert ToUpper(s) == s == PROVINCES[1];
    assert ProvinceAt(s, 0) == Some("AB");
  }

  /** `avg(nums)`: null for no numbers, otherwise their mean. */
  function Sum(xs: seq<real>): real
  {
    if xs == [] then 0.0 else Sum(xs[..|xs| - 1]) + xs[|xs| - 1]
  }

  function Avg(xs: seq<real>): (r: Option<real>)
    ensures r.None? <==> xs == []
    ensures r.Some? ==> r.value * |xs| as real == Sum(xs)
  {
    if xs == [] then None else Some(Sum(xs) / |xs| as real)
  }

  lemma {:induction false} SumAtLeast(xs: seq<real>, lo: real)
    requires forall k :: 0 <= k < |xs| ==> xs[k] >= lo
    ensures Sum(xs) >= lo * |xs| as real
  {
    if xs != [] {
      SumAtLeast(xs[..|xs| - 1], lo);
    }
  }

  /** The mean of numbers that are all at least `lo` is at least `lo`. */
  lemma AvgAtLeast(xs: seq<real>, lo: real)
    requires xs != [] && forall k :: 0 <= k < |xs| ==> xs[k] >= lo
    ensures Avg(xs).value >= lo
  {
    SumAtLeast(xs, lo);
    var n := |xs| as real;
    assert Avg(xs).value * n >= lo * n;
  }

  /** A listing as the route reads it. */
  datatype Record = Record(address: Value, price: Value, beds: Value, baths: Value, capRate: Value, estRent: Value)

  /** A listing of lib/loadListings.ts as the route sees it. */
  function FromListing(l: ListingsTs.Listing): Record
  {
    Record(Str(l.address), FromOption(l.price), FromOption(l.beds), FromOption(l.baths),
      FromOption(l.capRate), FromOption(l.estRent))
  }

  /** `num` of a `number | null` gives it back. */
  lemma NumOfOption(o: Option<real>)
    ensures Coerce.Num(FromOption(o)) == o
  {
  }

  datatype Query = Query(country: string, province: string, city: string)

  /** `url.searchParams.get(name) || "any"` */
  function Param(p: Option<string>): (v: string)
    ensures v != ""
    ensures p.Some? && p.value != "" ==> v == p.value
  {
    if p.Some? && p.value != "" then p.value else ANY
  }

  /** Price at least `HARD_MIN_PRICE`, and positive beds and baths. */
  predicate HardRules(x: Record)
  {
    var price := Coerce.Num(x.price);
    var beds := Coerce.Num(x.beds);
    var baths := Coerce.Num(x.baths);
    && price.Some? && price.value >= HARD_MIN_PRICE
    && beds.Some? && beds.value > 0.0
    && baths.Some? && baths.value > 0.0
  }

  /** Each query field is an equality test, skipped for "any". */
  predicate LocationMatches(q: Query, loc: Location)
  {
    && (q.country == ANY || loc.country == q.country)
    && (q.province == ANY || loc.province == q.province)
    && (q.city == ANY || loc.city == q.city)
  }

  predicate Passes(q: Query, x: Record)
  {
    HardRules(x) && LocationMatches(q, ParseLocation(OrChain([x.address, Str("")])))
  }

  /** The route's test for one listing, as a value. */
  function PassesIn(q: Query): Record -> bool
  {
    x => Passes(q, x)
  }

  /** `xs.filter(p)` */
  function FilterBy(xs: seq<Record>, p: Record -> bool): (r: seq<Record>)
    ensures |r| <= |xs|
  {
    if xs == [] then [] else (if p(xs[0]) then [xs[0]] else []) + FilterBy(xs[1..], p)
  }

  lemma {:induction false} FilterByPasses(xs: seq<Record>, p: Record -> bool)
    ensures forall k :: 0 <= k < |FilterBy(xs, p)| ==> p(FilterBy(xs, p)[k])
  {
    if xs != [] {
      FilterByPasses(xs[1..], p);
      var head := if p(xs[0]) then [xs[0]] else [];
      var rest := FilterBy(xs[1..], p);
      assert forall k :: |head| <= k < |head + rest| ==> (head + rest)[k] == rest[k - |head|];
    }
  }

  lemma {:induction false} FilterByCounts(xs: seq<Record>, p: Record -> bool)
    ensures forall x :: multiset(FilterBy(xs, p))[x] == if p(x) then multiset(xs)[x] else 0
  {
    if xs != [] {
      FilterByCounts(xs[1..], p);
      assert xs == [xs[0]] + xs[1..];
    }
  }

  lemma {:induction false} FilterByAppend(xs: seq<Record>, x: Record, p: Record -> bool)
    ensures FilterBy(xs + [x], p) == FilterBy(xs, p) + (if p(x) then [x] else [])
  {
    if xs == [] {
      assert [x][1..] == [];
    } else {
      var head := if p(xs[0]) then [xs[0]] else [];
      var tail := if p(x) then [x] else [];
      assert (xs + [x])[0] == xs[0];
      assert (xs + [x])[1..] == xs[1..] + [x];
      calc {
        FilterBy(xs + [x], p);
        head + FilterBy(xs[1..] + [x], p);
        { FilterByAppend(xs[1..], x, p); }
        head + (FilterBy(xs[1..], p) + tail);
        (head + FilterBy(xs[1..], p)) + tail;
        FilterBy(xs, p) + tail;
      }
    }
  }

  lemma {:induction false} FilterByMonotone(xs: seq<Record>, p1: Record -> bool, p2: Record -> bool)
    requires forall x :: p2(x) ==> p1(x)
    ensures |FilterBy(xs, p2)| <= |FilterBy(xs, p1)|
  {
    if xs != [] {
      FilterByMonotone(xs[1..], p1, p2);
    }
  }

  /** `all.filter(...)`: the listings that pass the hard rules and the
      location filter. */
  function Filter(q: Query, xs: seq<Record>): (r: seq<Record>)
    ensures |r| <= |xs|
  {
    FilterBy(xs, PassesIn(q))
  }

  /** Every counted listing passes the hard rules and the location filter. */
  lemma FilterPasses(q: Query, xs: seq<Record>)
    ensures forall k :: 0 <= k < |Filter(q, xs)| ==> Passes(q, Filter(q, xs)[k])
  {
    FilterByPasses(xs, PassesIn(q));
  }

  /** Nothing is lost and nothing duplicated: each listing that passes is
      kept as often as it occurs, and no other listing is kept. */
  lemma FilterCounts(q: Query, xs: seq<Record>)
    ensures forall x :: multiset(Filter(q, xs))[x] == if Passes(q, x) then multiset(xs)[x] else 0
  {
    FilterByCounts(xs, PassesIn(q));
  }

  /** The kept listings keep their order: filtering a list with one more
      listing at the end adds that listing at the end exactly when it
      passes. */
  lemma FilterAppend(q: Query, xs: seq<Record>, x: Record)
    ensures Filter(q, xs + [x]) == Filter(q, xs) + (if Passes(q, x) then [x] else [])
  {
    FilterByAppend(xs, x, PassesIn(q));
  }

  /** `.map((x) => num(f(x))).filter((v) => v != null)` */
  function Present(xs: seq<Record>, f: Record -> Value): (r: seq<real>)
    ensures |r| <= |xs|
  {
    if xs == [] then []
    else
      var v := Coerce.Num(f(xs[0]));
      (if v.Some? then [v.value] else []) + Present(xs[1..], f)
  }

  function CapRateOf(x: Record): Value { x.capRate }
  function PriceOf(x: Record): Value { x.price }
  function RentOf(x: Record): Value { x.estRent }

  datatype Summary = Summary(count: nat, avgCapRate: Option<real>, avgPrice: Option<real>, avgRent: Option<real>)

  /** The body of a successful `GET /api/market-summary`. */
  function Summarize(q: Query, all: seq<Record>): (s: Summary)
    ensures s == SummaryOf(Filter(q, all))
    ensures s.count <= |all|
    ensures s.count == 0 ==> s.avgCapRate.None? && s.avgPrice.None? && s.avgRent.None?
  {
    SummaryOf(Filter(q, all))
  }

  /** The count and the three averages of the listings that were kept. */
  function SummaryOf(filtered: seq<Record>): (s: Summary)
    ensures s.count == |filtered|
    ensures s.count == 0 ==> s.avgCapRate.None? && s.avgPrice.None? && s.avgRent.None?
  {
    Summary(|filtered|, Avg(Present(filtered, CapRateOf)), Avg(Present(filtered, PriceOf)), Avg(Present(filtered, RentOf)))
  }

  /** Every counted listing passes the hard rules. */
  lemma CountedPassHardRules(q: Query, all: seq<Record>)
    ensures forall x :: x in Filter(q, all) ==>
      && Coerce.Num(x.price).Some? && Coerce.Num(x.price).value >= HARD_MIN_PRICE
      && Coerce.Num(x.beds).Some? && Coerce.Num(x.beds).value > 0.0
      && Coerce.Num(x.baths).Some? && Coerce.Num(x.baths).value > 0.0
  {
    var r := Filter(q, all);
    FilterPasses(q, all);
    forall x | x in r ensures HardRules(x) {
      var k :| 0 <= k < |r| && r[k] == x;
    }
  }

  /** No value of `f` is present in `xs` exactly when `Present` is empty. */
  lemma {:induction false} PresentEmpty(xs: seq<Record>, f: Record -> Value)
    ensures Present(xs, f) == [] <==> forall k :: 0 <= k < |xs| ==> Coerce.Num(f(xs[k])).None?
  {
    if xs != [] {
      PresentEmpty(xs[1..], f);
      assert forall k :: 1 <= k < |xs| ==> xs[k] == xs[1..][k - 1];
    }
  }

  /** Every present value of `f` is at least `lo` when each record's is. */
  lemma {:induction false} PresentAtLeast(xs: seq<Record>, f: Record -> Value, lo: real)
    requires forall k :: 0 <= k < |xs| ==> Coerce.Num(f(xs[k])).Some? && Coerce.Num(f(xs[k])).value >= lo
    ensures |Present(xs, f)| == |xs|
    ensures forall k :: 0 <= k < |Present(xs, f)| ==> Present(xs, f)[k] >= lo
  {
    if xs != [] {
      PresentAtLeast(xs[1..], f, lo);
      var v := Coerce.Num(f(xs[0]));
      var rest := Present(xs[1..], f);
      assert Present(xs, f) == [v.value] + rest;
    }
  }

  /** The average cap rate is null exactly when no counted listing has a
      cap rate. */
  lemma AvgCapRateNull(q: Query, all: seq<Record>)
    ensures var r := Filter(q, all);
      Summarize(q, all).avgCapRate.None? <==> forall k :: 0 <= k < |r| ==> Coerce.Num(r[k].capRate).None?
  {
    var r := Filter(q, all);
    SummaryCapRateNull(r);
    assert Summarize(q, all) == SummaryOf(r);
  }

  lemma SummaryCapRateNull(r: seq<Record>)
    ensures SummaryOf(r).avgCapRate.None? <==> forall k :: 0 <= k < |r| ==> Coerce.Num(r[k].capRate).None?
  {
    CapRatesAbsent(r);
  }

  lemma CapRatesAbsent(xs: seq<Record>)
    ensures Avg(Present(xs, CapRateOf)).None? <==> forall k :: 0 <= k < |xs| ==> Coerce.Num(xs[k].capRate).None?
  {
    PresentEmpty(xs, CapRateOf);
    assert forall k :: 0 <= k < |xs| ==> CapRateOf(xs[k]) == xs[k].capRate;
  }

  /** Every counted listing has a price, so the average price is null
      exactly when nothing is counted, and is at least `HARD_MIN_PRICE`
      otherwise. */
  lemma AvgPriceAboveMinimum(q: Query, all: seq<Record>)
    ensures var s := Summarize(q, all);
      && (s.avgPrice.None? <==> s.count == 0)
      && (s.avgPrice.Some? ==> s.avgPrice.value >= HARD_MIN_PRICE)
  {
    var r := Filter(q, all);
    FilterPasses(q, all);
    forall k | 0 <= k < |r| ensures Coerce.Num(PriceOf(r[k])).Some? && Coerce.Num(PriceOf(r[k])).value >= HARD_MIN_PRICE {
      assert HardRules(r[k]);
    }
    PresentAtLeast(r, PriceOf, HARD_MIN_PRICE);
    if r != [] {
      AvgAtLeast(Present(r, PriceOf), HARD_MIN_PRICE);
    }
  }

  /** `q2` asks for at least as much as `q1`: each field of `q1` is "any"
      or the same in `q2`. */
  predicate Narrows(q2: Query, q1: Query)
  {
    && (q1.country == ANY || q2.country == q1.country)
    && (q1.province == ANY || q2.province == q1.province)
    && (q1.city == ANY || q2.city == q1.city)
  }

  lemma FilterMonotone(q1: Query, q2: Query, xs: seq<Record>)
    requires Narrows(q2, q1)
    ensures |Filter(q2, xs)| <= |Filter(q1, xs)|
  {
    FilterByMonotone(xs, PassesIn(q1), PassesIn(q2));
  }

  /** Replacing "any" by a concrete value never increases the count. */
  lemma CountMonotone(q1: Query, q2: Query, all: seq<Record>)
    requires Narrows(q2, q1)
    ensures Summarize(q2, all).count <= Summarize(q1, all).count
  {
    FilterMonotone(q1, q2, all);
  }
}
