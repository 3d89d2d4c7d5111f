/** components/OpeningScreen.jsx: the market screen's page buttons, the
    "showing X to Y" label, the cap-rate histogram, and the screen's
    state: the hero selections, the active filters and the page, with the
    transitions its handlers and effects make. The request for a page of
    results and the chart drawing are not part of this model; a response
    is an input. */
module OpeningScreen {
  import opened Numeral
  import opened Js

  // ---------------------------------------------------------------------
  // pageButtons

  predicate StrictlyAscending(s: seq<int>)
  {
    forall i, j :: 0 <= i < j < |s| ==> s[i] < s[j]
  }

  /** `new Set([1, totalPages, page - 2, page - 1, page, page + 1, page + 2])` */
  function Candidates(page: int, totalPages: int): seq<int>
  {
    [1, totalPages, page - 2, page - 1, page, page + 1, page + 2]
  }

  /** `x` added to an ascending list without repeats, unless it is there. */
  function InsertAsc(x: int, s: seq<int>): (r: seq<int>)
    requires StrictlyAscending(s)
    ensures StrictlyAscending(r)
    ensures forall y :: y in r <==> y == x || y in s
    ensures |r| <= |s| + 1
  {
    if s == [] then [x]
    else if x < s[0] then
      ConsAscending(x, s);
      [x] + s
    else if x == s[0] then s
    else
      var t := InsertAsc(x, s[1..]);
      ConsAscending(s[0], t);
      [s[0]] + t
  }

  /** A value below every element can go in front of an ascending list. */
  lemma ConsAscending(h: int, t: seq<int>)
    requires StrictlyAscending(t)
    requires forall y :: y in t ==> y > h
    ensures StrictlyAscending([h] + t)
  {
    forall i, j | 0 <= i < j < |[h] + t|
      ensures ([h] + t)[i] < ([h] + t)[j]
    {
      assert ([h] + t)[j] == t[j - 1] && t[j - 1] in t;
      if i > 0 {
        assert ([h] + t)[i] == t[i - 1];
      }
    }
  }

  /** The distinct values of `xs`, ascending. */
  function SortedDistinct(xs: seq<int>): (r: seq<int>)
    ensures StrictlyAscending(r)
    ensures forall y :: y in r <==> y in xs
    ensures |r| <= |xs|
  {
    if xs == [] then [] else InsertAsc(xs[0], SortedDistinct(xs[1..]))
  }

  /** `.filter((p) => p >= 1 && p <= totalPages)` */
  function InRange(xs: seq<int>, totalPages: int): (r: seq<int>)
    ensures forall y :: y in r <==> y in xs && 1 <= y <= totalPages
    ensures |r| <= |xs|
  {
    if xs == [] then []
    else (if 1 <= xs[0] <= totalPages then [xs[0]] else []) + InRange(xs[1..], totalPages)
  }

  /** `arr`: the candidates without repeats, in range, ascending. The set,
      the filter and the sort leave one possible result, the ascending list
      of those values. */
  function PageNumbers(page: int, totalPages: int): (arr: seq<int>)
    ensures StrictlyAscending(arr)
    ensures forall y :: y in arr ==> 1 <= y <= totalPages
  {
    SortedDistinct(InRange(Candidates(page, totalPages), totalPages))
  }

  /** The numbers are ascending, distinct and within [1, totalPages]; there
      are at most seven; the first and the last page are always there, and
      so is the current page when it is in range. */
  lemma PageNumbersSpec(page: int, totalPages: int)
    ensures var arr := PageNumbers(page, totalPages);
      && StrictlyAscending(arr)
      && (forall y :: y in arr <==> y in Candidates(page, totalPages) && 1 <= y <= totalPages)
      && |arr| <= 7
      && (totalPages >= 1 ==> 1 in arr && totalPages in arr)
      && (1 <= page <= totalPages ==> page in arr)
  {
    var c := Candidates(page, totalPages);
    assert 1 in c && totalPages in c && page in c;
  }

  /** A page button or the "…" between two of them. */
  datatype Button = PageNo(n: int) | Ellipsis

  /** The buttons the loop produces for `arr`: each number, preceded by "…"
      when it is more than one past the number before it. */
  function Expand(arr: seq<int>): (bs: seq<Button>)
    ensures arr != [] ==> bs != [] && bs[|bs| - 1] == PageNo(arr[|arr| - 1])
  {
    if arr == [] then []
    else
      var n := |arr|;
      Expand(arr[..n - 1]) + (if n > 1 && arr[n - 1] - arr[n - 2] > 1 then [Ellipsis] else []) + [PageNo(arr[n - 1])]
  }

  /** The `pageButtons` memo. */
  method PageButtons(page: int, totalPages: int) returns (out: seq<Button>)
    ensures out == Expand(PageNumbers(page, totalPages))
  {
    var arr := PageNumbers(page, totalPages);
    out := [];
    var i := 0;
    while i < |arr|
      invariant 0 <= i <= |arr|
      invariant out == Expand(arr[..i])
    {
      ExpandStep(arr, i);
      var cur := arr[i];
      if i > 0 && cur - arr[i - 1] > 1 {
        out := out + [Ellipsis];
      }
      out := out + [PageNo(cur)];
      i := i + 1;
    }
    assert arr[..|arr|] == arr;
  }

  /** One more page number extends the buttons by a "…" on a gap and the
      number. */
  lemma ExpandStep(arr: seq<int>, i: nat)
    requires i < |arr|
    ensures Expand(arr[..i + 1]) ==
      Expand(arr[..i]) + (if i > 0 && arr[i] - arr[i - 1] > 1 then [Ellipsis] else []) + [PageNo(arr[i])]
  {
    assert arr[..i + 1][..i] == arr[..i];
  }

  /** The page numbers of a list of buttons, in order. */
  function Numbers(bs: seq<Button>): seq<int>
  {
    if bs == [] then []
    else Numbers(bs[..|bs| - 1]) + (if bs[|bs| - 1].PageNo? then [bs[|bs| - 1].n] else [])
  }

  /** Removing the "…" marks gives back the page numbers. */
  lemma {:induction false} ExpandNumbers(arr: seq<int>)
    ensures Numbers(Expand(arr)) == arr
  {
    if arr != [] {
      var n := |arr|;
      var p := Expand(arr[..n - 1]);
      var gap := n > 1 && arr[n - 1] - arr[n - 2] > 1;
      var q := p + (if gap then [Ellipsis] else []);
      ExpandNumbers(arr[..n - 1]);
      assert (q + [PageNo(arr[n - 1])])[..|q|] == q;
      if gap {
        assert q[..|p|] == p;
      } else {
        assert q == p;
      }
      assert arr[..n - 1] + [arr[n - 1]] == arr;
    }
  }

  /** A non-empty list starts with its first number. */
  lemma {:induction false} ExpandFirst(arr: seq<int>)
    requires arr != []
    ensures Expand(arr) != [] && Expand(arr)[0] == PageNo(arr[0])
  {
    if |arr| > 1 {
      ExpandFirst(arr[..|arr| - 1]);
    }
  }

  /** "…" is never first or last and stands exactly between two numbers
      that are more than one apart. */
  predicate EllipsisAt(e: seq<Button>, j: int)
    requires 0 <= j < |e| && e[j].Ellipsis?
  {
    0 < j < |e| - 1 && e[j - 1].PageNo? && e[j + 1].PageNo? && e[j + 1].n - e[j - 1].n > 1
  }

  /** Two adjacent numbers are at most one apart. */
  predicate AdjacentAt(e: seq<Button>, j: int)
    requires 0 <= j < |e| - 1 && e[j].PageNo? && e[j + 1].PageNo?
  {
    e[j + 1].n - e[j].n <= 1
  }

  /** Every "…" is well placed and every two adjacent numbers are at most
      one apart; so there are never two "…" in a row. */
  predicate WellPlaced(e: seq<Button>)
  {
    && (forall j :: 0 <= j < |e| && e[j].Ellipsis? ==> EllipsisAt(e, j))
    && (forall j :: 0 <= j < |e| - 1 && e[j].PageNo? && e[j + 1].PageNo? ==> AdjacentAt(e, j))
  }

  /** "…" is never first or last, stands exactly between two numbers that
      are more than one apart, and two adjacent numbers are at most one
      apart. */
  lemma {:induction false} ExpandEllipses(arr: seq<int>)
    ensures WellPlaced(Expand(arr))
  {
    if arr != [] {
      var n := |arr|;
      var init := arr[..n - 1];
      ExpandEllipses(init);
      var p := Expand(init);
      var gap := n > 1 && arr[n - 1] - arr[n - 2] > 1;
      var mid: seq<Button> := if gap then [Ellipsis] else [];
      var e := Expand(arr);
      assert e == p + mid + [PageNo(arr[n - 1])];
      if n > 1 {
        assert p != [] && p[|p| - 1] == PageNo(init[|init| - 1]);
        assert init[|init| - 1] == arr[n - 2];
      }
      forall j | 0 <= j < |e| && e[j].Ellipsis?
        ensures EllipsisAt(e, j)
      {
        if j < |p| {
          assert e[j] == p[j];
          assert EllipsisAt(p, j);
          assert e[j - 1] == p[j - 1] && e[j + 1] == p[j + 1];
        } else {
          assert j == |p| && gap;
          assert e[j - 1] == PageNo(arr[n - 2]) && e[j + 1] == PageNo(arr[n - 1]);
        }
      }
      forall j | 0 <= j < |e| - 1 && e[j].PageNo? && e[j + 1].PageNo?
        ensures AdjacentAt(e, j)
      {
        if j + 1 < |p| {
          assert e[j] == p[j] && e[j + 1] == p[j + 1];
          assert AdjacentAt(p, j);
        } else {
          assert j + 1 == |p| && n > 1 && !gap;
          assert e[j] == PageNo(arr[n - 2]) && e[j + 1] == PageNo(arr[n - 1]);
        }
      }
    }
  }

  // ---------------------------------------------------------------------
  // The range label and the Prev/Next buttons

  /** Rows per page. */
  const PAGE_SIZE: int := 50

  /** `total === 0 ? 0 : (page - 1) * pageSize + 1` and
      `Math.min(page * pageSize, total)` */
  function RangeLabel(page: int, total: int): (r: (int, int))
    ensures total == 0 ==> r.0 == 0
    ensures r.1 <= total
  {
    var from := if total == 0 then 0 else (page - 1) * PAGE_SIZE + 1;
    var to := if page * PAGE_SIZE <= total then page * PAGE_SIZE else total;
    (from, to)
  }

  /** On a page that holds results the label names at most a page of rows,
      all within the total; with no results it reads "0 to 0". */
  lemma RangeLabelBounds(page: int, total: int)
    ensures total == 0 && page >= 0 ==> RangeLabel(page, total) == (0, 0)
    ensures 1 <= page && (page - 1) * PAGE_SIZE < total ==>
      var (from, to) := RangeLabel(page, total);
      1 <= from <= to <= total && to - from + 1 <= PAGE_SIZE
      && (to < total ==> to - from + 1 == PAGE_SIZE)
  {
  }

  /** `setPage((p) => Math.max(1, p - 1))` */
  function PrevPage(p: int): (r: int)
    ensures r >= 1
    ensures p >= 2 ==> r == p - 1
  {
    if 1 >= p - 1 then 1 else p - 1
  }

  /** `setPage((p) => Math.min(totalPages, p + 1))` */
  function NextPage(p: int, totalPages: int): (r: int)
    ensures r <= totalPages
    ensures p + 1 <= totalPages ==> r == p + 1
  {
    if totalPages <= p + 1 then totalPages else p + 1
  }

  /** Prev and Next move one page and keep a page in [1, totalPages] there;
      at the first page Prev stays, at the last page Next stays. */
  lemma PrevNextStayInRange(p: int, totalPages: int)
    requires 1 <= p <= totalPages
    ensures 1 <= PrevPage(p) <= totalPages && 1 <= NextPage(p, totalPages) <= totalPages
    ensures PrevPage(p) == (if p == 1 then 1 else p - 1)
    ensures NextPage(p, totalPages) == (if p == totalPages then p else p + 1)
  {
  }

  // ---------------------------------------------------------------------
  // The histogram of cap rates

  /** The number of buckets: 0-2%, 2-4%, 4-6%, 6-8%, 8-10% and 10%+. */
  const BUCKETS: nat := 6

  function BucketLo(k: nat): real
  {
    2.0 * k as real
  }

  /** The upper bound, `None` for the last bucket's `Infinity`. */
  function BucketHi(k: nat): Option<real>
  {
    if k == BUCKETS - 1 then None else Some(2.0 * k as real + 2.0)
  }

  /** `v >= x.lo && v < x.hi` */
  predicate InBucket(v: real, k: nat)
  {
    k < BUCKETS && v >= BucketLo(k) && (BucketHi(k).None? || v < BucketHi(k).value)
  }

  /** `buckets.find(...)` from bucket `k` on. */
  function FindBucket(v: real, k: nat): (b: Option<nat>)
    requires k <= BUCKETS
    ensures b.Some? ==> k <= b.value < BUCKETS && InBucket(v, b.value)
    decreases BUCKETS - k
  {
    if k == BUCKETS then None
    else if InBucket(v, k) then Some(k)
    else FindBucket(v, k + 1)
  }

  /** The bucket a value is counted in. */
  function BucketOf(v: real): (b: Option<nat>)
    ensures b.Some? ==> InBucket(v, b.value)
  {
    FindBucket(v, 0)
  }

  /** Every value of at least 0 falls in exactly one bucket, the one
      `min(5, floor(v / 2))`; a negative value falls in none. */
  lemma BucketOfSpec(v: real)
    ensures v < 0.0 <==> BucketOf(v).None?
    ensures v >= 0.0 ==> BucketOf(v) == Some(if v >= 10.0 then 5 else (v / 2.0).Floor as nat)
    ensures forall k: nat :: InBucket(v, k) ==> BucketOf(v) == Some(k)
  {
    if v >= 0.0 {
      var k: nat := if v >= 10.0 then 5 else (v / 2.0).Floor as nat;
      assert InBucket(v, k);
      FindBeforeBucket(v, 0, k);
    } else {
      FindNone(v, 0);
    }
    forall k: nat | InBucket(v, k) ensures BucketOf(v) == Some(k) {
      FindBeforeBucket(v, 0, k);
    }
  }

  /** Buckets do not overlap, so the search stops at the bucket holding `v`. */
  lemma {:induction false} FindBeforeBucket(v: real, k: nat, m: nat)
    requires k <= m && InBucket(v, m)
    ensures FindBucket(v, k) == Some(m)
    decreases m - k
  {
    if k < m {
      assert BucketHi(k).Some? && BucketHi(k).value <= BucketLo(m);
      FindBeforeBucket(v, k + 1, m);
    }
  }

  lemma {:induction false} FindNone(v: real, k: nat)
    requires v < 0.0 && k <= BUCKETS
    ensures FindBucket(v, k).None?
    decreases BUCKETS - k
  {
    if k < BUCKETS {
      FindNone(v, k + 1);
    }
  }

  /** The bucket `Number(r)` falls in, if it is a number in any bucket. */
  function BucketOfValue(r: Value): Option<nat>
  {
    match ToNumber(r)
    case None => None
    case Some(v) => BucketOf(v)
  }

  /** How many of `xs` the loop counts in bucket `k`. */
  function CountIn(xs: seq<Value>, k: nat): nat
  {
    if xs == [] then 0
    else CountIn(xs[..|xs| - 1], k) + (if BucketOfValue(xs[|xs| - 1]) == Some(k) then 1 else 0)
  }

  /** How many of `xs` the loop counts at all. */
  function Counted(xs: seq<Value>): nat
  {
    if xs == [] then 0
    else Counted(xs[..|xs| - 1]) + (if BucketOfValue(xs[|xs| - 1]).Some? then 1 else 0)
  }

  /** The counting loop of `initOrUpdatePlotly`: the counts start at 0, and
      each value that is a number lying in a bucket adds one to that
      bucket. */
  method BucketCounts(capRates: seq<Value>) returns (counts: array<nat>)
    ensures fresh(counts) && counts.Length == BUCKETS
    ensures forall k :: 0 <= k < BUCKETS ==> counts[k] == CountIn(capRates, k)
  {
    counts := new nat[BUCKETS](_ => 0);
    for i := 0 to |capRates|
      invariant forall k :: 0 <= k < BUCKETS ==> counts[k] == CountIn(capRates[..i], k)
    {
      assert capRates[..i + 1][..i] == capRates[..i];
      var v := ToNumber(capRates[i]);
      if v.None? {
        continue;
      }
      var b := BucketOf(v.value);
      if b.Some? {
        counts[b.value] := counts[b.value] + 1;
      }
    }
    assert capRates[..|capRates|] == capRates;
  }

  /** The counts add up to the values counted, which are at most all of
      them: every counted value is in exactly one bucket. */
  lemma {:induction false} CountsAddUp(xs: seq<Value>)
    ensures CountIn(xs, 0) + CountIn(xs, 1) + CountIn(xs, 2) + CountIn(xs, 3) + CountIn(xs, 4) + CountIn(xs, 5)
      == Counted(xs)
    ensures Counted(xs) <= |xs|
  {
    if xs != [] {
      CountsAddUp(xs[..|xs| - 1]);
      var b := BucketOfValue(xs[|xs| - 1]);
      if b.Some? {
        match ToNumber(xs[|xs| - 1])
        case Some(v) =>
          assert b == BucketOf(v) && InBucket(v, b.value);
      }
    }
  }

  /** `items.map((x) => x?.capRate).filter((v) => v != null)`: a missing
      item is `None`. */
  function CapRates(items: seq<Option<Row>>): (rs: seq<Value>)
    ensures |rs| <= |items|
    ensures forall r :: r in rs ==> !IsNullish(r)
  {
    if items == [] then []
    else
      var h := ItemCapRate(items[0]);
      var rest := CapRates(items[1..]);
      assert forall k :: |h| <= k < |h + rest| ==> (h + rest)[k] == rest[k - |h|];
      h + rest
  }

  /** What one item contributes: its cap rate, unless that is nullish. */
  function ItemCapRate(item: Option<Row>): (r: seq<Value>)
    ensures |r| <= 1
    ensures r != [] ==> r[0] == CapRateCell(item) && !IsNullish(r[0])
  {
    var c := CapRateCell(item);
    if IsNullish(c) then [] else [c]
  }

  /** `x?.capRate` */
  function CapRateCell(item: Option<Row>): Value
  {
    if item.None? then Undefined else Get(item.value, "capRate")
  }

  /** Every item whose cap rate is set contributes it, and in item order:
      one more item at the end adds its cap rate at the end exactly when
      it is not nullish. */
  lemma {:induction false} CapRatesAppend(items: seq<Option<Row>>, item: Option<Row>)
    ensures CapRates(items + [item]) == CapRates(items) + ItemCapRate(item)
  {
    if items == [] {
      assert [item][1..] == [];
    } else {
      var i2 := items + [item];
      assert i2[1..] == items[1..] + [item];
      assert CapRates(i2) == ItemCapRate(items[0]) + CapRates(items[1..] + [item]);
      CapRatesAppend(items[1..], item);
    }
  }

  /** A value is among the cap rates exactly when some item contributes
      it, so no item with a cap rate is lost. */
  lemma {:induction false} CapRatesMembers(items: seq<Option<Row>>)
    ensures forall v :: v in CapRates(items) <==> exists k :: 0 <= k < |items| && v in ItemCapRate(items[k])
  {
    if items != [] {
      CapRatesMembers(items[1..]);
      assert CapRates(items) == ItemCapRate(items[0]) + CapRates(items[1..]);
      forall v | (exists k :: 0 <= k < |items| && v in ItemCapRate(items[k]))
        ensures v in CapRates(items)
      {
        var k :| 0 <= k < |items| && v in ItemCapRate(items[k]);
        if k > 0 {
          assert items[1..][k - 1] == items[k];
        }
      }
      forall v | v in CapRates(items)
        ensures exists k :: 0 <= k < |items| && v in ItemCapRate(items[k])
      {
        if v !in ItemCapRate(items[0]) {
          var k :| 0 <= k < |items[1..]| && v in ItemCapRate(items[1..][k]);
          assert items[k + 1] == items[1..][k];
        }
      }
    }
  }

  // ---------------------------------------------------------------------
  // The screen's state

  /** The active filters sent with each request. */
  datatype Filters = Filters(query: string, country: string, province: string, city: string,
                             priceBucket: string, minCap: real, sortBy: string)

  const ANY: string := "any"
  const DEFAULT_FILTERS: Filters := Filters("", ANY, ANY, ANY, ANY, 0.0, "cap")
  const DEFAULT_HERO_COUNTRY: string := "Canada"

  /** A response to a page request: `Loaded` carries `data.total`,
      `data.totalPages` and `data.page` (0 where the field is missing),
      `Failed` is a request that threw. */
  datatype Response = Loaded(total: int, totalPages: int, page: int) | Failed

  class Screen {
    var heroCountry: string
    var heroProvince: string
    var heroCity: string
    var filters: Filters
    var page: int
    var total: int
    var totalPages: int

    /** The hero selections. */
    function Hero(): (string, string, string)
      reads this
    {
      (heroCountry, heroProvince, heroCity)
    }

    /** The state the screen opens with. */
    constructor()
      ensures Hero() == (DEFAULT_HERO_COUNTRY, ANY, ANY) && filters == DEFAULT_FILTERS
      ensures page == 1 && total == 0 && totalPages == 1
    {
      heroCountry := DEFAULT_HERO_COUNTRY;
      heroProvince := ANY;
      heroCity := ANY;
      filters := DEFAULT_FILTERS;
      page := 1;
      total := 0;
      totalPages := 1;
    }

    /** The hero country picker: only the hero country changes; the hero
        province and city keep their selections. */
    method OnHeroCountryChange(country: string)
      modifies this
      ensures Hero() == (country, old(heroProvince), old(heroCity))
      ensures filters == old(filters) && page == old(page)
      ensures total == old(total) && totalPages == old(totalPages)
    {
      heroCountry := country;
    }

    /** `onHeroProvinceChange`: a new hero province resets the hero city. */
    method OnHeroProvinceChange(province: string)
      modifies this
      ensures Hero() == (old(heroCountry), province, ANY)
      ensures filters == old(filters) && page == old(page)
      ensures total == old(total) && totalPages == old(totalPages)
    {
      heroProvince := province;
      heroCity := ANY;
    }

    /** `onHeroCityChange` */
    method OnHeroCityChange(city: string)
      modifies this
      ensures Hero() == (old(heroCountry), old(heroProvince), city)
      ensures filters == old(filters) && page == old(page)
      ensures total == old(total) && totalPages == old(totalPages)
    {
      heroCity := city;
    }

    /** A change of the active filters by their inputs. When the filters
        really change, the effect on them sets the page back to 1; setting
        a filter to the value it has re-renders nothing. */
    method ChangeFilters(f: Filters)
      modifies this
      ensures filters == f && Hero() == old(Hero())
      ensures page == (if f != old(filters) then 1 else old(page))
      ensures total == old(total) && totalPages == old(totalPages)
    {
      if f != filters {
        filters := f;
        page := 1;
      }
    }

    /** `onAnalyzeMarket`: the hero selections become the location
        filters, with `heroCountry || "any"`, and the page goes back to 1. */
    method OnAnalyzeMarket()
      modifies this
      ensures filters == old(filters).(country := if heroCountry != "" then heroCountry else ANY,
                                       province := heroProvince, city := heroCity)
      ensures page == 1 && Hero() == old(Hero())
      ensures total == old(total) && totalPages == old(totalPages)
    {
      filters := filters.(country := if heroCountry != "" then heroCountry else ANY,
                          province := heroProvince, city := heroCity);
      page := 1;
    }

    /** `onClear`: every selection and filter back to its default, page 1. */
    method OnClear()
      modifies this
      ensures Hero() == (DEFAULT_HERO_COUNTRY, ANY, ANY) && filters == DEFAULT_FILTERS && page == 1
      ensures total == old(total) && totalPages == old(totalPages)
    {
      heroCountry := DEFAULT_HERO_COUNTRY;
      heroProvince := ANY;
      heroCity := ANY;
      filters := DEFAULT_FILTERS;
      page := 1;
    }

    method Prev()
      modifies this
      ensures page == PrevPage(old(page))
      ensures old(1 <= page <= totalPages) ==> 1 <= page <= totalPages
      ensures filters == old(filters) && Hero() == old(Hero())
      ensures total == old(total) && totalPages == old(totalPages)
    {
      if 1 <= page <= totalPages {
        PrevNextStayInRange(page, totalPages);
      }
      page := PrevPage(page);
    }

    method Next()
      modifies this
      ensures page == NextPage(old(page), totalPages)
      ensures old(1 <= page <= totalPages) ==> 1 <= page <= totalPages
      ensures filters == old(filters) && Hero() == old(Hero())
      ensures total == old(total) && totalPages == old(totalPages)
    {
      if 1 <= page <= totalPages {
        PrevNextStayInRange(page, totalPages);
      }
      page := NextPage(page, totalPages);
    }

    /** A page button. */
    method GoTo(p: int)
      modifies this
      ensures page == p
      ensures filters == old(filters) && Hero() == old(Hero())
      ensures total == old(total) && totalPages == old(totalPages)
    {
      page := p;
    }

    /** The end of `fetchPage`: `Number(data.total || 0)`,
        `Number(data.totalPages || 1)`, and the server's page replacing
        the current one when it is given and differs from `requested`, the
        page the request was made for (the `page` the callback closed
        over, which the user may have moved away from since); a failed
        request clears the results to 0 rows on 1 page. */
    method ApplyResponse(r: Response, requested: int)
      modifies this
      ensures r.Failed? ==> total == 0 && totalPages == 1 && page == old(page)
      ensures r.Loaded? ==> total == r.total && totalPages == (if r.totalPages != 0 then r.totalPages else 1)
      ensures r.Loaded? ==> page == (if r.page != 0 && r.page != requested then r.page else old(page))
      ensures filters == old(filters) && Hero() == old(Hero())
    {
      match r
      case Failed =>
        total := 0;
        totalPages := 1;
      case Loaded(t, tp, p) =>
        total := t;
        totalPages := if tp != 0 then tp else 1;
        if p != 0 && p != requested {
          page := p;
        }
    }
  }
}
