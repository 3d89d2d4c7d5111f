/** app/api/find-good-roi/route.ts: the helpers of the listing scraper.
    `clean` normalises a text, `dedupe` keeps one recorded request per
    method and URL, and the extraction keeps the listing-like links of a
    page once each, with the text of the card around them shortened to 500
    characters. The browser session that produces the page and the
    requests is not part of this model; its results are inputs. */
module FindGoodRoi {
  import opened Numeral
  import opened Text
  import opened Js

  // ---------------------------------------------------------------------
  // clean

  /** Every white space character is a plain space, and none follows
      another. */
  predicate SingleSpaced(s: string)
  {
    s == [] || ((IsSpace(s[0]) ==> s[0] == ' ' && (|s| > 1 ==> !IsSpace(s[1]))) && SingleSpaced(s[1..]))
  }

  /** `.replace(/\s+/g, " ")`: every run of white space becomes one space. */
  function Collapse(s: string): (r: string)
    ensures |r| <= |s|
    ensures s != [] ==> r != [] && r[0] == (if IsSpace(s[0]) then ' ' else s[0])
    decreases |s|
  {
    if s == [] then []
    else if IsSpace(s[0]) then [' '] + Collapse(TrimStart(s[1..]))
    else [s[0]] + Collapse(s[1..])
  }

  /** The characters of `s` that are not white space, in order. */
  function NonSpace(s: string): string
  {
    if s == [] then [] else (if IsSpace(s[0]) then [] else [s[0]]) + NonSpace(s[1..])
  }

  /** `.replace(/\s+/g, " ").trim()` */
  function CleanText(s: string): string
  {
    Trim(Collapse(s))
  }

  /** `String(s ?? "")` */
  function StrOf(v: Value): string
  {
    if IsNullish(v) then [] else ToStr(v)
  }

  /** `clean(s)` */
  function Clean(v: Value): (r: string)
    ensures IsNullish(v) ==> r == []
    ensures Trimmed(r)
  {
    CleanText(StrOf(v))
  }

  lemma {:induction false} CollapseSingleSpaced(s: string)
    ensures SingleSpaced(Collapse(s))
    decreases |s|
  {
    if s != [] {
      if IsSpace(s[0]) {
        var t := TrimStart(s[1..]);
        CollapseSingleSpaced(t);
        assert ([' '] + Collapse(t))[1..] == Collapse(t);
      } else {
        CollapseSingleSpaced(s[1..]);
        assert ([s[0]] + Collapse(s[1..]))[1..] == Collapse(s[1..]);
      }
    }
  }

  lemma {:induction false} NonSpaceConcat(a: string, b: string)
    ensures NonSpace(a + b) == NonSpace(a) + NonSpace(b)
  {
    if a != [] {
      NonSpaceConcat(a[1..], b);
      assert (a + b)[1..] == a[1..] + b;
    } else {
      assert a + b == b;
    }
  }

  lemma {:induction false} NonSpaceOfSpace(s: string)
    requires AllSpace(s)
    ensures NonSpace(s) == []
  {
    if s != [] {
      NonSpaceOfSpace(s[1..]);
    }
  }

  lemma {:induction false} TrimStartKeepsText(s: string)
    ensures NonSpace(TrimStart(s)) == NonSpace(s)
  {
    if s != [] && IsSpace(s[0]) {
      TrimStartKeepsText(s[1..]);
    }
  }

  lemma {:induction false} TrimEndKeepsText(s: string)
    ensures NonSpace(TrimEnd(s)) == NonSpace(s)
  {
    if s != [] && IsSpace(s[|s| - 1]) {
      var t := s[..|s| - 1];
      TrimEndKeepsText(t);
      assert s == t + [s[|s| - 1]];
      NonSpaceConcat(t, [s[|s| - 1]]);
    }
  }

  /** Trimming drops only white space. */
  lemma TrimKeepsText(s: string)
    ensures NonSpace(Trim(s)) == NonSpace(s)
  {
    TrimStartKeepsText(s);
    TrimEndKeepsText(TrimStart(s));
  }

  /** Collapsing the runs drops only white space. */
  lemma {:induction false} CollapseKeepsText(s: string)
    ensures NonSpace(Collapse(s)) == NonSpace(s)
    decreases |s|
  {
    if s != [] {
      if IsSpace(s[0]) {
        var t := TrimStart(s[1..]);
        CollapseKeepsText(t);
        assert ([' '] + Collapse(t))[1..] == Collapse(t);
        TrimStartKeepsText(s[1..]);
      } else {
        CollapseKeepsText(s[1..]);
        assert ([s[0]] + Collapse(s[1..]))[1..] == Collapse(s[1..]);
      }
    }
  }

  lemma {:induction false} SingleSpacedPrefix(s: string)
    requires SingleSpaced(s) && s != []
    ensures SingleSpaced(s[..|s| - 1])
  {
    if |s| > 1 {
      SingleSpacedPrefix(s[1..]);
      assert s[..|s| - 1][1..] == s[1..][..|s| - 2];
    }
  }

  lemma {:induction false} TrimStartSingleSpaced(s: string)
    requires SingleSpaced(s)
    ensures SingleSpaced(TrimStart(s))
  {
    if s != [] && IsSpace(s[0]) {
      TrimStartSingleSpaced(s[1..]);
    }
  }

  lemma {:induction false} TrimEndSingleSpaced(s: string)
    requires SingleSpaced(s)
    ensures SingleSpaced(TrimEnd(s))
  {
    if s != [] && IsSpace(s[|s| - 1]) {
      SingleSpacedPrefix(s);
      TrimEndSingleSpaced(s[..|s| - 1]);
    }
  }

  /** `clean` leaves no white space at the ends, single plain spaces
      inside, and every other character of the input in order; a missing
      value cleans to "". */
  lemma CleanSpec(v: Value)
    ensures Trimmed(Clean(v)) && SingleSpaced(Clean(v))
    ensures NonSpace(Clean(v)) == NonSpace(StrOf(v))
    ensures IsNullish(v) ==> Clean(v) == []
  {
    var c := Collapse(StrOf(v));
    CollapseSingleSpaced(StrOf(v));
    TrimStartSingleSpaced(c);
    TrimEndSingleSpaced(TrimStart(c));
    TrimKeepsText(c);
    CollapseKeepsText(StrOf(v));
  }

  lemma {:induction false} CollapseOfSingleSpaced(s: string)
    requires SingleSpaced(s)
    ensures Collapse(s) == s
  {
    if s != [] {
      CollapseOfSingleSpaced(s[1..]);
      assert [s[0]] + s[1..] == s;
    }
  }

  /** A cleaned text cleans to itself. */
  lemma CleanTextIdempotent(s: string)
    ensures CleanText(CleanText(s)) == CleanText(s)
  {
    CleanSpec(Str(s));
    CollapseOfSingleSpaced(CleanText(s));
    TrimOfTrimmed(CleanText(s));
  }


  // ---------------------------------------------------------------------
  // First and last occurrences

  /** The index of the first `k` in `ks`, `|ks|` when there is none. */
  function FirstIndex(ks: seq<string>, k: string): (f: nat)
    ensures f <= |ks|
    ensures f < |ks| ==> ks[f] == k
    ensures forall j :: 0 <= j < f && j < |ks| ==> ks[j] != k
  {
    if ks == [] then 0
    else
      var f := FirstIndex(ks[..|ks| - 1], k);
      if f < |ks| - 1 || ks[|ks| - 1] == k then f else |ks|
  }

  /** The index of the last `k` in `ks`, -1 when there is none. */
  function LastIndex(ks: seq<string>, k: string): (l: int)
    ensures -1 <= l < |ks|
    ensures l >= 0 ==> ks[l] == k
    ensures forall j :: l < j < |ks| ==> ks[j] != k
  {
    if ks == [] then -1
    else if ks[|ks| - 1] == k then |ks| - 1
    else LastIndex(ks[..|ks| - 1], k)
  }

  /** A key added at the end keeps the first occurrence of a key already
      there, and is first found at the end when it is new. */
  lemma FirstIndexSnoc(ks: seq<string>, x: string, k: string)
    ensures k in ks ==> FirstIndex(ks + [x], k) == FirstIndex(ks, k) < |ks|
    ensures k !in ks && k == x ==> FirstIndex(ks + [x], k) == |ks|
  {
    assert (ks + [x])[..|ks|] == ks;
    if k in ks {
      var j :| 0 <= j < |ks| && ks[j] == k;
    }
  }

  /** A key added at the end is the last occurrence of itself and of no
      other key. */
  lemma LastIndexSnoc(ks: seq<string>, x: string, k: string)
    ensures LastIndex(ks + [x], k) == if k == x then |ks| else LastIndex(ks, k)
  {
    assert (ks + [x])[..|ks|] == ks;
  }

  // ---------------------------------------------------------------------
  // dedupe

  /** A recorded request. */
  datatype ApiCall = ApiCall(verb: string, url: string)

  /** `` `${x.method} ${x.url}` `` */
  function KeyOf(c: ApiCall): string
  {
    c.verb + " " + c.url
  }

  function Keys(items: seq<ApiCall>): (ks: seq<string>)
    ensures |ks| == |items|
  {
    seq(|items|, i requires 0 <= i < |items| => KeyOf(items[i]))
  }

  lemma KeysSnoc(items: seq<ApiCall>, x: ApiCall)
    ensures Keys(items + [x]) == Keys(items) + [KeyOf(x)]
  {
    assert forall i :: 0 <= i < |items| ==> (items + [x])[i] == items[i];
  }

  /** An entry of a `Map`. */
  datatype Entry = Entry(key: string, call: ApiCall)

  function EntryKeys(es: seq<Entry>): (ks: seq<string>)
    ensures |ks| == |es|
  {
    seq(|es|, i requires 0 <= i < |es| => es[i].key)
  }

  /** `Map.prototype.set`: a key already present keeps its place and takes
      the new value; a new key goes last. */
  function Put(es: seq<Entry>, k: string, v: ApiCall): seq<Entry>
  {
    var p := FirstIndex(EntryKeys(es), k);
    if p < |es| then es[p := Entry(k, v)] else es + [Entry(k, v)]
  }

  /** `new Map(items.map((x) => [key, x]))`: the entries set in turn. */
  function FromEntries(items: seq<ApiCall>): (es: seq<Entry>)
    ensures |es| <= |items|
  {
    if items == [] then []
    else Put(FromEntries(items[..|items| - 1]), KeyOf(items[|items| - 1]), items[|items| - 1])
  }

  /** `dedupe(items)`: the values of that map, in its order. */
  function Dedupe(items: seq<ApiCall>): (r: seq<ApiCall>)
    ensures |r| <= |items|
  {
    var es := FromEntries(items);
    seq(|es|, p requires 0 <= p < |es| => es[p].call)
  }

  /** The entries follow the first occurrences of their keys, each holds
      the last request with its key, and every key has an entry. */
  predicate Indexes(es: seq<Entry>, items: seq<ApiCall>)
  {
    && (forall p, q :: 0 <= p < q < |es| ==> FirstIndex(Keys(items), es[p].key) < FirstIndex(Keys(items), es[q].key))
    && (forall p :: 0 <= p < |es| ==>
          && FirstIndex(Keys(items), es[p].key) < |items|
          && 0 <= LastIndex(Keys(items), es[p].key)
          && es[p].call == items[LastIndex(Keys(items), es[p].key)])
    && (forall i :: 0 <= i < |items| ==> KeyOf(items[i]) in EntryKeys(es))
  }

  lemma {:induction false} FromEntriesIndexes(items: seq<ApiCall>)
    ensures Indexes(FromEntries(items), items)
  {
    if items != [] {
      var init := items[..|items| - 1];
      var x := items[|items| - 1];
      assert init + [x] == items;
      FromEntriesIndexes(init);
      var es := FromEntries(init);
      var p0 := FirstIndex(EntryKeys(es), KeyOf(x));
      if p0 < |es| {
        PutPresent(init, x, es, p0);
      } else {
        PutAbsent(init, x, es);
      }
    }
  }

  /** A request whose key has an entry replaces that entry's value. */
  lemma PutPresent(init: seq<ApiCall>, x: ApiCall, es: seq<Entry>, p0: nat)
    requires Indexes(es, init) && p0 < |es| && es[p0].key == KeyOf(x)
    ensures Indexes(es[p0 := Entry(KeyOf(x), x)], init + [x])
  {
    var items := init + [x];
    var k := KeyOf(x);
    var es' := es[p0 := Entry(k, x)];
    KeysSnoc(init, x);
    assert EntryKeys(es') == EntryKeys(es);
    forall p | 0 <= p < |es|
      ensures FirstIndex(Keys(items), es[p].key) == FirstIndex(Keys(init), es[p].key)
      ensures LastIndex(Keys(items), es[p].key) == if es[p].key == k then |init| else LastIndex(Keys(init), es[p].key)
    {
      assert Keys(init)[FirstIndex(Keys(init), es[p].key)] == es[p].key;
      FirstIndexSnoc(Keys(init), k, es[p].key);
      LastIndexSnoc(Keys(init), k, es[p].key);
    }
    forall p | 0 <= p < |es'|
      ensures 0 <= LastIndex(Keys(items), es'[p].key) && es'[p].call == items[LastIndex(Keys(items), es'[p].key)]
    {
      if p != p0 {
        assert FirstIndex(Keys(init), es[p].key) != FirstIndex(Keys(init), es[p0].key);
        assert items[LastIndex(Keys(init), es[p].key)] == init[LastIndex(Keys(init), es[p].key)];
      }
    }
    forall i | 0 <= i < |items| ensures KeyOf(items[i]) in EntryKeys(es') {
      if i < |init| {
        assert items[i] == init[i];
      } else {
        assert EntryKeys(es)[p0] == k;
      }
    }
  }

  /** With a new key, the keys already entered keep their first and last
      occurrences, and the new key occurs first and last at the end. */
  lemma AbsentIndexes(init: seq<ApiCall>, x: ApiCall, es: seq<Entry>)
    requires Indexes(es, init) && KeyOf(x) !in EntryKeys(es)
    ensures FirstIndex(Keys(init + [x]), KeyOf(x)) == |init| == LastIndex(Keys(init + [x]), KeyOf(x))
    ensures forall p :: 0 <= p < |es| ==>
      FirstIndex(Keys(init + [x]), es[p].key) == FirstIndex(Keys(init), es[p].key) < |init|
      && LastIndex(Keys(init + [x]), es[p].key) == LastIndex(Keys(init), es[p].key)
  {
    var k := KeyOf(x);
    KeysSnoc(init, x);
    forall i | 0 <= i < |init| ensures Keys(init)[i] != k {
      assert KeyOf(init[i]) in EntryKeys(es);
    }
    FirstIndexSnoc(Keys(init), k, k);
    LastIndexSnoc(Keys(init), k, k);
    forall p | 0 <= p < |es|
      ensures FirstIndex(Keys(init + [x]), es[p].key) == FirstIndex(Keys(init), es[p].key) < |init|
      ensures LastIndex(Keys(init + [x]), es[p].key) == LastIndex(Keys(init), es[p].key)
    {
      assert EntryKeys(es)[p] == es[p].key;
      assert Keys(init)[FirstIndex(Keys(init), es[p].key)] == es[p].key;
      FirstIndexSnoc(Keys(init), k, es[p].key);
      LastIndexSnoc(Keys(init), k, es[p].key);
    }
  }

  /** A request with a new key adds an entry at the end. */
  lemma PutAbsent(init: seq<ApiCall>, x: ApiCall, es: seq<Entry>)
    requires Indexes(es, init) && KeyOf(x) !in EntryKeys(es)
    ensures Indexes(es + [Entry(KeyOf(x), x)], init + [x])
  {
    var items := init + [x];
    var k := KeyOf(x);
    var es' := es + [Entry(k, x)];
    AbsentIndexes(init, x, es);
    AbsentCalls(init, x, es);
    forall p, q | 0 <= p < q < |es'|
      ensures FirstIndex(Keys(items), es'[p].key) < FirstIndex(Keys(items), es'[q].key)
    {
      assert es'[p] == es[p];
      if q < |es| {
        assert es'[q] == es[q];
      }
    }
    assert EntryKeys(es') == EntryKeys(es) + [k];
    forall i | 0 <= i < |items| ensures KeyOf(items[i]) in EntryKeys(es') {
      if i < |init| {
        assert items[i] == init[i];
      }
    }
  }

  /** With a new key, every entry, old or new, holds the last request with
      its key. */
  lemma AbsentCalls(init: seq<ApiCall>, x: ApiCall, es: seq<Entry>)
    requires Indexes(es, init) && KeyOf(x) !in EntryKeys(es)
    ensures forall p :: 0 <= p < |es| + 1 ==>
      var e := (es + [Entry(KeyOf(x), x)])[p];
      0 <= LastIndex(Keys(init + [x]), e.key) && e.call == (init + [x])[LastIndex(Keys(init + [x]), e.key)]
  {
    var items := init + [x];
    var es' := es + [Entry(KeyOf(x), x)];
    AbsentIndexes(init, x, es);
    forall p | 0 <= p < |es'|
      ensures 0 <= LastIndex(Keys(items), es'[p].key) && es'[p].call == items[LastIndex(Keys(items), es'[p].key)]
    {
      if p < |es| {
        assert es'[p] == es[p];
        assert items[LastIndex(Keys(init), es[p].key)] == init[LastIndex(Keys(init), es[p].key)];
      }
    }
  }

  /** `dedupe` keeps one request per "method url" key: the last one with
      that key, placed where the key first occurred; no key is lost and
      the result is no longer than the input. */
  lemma DedupeSpec(items: seq<ApiCall>)
    ensures |Dedupe(items)| <= |items|
    ensures forall p, q :: 0 <= p < q < |Dedupe(items)| ==>
      FirstIndex(Keys(items), KeyOf(Dedupe(items)[p])) < FirstIndex(Keys(items), KeyOf(Dedupe(items)[q]))
    ensures forall p :: 0 <= p < |Dedupe(items)| ==>
      0 <= LastIndex(Keys(items), KeyOf(Dedupe(items)[p]))
      && Dedupe(items)[p] == items[LastIndex(Keys(items), KeyOf(Dedupe(items)[p]))]
    ensures forall i :: 0 <= i < |items| ==> KeyOf(items[i]) in Keys(Dedupe(items))
  {
    var es := FromEntries(items);
    var out := Dedupe(items);
    FromEntriesIndexes(items);
    forall p | 0 <= p < |es| ensures KeyOf(out[p]) == es[p].key {
      assert Keys(items)[LastIndex(Keys(items), es[p].key)] == es[p].key;
    }
    assert Keys(out) == EntryKeys(es);
  }

  // ---------------------------------------------------------------------
  // The listing links of the page

  /** An `a[href]` element: its `href` attribute, the resolved `href`
      property, the text of the card around it (`None` when it has neither
      an enclosing article, li or div nor a parent) and its own text. */
  datatype Anchor = Anchor(hrefAttr: Option<string>, href: string, cardText: Option<string>, ownText: string)

  /** An extracted listing. */
  datatype Listing = Listing(url: string, text: string)

  /** `a.getAttribute("href") || ""` */
  function HrefAttr(a: Anchor): string
  {
    if a.hrefAttr.Some? then a.hrefAttr.value else []
  }

  /** The test that keeps a link as a likely listing. */
  predicate LooksLikeListing(a: Anchor)
  {
    var h := HrefAttr(a);
    Contains(h, "/listing") || Contains(h, "/property") || Contains(h, "/details")
    || Contains(h, "/mls") || Contains(h, "ListingId=") || Contains(h, "listingId=")
  }

  /** `anchors.filter(...)` */
  function Likely(anchors: seq<Anchor>): (r: seq<Anchor>)
    ensures |r| <= |anchors|
  {
    if anchors == [] then []
    else (if LooksLikeListing(anchors[0]) then [anchors[0]] else []) + Likely(anchors[1..])
  }

  /** The likely links are exactly the links whose href attribute holds
      one of the markers. */
  lemma {:induction false} LikelyMembers(anchors: seq<Anchor>)
    ensures forall a :: a in Likely(anchors) <==> a in anchors && LooksLikeListing(a)
  {
    if anchors != [] {
      LikelyMembers(anchors[1..]);
      assert anchors == [anchors[0]] + anchors[1..];
    }
  }

  /** `(card?.textContent || a.textContent || "")` */
  function CardText(a: Anchor): string
  {
    if a.cardText.Some? && a.cardText.value != [] then a.cardText.value
    else if a.ownText != [] then a.ownText
    else []
  }

  function ListingOf(a: Anchor): Listing
  {
    Listing(a.href, CleanText(CardText(a)))
  }

  function Urls(out: seq<Listing>): (us: seq<string>)
    ensures |us| == |out|
  {
    seq(|out|, i requires 0 <= i < |out| => out[i].url)
  }

  function Hrefs(likely: seq<Anchor>): (hs: seq<string>)
    ensures |hs| == |likely|
  {
    seq(|likely|, i requires 0 <= i < |likely| => likely[i].href)
  }

  lemma HrefsSnoc(likely: seq<Anchor>, a: Anchor)
    ensures Hrefs(likely + [a]) == Hrefs(likely) + [a.href]
  {
    assert forall i :: 0 <= i < |likely| ==> (likely + [a])[i] == likely[i];
  }

  /** What the loop has output after the links `likely`: each link adds
      its listing unless its URL is empty or already output. */
  function Extracted(likely: seq<Anchor>): (r: seq<Listing>)
    ensures |r| <= |likely|
  {
    if likely == [] then []
    else
      var out := Extracted(likely[..|likely| - 1]);
      var a := likely[|likely| - 1];
      if a.href == [] || a.href in Urls(out) then out else out + [ListingOf(a)]
  }

  /** The loop of the page script over the likely links. */
  method ExtractListings(likely: seq<Anchor>) returns (out: seq<Listing>)
    ensures out == Extracted(likely)
  {
    var seen: set<string> := {};
    out := [];
    for i := 0 to |likely|
      invariant out == Extracted(likely[..i])
      invariant forall u :: u in seen <==> u in Urls(out)
    {
      assert likely[..i + 1][..i] == likely[..i];
      var a := likely[i];
      var href := a.href;
      if href == [] || href in seen {
        continue;
      }
      seen := seen + {href};
      assert Urls(out + [ListingOf(a)]) == Urls(out) + [href];
      out := out + [ListingOf(a)];
    }
    assert likely[..|likely|] == likely;
  }

  /** Every listing has a URL. */
  predicate NonEmptyUrls(out: seq<Listing>)
  {
    forall p :: 0 <= p < |out| ==> out[p].url != []
  }

  /** The listings come in the order their URLs first occur on the page,
      so no URL comes twice. */
  predicate InFirstOrder(out: seq<Listing>, likely: seq<Anchor>)
  {
    forall p, q :: 0 <= p < q < |out| ==> FirstIndex(Hrefs(likely), out[p].url) < FirstIndex(Hrefs(likely), out[q].url)
  }

  /** Each listing is made from the first link with its URL. */
  predicate FromFirstLink(out: seq<Listing>, likely: seq<Anchor>)
  {
    forall p :: 0 <= p < |out| ==>
      FirstIndex(Hrefs(likely), out[p].url) < |likely|
      && out[p] == ListingOf(likely[FirstIndex(Hrefs(likely), out[p].url)])
  }

  /** Every link with a URL is represented. */
  predicate Complete(out: seq<Listing>, likely: seq<Anchor>)
  {
    forall i :: 0 <= i < |likely| && likely[i].href != [] ==> likely[i].href in Urls(out)
  }

  lemma {:induction false} ExtractedSpec(likely: seq<Anchor>)
    ensures NonEmptyUrls(Extracted(likely)) && InFirstOrder(Extracted(likely), likely)
    ensures FromFirstLink(Extracted(likely), likely) && Complete(Extracted(likely), likely)
  {
    if likely != [] {
      var init := likely[..|likely| - 1];
      var a := likely[|likely| - 1];
      assert init + [a] == likely;
      ExtractedSpec(init);
      var out := Extracted(init);
      HrefsSnoc(init, a);
      OldUrlsKeepFirst(init, a, out);
      if a.href == [] || a.href in Urls(out) {
        SkipKeeps(init, a, out);
      } else {
        AppendKeeps(init, a, out);
      }
    }
  }

  /** The URLs already output keep their first occurrence when a link is
      added. */
  lemma OldUrlsKeepFirst(init: seq<Anchor>, a: Anchor, out: seq<Listing>)
    requires FromFirstLink(out, init)
    ensures forall p :: 0 <= p < |out| ==> FirstIndex(Hrefs(init + [a]), out[p].url) == FirstIndex(Hrefs(init), out[p].url)
  {
    HrefsSnoc(init, a);
    forall p | 0 <= p < |out|
      ensures FirstIndex(Hrefs(init + [a]), out[p].url) == FirstIndex(Hrefs(init), out[p].url)
    {
      assert Hrefs(init)[FirstIndex(Hrefs(init), out[p].url)] == out[p].url;
      FirstIndexSnoc(Hrefs(init), a.href, out[p].url);
    }
  }

  /** A link without a new URL leaves the output as it is. */
  lemma SkipKeeps(init: seq<Anchor>, a: Anchor, out: seq<Listing>)
    requires InFirstOrder(out, init) && FromFirstLink(out, init) && Complete(out, init)
    requires a.href == [] || a.href in Urls(out)
    requires forall p :: 0 <= p < |out| ==> FirstIndex(Hrefs(init + [a]), out[p].url) == FirstIndex(Hrefs(init), out[p].url)
    ensures InFirstOrder(out, init + [a]) && FromFirstLink(out, init + [a]) && Complete(out, init + [a])
  {
    var likely := init + [a];
    forall p | 0 <= p < |out|
      ensures out[p] == ListingOf(likely[FirstIndex(Hrefs(likely), out[p].url)])
    {
      assert likely[FirstIndex(Hrefs(init), out[p].url)] == init[FirstIndex(Hrefs(init), out[p].url)];
    }
    forall i | 0 <= i < |likely| && likely[i].href != [] ensures likely[i].href in Urls(out) {
      if i < |init| {
        assert likely[i] == init[i];
      }
    }
  }

  /** A new URL does not occur among the links before it, so its first
      occurrence is the new link. */
  lemma NewUrlFirstHere(init: seq<Anchor>, a: Anchor, out: seq<Listing>)
    requires Complete(out, init) && a.href != [] && a.href !in Urls(out)
    ensures FirstIndex(Hrefs(init + [a]), a.href) == |init|
  {
    forall i | 0 <= i < |init| ensures Hrefs(init)[i] != a.href {
      if init[i].href != [] {
        assert init[i].href in Urls(out);
      }
    }
    HrefsSnoc(init, a);
    FirstIndexSnoc(Hrefs(init), a.href, a.href);
  }

  lemma AppendFromFirstLink(init: seq<Anchor>, a: Anchor, out: seq<Listing>)
    requires FromFirstLink(out, init) && FirstIndex(Hrefs(init + [a]), a.href) == |init|
    requires forall p :: 0 <= p < |out| ==> FirstIndex(Hrefs(init + [a]), out[p].url) == FirstIndex(Hrefs(init), out[p].url)
    ensures FromFirstLink(out + [ListingOf(a)], init + [a])
  {
    var likely := init + [a];
    var out' := out + [ListingOf(a)];
    forall p | 0 <= p < |out'|
      ensures FirstIndex(Hrefs(likely), out'[p].url) < |likely|
      ensures out'[p] == ListingOf(likely[FirstIndex(Hrefs(likely), out'[p].url)])
    {
      if p < |out| {
        assert out'[p] == out[p];
        assert likely[FirstIndex(Hrefs(init), out[p].url)] == init[FirstIndex(Hrefs(init), out[p].url)];
      }
    }
  }

  lemma AppendInFirstOrder(init: seq<Anchor>, a: Anchor, out: seq<Listing>, l: Listing)
    requires InFirstOrder(out, init) && FromFirstLink(out, init) && FirstIndex(Hrefs(init + [a]), a.href) == |init|
    requires forall p :: 0 <= p < |out| ==> FirstIndex(Hrefs(init + [a]), out[p].url) == FirstIndex(Hrefs(init), out[p].url)
    requires l.url == a.href
    ensures InFirstOrder(out + [l], init + [a])
  {
    var likely := init + [a];
    var out' := out + [l];
    forall p, q | 0 <= p < q < |out'|
      ensures FirstIndex(Hrefs(likely), out'[p].url) < FirstIndex(Hrefs(likely), out'[q].url)
    {
      assert out'[p] == out[p];
      if q < |out| {
        assert out'[q] == out[q];
      }
    }
  }

  lemma AppendComplete(init: seq<Anchor>, a: Anchor, out: seq<Listing>, l: Listing)
    requires Complete(out, init) && l.url == a.href
    ensures Complete(out + [l], init + [a])
  {
    var likely := init + [a];
    var out' := out + [l];
    assert Urls(out') == Urls(out) + [a.href];
    forall i | 0 <= i < |likely| && likely[i].href != [] ensures likely[i].href in Urls(out') {
      if i < |init| {
        assert likely[i] == init[i];
      }
    }
  }

  /** A link with a new URL adds its listing at the end. */
  lemma AppendKeeps(init: seq<Anchor>, a: Anchor, out: seq<Listing>)
    requires NonEmptyUrls(out) && InFirstOrder(out, init) && FromFirstLink(out, init) && Complete(out, init)
    requires a.href != [] && a.href !in Urls(out)
    requires forall p :: 0 <= p < |out| ==> FirstIndex(Hrefs(init + [a]), out[p].url) == FirstIndex(Hrefs(init), out[p].url)
    ensures NonEmptyUrls(out + [ListingOf(a)]) && InFirstOrder(out + [ListingOf(a)], init + [a])
    ensures FromFirstLink(out + [ListingOf(a)], init + [a]) && Complete(out + [ListingOf(a)], init + [a])
  {
    NewUrlFirstHere(init, a, out);
    AppendFromFirstLink(init, a, out);
    AppendInFirstOrder(init, a, out, ListingOf(a));
    AppendComplete(init, a, out, ListingOf(a));
    AppendNonEmpty(out, ListingOf(a));
  }

  lemma AppendNonEmpty(out: seq<Listing>, l: Listing)
    requires NonEmptyUrls(out) && l.url != []
    ensures NonEmptyUrls(out + [l])
  {
    assert forall p :: 0 <= p < |out| ==> (out + [l])[p] == out[p];
  }

  /** The extracted texts are already clean. */
  lemma ExtractedTextsClean(likely: seq<Anchor>)
    ensures forall p :: 0 <= p < |Extracted(likely)| ==> CleanText(Extracted(likely)[p].text) == Extracted(likely)[p].text
  {
    var out := Extracted(likely);
    ExtractedSpec(likely);
    forall p | 0 <= p < |out|
      ensures CleanText(out[p].text) == out[p].text
    {
      CleanTextIdempotent(CardText(likely[FirstIndex(Hrefs(likely), out[p].url)]));
    }
  }

  // ---------------------------------------------------------------------
  // The response

  /** The most characters of a listing's text in the response. */
  const MAX_TEXT: nat := 500

  /** `{ url: x.url, text: clean(x.text).slice(0, 500) }` */
  function Shorten(l: Listing): (r: Listing)
    ensures r.url == l.url && |r.text| <= MAX_TEXT
    ensures |r.text| <= |CleanText(l.text)| && r.text == CleanText(l.text)[..|r.text|]
    ensures |CleanText(l.text)| > MAX_TEXT ==> |r.text| == MAX_TEXT
    ensures |CleanText(l.text)| <= MAX_TEXT ==> r.text == CleanText(l.text)
  {
    var t := CleanText(l.text);
    Listing(l.url, if |t| <= MAX_TEXT then t else t[..MAX_TEXT])
  }

  /** `listings.map(...)` */
  function ShortenAll(ls: seq<Listing>): (r: seq<Listing>)
    ensures |r| == |ls|
  {
    seq(|ls|, i requires 0 <= i < |ls| => Shorten(ls[i]))
  }

  /** `s` keeps the URL of `l` and the first 500 characters of its text,
      all of them when there are no more. */
  predicate ShortenedFrom(s: Listing, l: Listing)
  {
    && s.url == l.url
    && |s.text| <= MAX_TEXT && |s.text| <= |l.text|
    && s.text == l.text[..|s.text|]
    && (|l.text| <= MAX_TEXT ==> s.text == l.text)
    && (|l.text| > MAX_TEXT ==> |s.text| == MAX_TEXT)
  }

  /** Every listing of the response keeps its URL and carries the first 500
      characters of the cleaned card text, or all of it when it is shorter. */
  lemma ShortenedListings(likely: seq<Anchor>)
    ensures forall p :: 0 <= p < |Extracted(likely)| ==>
      ShortenedFrom(ShortenAll(Extracted(likely))[p], Extracted(likely)[p])
  {
    ExtractedTextsClean(likely);
  }
}
