/**
 * Building the stop catalogue: every page of the stop listing of network
 * "1" then network "2" is requested until a page comes back empty or short,
 * each page's JSON is normalised to an array, the elements are decoded as
 * stops, and stops are de-duplicated by gtfs code (upper-cased), else by id,
 * first seen wins. The catalogue is cached as the JSON text of the list.
 */
module Catalog {
  import opened Wrappers
  import opened Text
  import opened JsonModel
  import opened StopDto
  import opened Fetcher

  const BaseUrl: string := "https://opendata.tram.cat/api/v1"
  const PageSize: nat := 100
  const NetworkIds: seq<string> := ["1", "2"]

  /** Which listing is paged: all stops, or the stops of one line. */
  datatype Listing = AllStops | LineStops(lineId: string)

  function PageUrl(listing: Listing, networkId: string, page: nat): string
  {
    var query := "?page=" + IntText(page) + "&pageSize=" + IntText(PageSize) + "&networkId=" + networkId;
    match listing
    case AllStops => BaseUrl + "/stops" + query
    case LineStops(lineId) => BaseUrl + "/lines/" + lineId + "/stops" + query
  }

  /** The cache key of a listing's catalogue. */
  function CatalogKey(listing: Listing): string
  {
    match listing
    case AllStops => "stops:all"
    case LineStops(lineId) => "stops:line:" + lineId
  }

  // ---------------------------------------------------------------------------
  // normalizeToArray

  /** The container keys tried, in order, for an object that wraps the array. */
  const ContainerKeys: seq<string> := ["data", "stops", "items", "results", "features"]

  predicate HoldsArray(ms: seq<Member>, k: string)
  {
    Get(ms, k).Some? && Get(ms, k).value.JArr?
  }

  /** The array under the first container key that holds one. */
  function ContainerArray(ms: seq<Member>, keys: seq<string>): (r: Option<seq<Json>>)
    ensures r.None? <==> forall i :: 0 <= i < |keys| ==> !HoldsArray(ms, keys[i])
    ensures forall i :: FirstWith(keys, i, k => HoldsArray(ms, k)) ==> r == Some(Get(ms, keys[i]).value.items)
  {
    if keys == [] then None
    else if HoldsArray(ms, keys[0]) then Some(Get(ms, keys[0]).value.items)
    else
      var r := ContainerArray(ms, keys[1..]);
      assert forall i :: 1 <= i < |keys| ==> keys[1..][i - 1] == keys[i];
      r
  }

  /** The array held by the first member, in object order, whose value is an array. */
  function FirstArrayMember(ms: seq<Member>): (r: Option<seq<Json>>)
    ensures r.None? <==> forall i :: 0 <= i < |ms| ==> !ms[i].value.JArr?
    ensures forall i :: 0 <= i < |ms| && ms[i].value.JArr? && (forall j :: 0 <= j < i ==> !ms[j].value.JArr?) ==>
      r == Some(ms[i].value.items)
  {
    if ms == [] then None
    else if ms[0].value.JArr? then Some(ms[0].value.items)
    else
      var r := FirstArrayMember(ms[1..]);
      assert forall i :: 1 <= i < |ms| ==> ms[1..][i - 1] == ms[i];
      r
  }

  /**
   * `normalizeToArray(root)`: null gives no elements; an array gives its
   * elements; an object gives the array under its first container key, else
   * its first array-valued member, else itself alone; a primitive gives itself alone.
   */
  function NormalizeToArray(root: Json): (r: seq<Json>)
    ensures root == JNull ==> r == []
    ensures root.JArr? ==> r == root.items
    ensures IsPrimitive(root) ==> r == [root]
  {
    match root
    case JNull => []
    case JArr(items) => items
    case JObj(ms) =>
      if ContainerArray(ms, ContainerKeys).Some? then ContainerArray(ms, ContainerKeys).value
      else if FirstArrayMember(ms).Some? then FirstArrayMember(ms).value
      else [root]
    case _ => [root]
  }

  /** A container key wins over any array member that comes earlier in the object. */
  lemma ContainerKeyPreferred(ms: seq<Member>, i: nat)
    requires FirstWith(ContainerKeys, i, k => HoldsArray(ms, k))
    ensures NormalizeToArray(JObj(ms)) == Get(ms, ContainerKeys[i]).value.items
  {
  }

  /** `{"stops": [...], "data": [...]}` reads `data`: the key order of the preference list decides, not the object's. */
  lemma DataBeforeStops(a: seq<Json>, b: seq<Json>)
    ensures NormalizeToArray(JObj([Member("stops", JArr(a)), Member("data", JArr(b))])) == b
  {
    var ms := [Member("stops", JArr(a)), Member("data", JArr(b))];
    assert HoldsArray(ms, "data");
    assert FirstWith(ContainerKeys, 0, k => HoldsArray(ms, k));
  }

  /** A value found under a key is the value of some member with that key. */
  lemma {:induction false} GetFindsMember(ms: seq<Member>, k: string)
    requires Get(ms, k).Some?
    ensures exists i :: 0 <= i < |ms| && ms[i].key == k && ms[i].value == Get(ms, k).value
  {
    if ms[0].key != k {
      GetFindsMember(ms[1..], k);
      var i :| 0 <= i < |ms[1..]| && ms[1..][i].key == k && ms[1..][i].value == Get(ms[1..], k).value;
      assert ms[i + 1] == ms[1..][i];
    } else {
      assert ms[0].key == k;
    }
  }

  /** An object none of whose members is an array is taken as the single element. */
  lemma ObjectWithoutArrays(ms: seq<Member>)
    requires forall i :: 0 <= i < |ms| ==> !ms[i].value.JArr?
    ensures NormalizeToArray(JObj(ms)) == [JObj(ms)]
  {
    forall j | 0 <= j < |ContainerKeys|
      ensures !HoldsArray(ms, ContainerKeys[j])
    {
      if Get(ms, ContainerKeys[j]).Some? {
        GetFindsMember(ms, ContainerKeys[j]);
      }
    }
  }

  /** Without a container key, the first array-valued member, in object order, is taken. */
  lemma FirstArrayMemberFallback(ms: seq<Member>, i: nat)
    requires forall j :: 0 <= j < |ContainerKeys| ==> !HoldsArray(ms, ContainerKeys[j])
    requires i < |ms| && ms[i].value.JArr? && forall j :: 0 <= j < i ==> !ms[j].value.JArr?
    ensures NormalizeToArray(JObj(ms)) == ms[i].value.items
  {
  }

  // ---------------------------------------------------------------------------
  // Pagination

  /** One page request: the failure, or the page's elements. */
  function FetchPage(up: Upstream, parse: Parser, url: string): Result<seq<Json>, Failure>
  {
    match Accepted(Execute(up, url).outcome)
    case Fail(f) => Fail(f)
    case Ok(body) =>
      match parse(body.text)
      case None => Fail(MalformedJson)
      case Some(root) => Ok(NormalizeToArray(root))
  }

  /** What each page number of a listing gives. */
  type PageSource = nat -> Result<seq<Json>, Failure>

  /** The pages of a listing of one network, as the upstream serves them. */
  function Pages(up: Upstream, parse: Parser, listing: Listing, networkId: string): PageSource
  {
    (page: nat) => FetchPage(up, parse, PageUrl(listing, networkId, page))
  }

  /** Page `page` ends the paging: it failed, or it is empty or short. */
  predicate LastPage(pages: PageSource, page: nat)
  {
    pages(page).Fail? || |pages(page).value| < PageSize
  }

  /** Some page from `page` to `bound` ends the paging: the upstream does not page forever. */
  predicate EndsBy(pages: PageSource, page: nat, bound: nat)
  {
    exists p :: page <= p <= bound && LastPage(pages, p)
  }

  /** The elements gathered for one network, or the failure, and the number of page requests made. */
  datatype Paged = Paged(outcome: Result<seq<Json>, Failure>, requests: nat)

  /** `acc` in front of the elements of an outcome; a failure stays the failure. */
  function Prefixed(acc: seq<Json>, o: Result<seq<Json>, Failure>): Result<seq<Json>, Failure>
  {
    if o.Ok? then Ok(acc + o.value) else o
  }

  /** The paging loop of one network, from page `page` on. */
  function PagesFrom(pages: PageSource, page: nat, bound: nat): (r: Paged)
    requires EndsBy(pages, page, bound)
    ensures r.requests >= 1
    decreases bound - page
  {
    match pages(page)
    case Fail(f) => Paged(Fail(f), 1)
    case Ok(items) =>
      if |items| == 0 then Paged(Ok([]), 1)
      else if |items| < PageSize then Paged(Ok(items), 1)
      else
        assert !LastPage(pages, page);
        var rest := PagesFrom(pages, page + 1, bound);
        Paged(Prefixed(items, rest.outcome), rest.requests + 1)
  }

  /** The number of the last page a run requests. */
  function LastRequested(pages: PageSource, page: nat, bound: nat): nat
    requires EndsBy(pages, page, bound)
  {
    page + PagesFrom(pages, page, bound).requests - 1
  }

  /** Every page a run requests before its last one came back full: at least a page size of elements. */
  lemma {:induction false} PagesBeforeLastAreFull(pages: PageSource, page: nat, bound: nat)
    requires EndsBy(pages, page, bound)
    ensures forall j :: page <= j < LastRequested(pages, page, bound) ==>
      pages(j).Ok? && |pages(j).value| >= PageSize
    decreases bound - page
  {
    if pages(page).Ok? && |pages(page).value| >= PageSize {
      assert !LastPage(pages, page);
      PagesBeforeLastAreFull(pages, page + 1, bound);
      assert LastRequested(pages, page, bound) == LastRequested(pages, page + 1, bound);
    }
  }

  /** The last page a run requests ends it, and its failure, if any, is the run's. */
  lemma {:induction false} LastPageEndsRun(pages: PageSource, page: nat, bound: nat)
    requires EndsBy(pages, page, bound)
    ensures var last := LastRequested(pages, page, bound);
      var o := PagesFrom(pages, page, bound).outcome;
      LastPage(pages, last) &&
      (o.Fail? <==> pages(last).Fail?) &&
      (o.Fail? ==> o == pages(last))
    decreases bound - page
  {
    if pages(page).Ok? && |pages(page).value| >= PageSize {
      assert !LastPage(pages, page);
      LastPageEndsRun(pages, page + 1, bound);
      assert LastRequested(pages, page, bound) == LastRequested(pages, page + 1, bound);
    }
  }

  /** The upstream honours the page size it is asked for: no page holds more. */
  ghost predicate HonoursPageSize(pages: PageSource)
  {
    forall p :: pages(p).Ok? ==> |pages(p).value| <= PageSize
  }

  /**
   * A successful run holds at least a page size of elements per request but
   * the last, plus the last page's; exactly that when the upstream honours
   * the page size.
   */
  lemma {:induction false} PagedCount(pages: PageSource, page: nat, bound: nat)
    requires EndsBy(pages, page, bound)
    ensures var p := PagesFrom(pages, page, bound);
      var last := pages(LastRequested(pages, page, bound));
      p.outcome.Ok? ==>
        last.Ok? &&
        |p.outcome.value| >= PageSize * (p.requests - 1) + |last.value| &&
        (HonoursPageSize(pages) ==> |p.outcome.value| == PageSize * (p.requests - 1) + |last.value|)
    decreases bound - page
  {
    if pages(page).Ok? && |pages(page).value| >= PageSize {
      assert !LastPage(pages, page);
      PagedCount(pages, page + 1, bound);
      assert LastRequested(pages, page, bound) == LastRequested(pages, page + 1, bound);
    }
  }

  /**
   * Against an upstream that honours the page size, a successful run of a
   * network makes one request per full page plus one: `total / 100 + 1`
   * requests for `total` elements, so a multiple of 100 costs a final empty page.
   */
  lemma RequestsPerNetwork(pages: PageSource, bound: nat)
    requires EndsBy(pages, 0, bound) && HonoursPageSize(pages)
    ensures var p := PagesFrom(pages, 0, bound);
      p.outcome.Ok? ==> p.requests == |p.outcome.value| / PageSize + 1
  {
    LastPageEndsRun(pages, 0, bound);
    PagedCount(pages, 0, bound);
    var p := PagesFrom(pages, 0, bound);
    if p.outcome.Ok? {
      var n := |pages(LastRequested(pages, 0, bound)).value|;
      assert 0 <= n < PageSize;
      assert |p.outcome.value| == PageSize * (p.requests - 1) + n;
    }
  }

  /** `EndsBy` for every network, with the bounds given per network. */
  predicate AllEnd(up: Upstream, parse: Parser, listing: Listing, bounds: seq<nat>)
  {
    |bounds| == |NetworkIds| &&
    forall i :: 0 <= i < |NetworkIds| ==> EndsBy(Pages(up, parse, listing, NetworkIds[i]), 0, bounds[i])
  }

  /** The networks from `i` on, one after another; the first failure ends the run. */
  function NetworksFrom(up: Upstream, parse: Parser, listing: Listing, bounds: seq<nat>, i: nat): Result<seq<Json>, Failure>
    requires AllEnd(up, parse, listing, bounds) && i <= |NetworkIds|
    decreases |NetworkIds| - i
  {
    if i == |NetworkIds| then Ok([])
    else
      var p := PagesFrom(Pages(up, parse, listing, NetworkIds[i]), 0, bounds[i]);
      if p.outcome.Fail? then p.outcome
      else Prefixed(p.outcome.value, NetworksFrom(up, parse, listing, bounds, i + 1))
  }

  /** The combined elements of networks "1" then "2". */
  function Combined(up: Upstream, parse: Parser, listing: Listing, bounds: seq<nat>): Result<seq<Json>, Failure>
    requires AllEnd(up, parse, listing, bounds)
  {
    NetworksFrom(up, parse, listing, bounds, 0)
  }

  /** The combined list is network "1"'s elements followed by network "2"'s; the first failure is the outcome. */
  lemma CombinedOrder(up: Upstream, parse: Parser, listing: Listing, bounds: seq<nat>)
    requires AllEnd(up, parse, listing, bounds)
    ensures var p1 := PagesFrom(Pages(up, parse, listing, "1"), 0, bounds[0]).outcome;
      var p2 := PagesFrom(Pages(up, parse, listing, "2"), 0, bounds[1]).outcome;
      Combined(up, parse, listing, bounds) ==
        if p1.Fail? then p1
        else if p2.Fail? then p2
        else Ok(p1.value + p2.value)
  {
    var p2 := PagesFrom(Pages(up, parse, listing, "2"), 0, bounds[1]).outcome;
    if p2.Ok? {
      assert p2.value + [] == p2.value;
    }
  }

  /** One turn's request: execute, check the response, parse the body and normalise it. */
  method RequestPage(up: Upstream, parse: Parser, url: string) returns (r: Result<seq<Json>, Failure>)
    ensures r == FetchPage(up, parse, url)
  {
    var x := ExecuteRequest(up, url);
    var body := Accepted(x.outcome);
    if body.Fail? {
      return Fail(body.error);
    }
    var root := parse(body.value.text);
    if root.None? {
      return Fail(MalformedJson);
    }
    return Ok(NormalizeToArray(root.value));
  }

  /** The paging loop of one network (the `while (true)` that bumps `page`). */
  method FetchNetwork(up: Upstream, parse: Parser, listing: Listing, networkId: string, ghost bound: nat)
    returns (r: Result<seq<Json>, Failure>)
    requires EndsBy(Pages(up, parse, listing, networkId), 0, bound)
    ensures r == PagesFrom(Pages(up, parse, listing, networkId), 0, bound).outcome
  {
    ghost var pages := Pages(up, parse, listing, networkId);
    ghost var whole := PagesFrom(pages, 0, bound).outcome;
    assert whole.Ok? ==> [] + whole.value == whole.value;
    var page: nat := 0;
    var acc: seq<Json> := [];
    while true
      invariant EndsBy(pages, page, bound)
      invariant whole == Prefixed(acc, PagesFrom(pages, page, bound).outcome)
      decreases bound - page
    {
      var fetched := RequestPage(up, parse, PageUrl(listing, networkId, page));
      assert pages(page) == fetched;
      if fetched.Fail? {
        return fetched;
      }
      var arr := fetched.value;
      if |arr| == 0 {
        assert acc + [] == acc;
        return Ok(acc);
      }
      var before := acc;
      acc := acc + arr;
      if |arr| < PageSize {
        return Ok(acc);
      }
      assert !LastPage(pages, page);
      ghost var rest := PagesFrom(pages, page + 1, bound).outcome;
      assert rest.Ok? ==> before + (arr + rest.value) == acc + rest.value;
      page := page + 1;
    }
  }

  /** The loop over the networks, appending each network's elements to `combined`. */
  method FetchCombined(up: Upstream, parse: Parser, listing: Listing, ghost bounds: seq<nat>)
    returns (r: Result<seq<Json>, Failure>)
    requires AllEnd(up, parse, listing, bounds)
    ensures r == Combined(up, parse, listing, bounds)
  {
    ghost var whole := Combined(up, parse, listing, bounds);
    assert whole.Ok? ==> [] + whole.value == whole.value;
    var combined: seq<Json> := [];
    for i := 0 to |NetworkIds|
      invariant whole == Prefixed(combined, NetworksFrom(up, parse, listing, bounds, i))
    {
      var items := FetchNetwork(up, parse, listing, NetworkIds[i], bounds[i]);
      if items.Fail? {
        return items;
      }
      ghost var rest := NetworksFrom(up, parse, listing, bounds, i + 1);
      assert rest.Ok? ==> combined + (items.value + rest.value) == (combined + items.value) + rest.value;
      combined := combined + items.value;
    }
    assert combined + [] == combined;
    return Ok(combined);
  }

  // ---------------------------------------------------------------------------
  // De-duplication

  /** The key a stop is de-duplicated under: a text, or a fresh key unique to its position. */
  datatype DedupKey = Named(text: string) | Surrogate(index: nat)

  /**
   * The key of the stop at position `index`: the upper-cased gtfs code when
   * it is not empty, else the id's decimal text when it is not zero, else a
   * fresh key. A null id is unboxed for the comparison with zero and throws.
   */
  function KeyOf(s: Stop, index: nat): Result<DedupKey, Failure>
  {
    if s.gtfsCode.Some? && s.gtfsCode.value != "" then Ok(Named(ToUpper(s.gtfsCode.value)))
    else if s.id.None? then Fail(NullReference)
    else if s.id.value != 0 then Ok(Named(IntText(s.id.value)))
    else Ok(Surrogate(index))
  }

  /** The elements decoded as stops: an entry is null exactly where the element is a JSON null. */
  function DecodeAll(elements: seq<Json>, parse: Parser): (refs: seq<StopRef>)
    ensures |refs| == |elements|
    ensures forall i :: 0 <= i < |elements| ==> refs[i] == FromJson(elements[i], parse)
    ensures forall i :: 0 <= i < |elements| ==> (refs[i].None? <==> elements[i] == JNull)
  {
    var refs := seq(|elements|, i requires 0 <= i < |elements| => FromJson(elements[i], parse));
    forall i | 0 <= i < |elements|
      ensures refs[i].None? <==> elements[i] == JNull
    {
      FromJsonNullOnlyForNull(elements[i], parse);
    }
    refs
  }

  /** The state of the de-duplication map: its keys and stops in insertion order, and where each came from. */
  datatype Uniq = Uniq(keys: seq<DedupKey>, stops: seq<Stop>, positions: seq<nat>)

  /** One turn of the loop: a null is skipped, a new key is put, a known key is left as it is. */
  function DedupStep(u: Uniq, ref: StopRef, i: nat): Result<Uniq, Failure>
  {
    if ref.None? then Ok(u)
    else match KeyOf(ref.value, i)
      case Fail(f) => Fail(f)
      case Ok(k) =>
        if k in u.keys then Ok(u)
        else Ok(Uniq(u.keys + [k], u.stops + [ref.value], u.positions + [i]))
  }

  /** The de-duplication loop over the first `n` decoded elements. */
  function DedupUpTo(refs: seq<StopRef>, n: nat): Result<Uniq, Failure>
    requires n <= |refs|
  {
    if n == 0 then Ok(Uniq([], [], []))
    else match DedupUpTo(refs, n - 1)
      case Fail(f) => Fail(f)
      case Ok(u) => DedupStep(u, refs[n - 1], n - 1)
  }

  function Dedup(refs: seq<StopRef>): Result<seq<Stop>, Failure>
  {
    match DedupUpTo(refs, |refs|)
    case Fail(f) => Fail(f)
    case Ok(u) => Ok(u.stops)
  }

  /** The key of position `q`, for a non-null stop there. */
  function KeyAt(refs: seq<StopRef>, q: nat): Result<DedupKey, Failure>
    requires q < |refs| && refs[q].Some?
  {
    KeyOf(refs[q].value, q)
  }

  /** The positions whose stop has no key: not null, no gtfs code, and a null id. */
  predicate Keyless(refs: seq<StopRef>, n: nat)
    requires n <= |refs|
  {
    exists q :: 0 <= q < n && refs[q].Some? && KeyAt(refs, q).Fail?
  }

  /** The kept stops come from increasing positions before `n`, each under its own key, and no key twice. */
  predicate Kept(refs: seq<StopRef>, n: nat, u: Uniq)
    requires n <= |refs|
  {
    |u.keys| == |u.stops| == |u.positions| &&
    (forall i, j :: 0 <= i < j < |u.keys| ==> u.keys[i] != u.keys[j]) &&
    (forall j :: 0 <= j < |u.positions| ==>
      u.positions[j] < n && refs[u.positions[j]] == Some(u.stops[j]) &&
      KeyAt(refs, u.positions[j]) == Ok(u.keys[j])) &&
    (forall i, j :: 0 <= i < j < |u.positions| ==> u.positions[i] < u.positions[j])
  }

  /** Every non-null stop before `n` has its key among the kept ones. */
  predicate Covers(refs: seq<StopRef>, n: nat, u: Uniq)
    requires n <= |refs|
  {
    forall q :: 0 <= q < n && refs[q].Some? ==> KeyAt(refs, q).Ok? && KeyAt(refs, q).value in u.keys
  }

  /** No stop before a kept one has its key: the kept one is the first of its key. */
  predicate Earliest(refs: seq<StopRef>, u: Uniq)
    requires |u.keys| == |u.positions|
    requires forall j :: 0 <= j < |u.positions| ==> u.positions[j] < |refs|
  {
    forall j, q :: 0 <= j < |u.positions| && 0 <= q < u.positions[j] && refs[q].Some? ==>
      KeyAt(refs, q) != Ok(u.keys[j])
  }

  /** De-duplication fails exactly when some non-null stop has neither a gtfs code nor an id, and then with the unboxing failure. */
  lemma {:induction false} DedupFailsOnKeyless(refs: seq<StopRef>, n: nat)
    requires n <= |refs|
    ensures DedupUpTo(refs, n).Fail? <==> Keyless(refs, n)
    ensures DedupUpTo(refs, n).Fail? ==> DedupUpTo(refs, n).error == NullReference
  {
    if n > 0 {
      DedupFailsOnKeyless(refs, n - 1);
      if Keyless(refs, n - 1) {
        var q :| 0 <= q < n - 1 && refs[q].Some? && KeyAt(refs, q).Fail?;
        assert 0 <= q < n && refs[q].Some? && KeyAt(refs, q).Fail?;
      } else if refs[n - 1].Some? && KeyAt(refs, n - 1).Fail? {
        assert Keyless(refs, n);
      } else {
        assert !Keyless(refs, n);
      }
    }
  }

  /** The kept stops are stops of the input, in input order, under distinct keys. */
  lemma {:induction false} DedupKept(refs: seq<StopRef>, n: nat)
    requires n <= |refs|
    ensures DedupUpTo(refs, n).Ok? ==> Kept(refs, n, DedupUpTo(refs, n).value)
  {
    if n > 0 {
      DedupKept(refs, n - 1);
    }
  }

  /** Every non-null stop's key is among the kept ones. */
  lemma {:induction false} DedupCovers(refs: seq<StopRef>, n: nat)
    requires n <= |refs|
    ensures DedupUpTo(refs, n).Ok? ==> Covers(refs, n, DedupUpTo(refs, n).value)
  {
    if n > 0 {
      DedupCovers(refs, n - 1);
    }
  }

  /** Each kept stop is the first of its key: the first seen wins. */
  lemma {:induction false} DedupEarliest(refs: seq<StopRef>, n: nat)
    requires n <= |refs|
    ensures DedupUpTo(refs, n).Ok? ==> Kept(refs, n, DedupUpTo(refs, n).value) && Earliest(refs, DedupUpTo(refs, n).value)
  {
    DedupKept(refs, n);
    if n > 0 {
      DedupEarliest(refs, n - 1);
      DedupCovers(refs, n - 1);
    }
  }

  /** Once the loop has failed it stays failed. */
  lemma {:induction false} DedupFailureSticks(refs: seq<StopRef>, i: nat, n: nat)
    requires i <= n <= |refs| && DedupUpTo(refs, i).Fail?
    ensures DedupUpTo(refs, n) == DedupUpTo(refs, i)
    decreases n
  {
    if n > i {
      DedupFailureSticks(refs, i, n - 1);
    }
  }

  /** Two entries whose gtfs codes differ only in case leave one stop: the first. */
  lemma CaseVariantsCollapse(a: Stop, b: Stop)
    requires a.gtfsCode.Some? && a.gtfsCode.value != "" && b.gtfsCode.Some?
    requires EqualsIgnoreCase(a.gtfsCode.value, b.gtfsCode.value)
    ensures Dedup([Some(a), Some(b)]) == Ok([a])
  {
    EqualsIgnoreCaseIffSameUpper(a.gtfsCode.value, b.gtfsCode.value);
    var refs := [Some(a), Some(b)];
    var k := Named(ToUpper(a.gtfsCode.value));
    assert |ToUpper(b.gtfsCode.value)| == |b.gtfsCode.value|;
    assert KeyOf(b, 1) == Ok(k);
    assert KeyOf(a, 0) == Ok(k);
    var empty := Uniq([], [], []);
    assert DedupStep(empty, Some(a), 0) == Ok(Uniq(empty.keys + [k], empty.stops + [a], empty.positions + [0]));
    assert DedupUpTo(refs, 0) == Ok(empty);
    assert DedupUpTo(refs, 1) == DedupStep(empty, refs[0], 0);
    assert [] + [0] == [0] && [] + [a] == [a] && [] + [k] == [k];
    assert DedupUpTo(refs, 1) == Ok(Uniq([k], [a], [0]));
    assert DedupUpTo(refs, 2) == Ok(Uniq([k], [a], [0]));
  }

  /** The de-duplication loop that fills the insertion-ordered map of first-seen stops. */
  method Deduplicate(elements: seq<Json>, parse: Parser) returns (r: Result<seq<Stop>, Failure>)
    ensures r == Dedup(DecodeAll(elements, parse))
  {
    ghost var refs := DecodeAll(elements, parse);
    var keys: seq<DedupKey> := [];
    var stops: seq<Stop> := [];
    ghost var positions: seq<nat> := [];
    for i := 0 to |elements|
      invariant DedupUpTo(refs, i) == Ok(Uniq(keys, stops, positions))
    {
      var s := FromJson(elements[i], parse);
      assert DedupUpTo(refs, i + 1) == DedupStep(Uniq(keys, stops, positions), s, i);
      if s.None? {
        continue;
      }
      var key := KeyOf(s.value, i);
      if key.Fail? {
        DedupFailureSticks(refs, i + 1, |refs|);
        return Fail(key.error);
      }
      if key.value !in keys {
        keys := keys + [key.value];
        stops := stops + [s.value];
        positions := positions + [i];
      }
    }
    return Ok(stops);
  }

  // ---------------------------------------------------------------------------
  // The cached form of a catalogue

  /** `gson.toJson(stops)`: the JSON text of the list of stops. */
  function CatalogText(stops: seq<Stop>): string
  {
    Render(CatalogTree(stops), true)
  }

  function CatalogTree(stops: seq<Stop>): Json
  {
    JArr(seq(|stops|, i requires 0 <= i < |stops| => ToJson(stops[i])))
  }

  /** The cache-hit path: the cached text must parse as an array, whose elements are decoded one by one. */
  function DecodeCatalog(text: string, parse: Parser): Result<seq<StopRef>, Failure>
  {
    match parse(text)
    case Some(JArr(items)) => Ok(DecodeAll(items, parse))
    case _ => Fail(MalformedJson)
  }

  /** Reading back a cached catalogue gives the stops it was written from, in order. */
  lemma CatalogRoundTrip(stops: seq<Stop>, parse: Parser)
    requires parse(CatalogText(stops)) == Some(CatalogTree(stops))
    ensures DecodeCatalog(CatalogText(stops), parse) == Ok(seq(|stops|, i requires 0 <= i < |stops| => Some(stops[i])))
  {
    var items := CatalogTree(stops).items;
    var refs := DecodeAll(items, parse);
    forall i | 0 <= i < |stops|
      ensures refs[i] == Some(stops[i])
    {
      assert items[i] == ToJson(stops[i]);
      StopDto.FromJsonToJson(stops[i], parse);
    }
    assert DecodeCatalog(CatalogText(stops), parse) == Ok(refs);
    assert refs == seq(|stops|, i requires 0 <= i < |stops| => Some(stops[i]));
  }
}
