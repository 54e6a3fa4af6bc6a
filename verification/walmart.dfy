/**
 * `searchWalmart`: one query against the Walmart search engine, reduced to
 * at most three listings whose title, price and link are all truthy. The HTTP
 * exchange itself is an input; the model starts from what `fetch` settled to.
 */
module Walmart {
  import opened Fallible
  import opened Js

  /** At most this many raw results are converted per query (`items.slice(0, 3)`). */
  const MaxItems := 3

  /** The body as `res.json()` sees it. */
  datatype Body = Unparseable | Parsed(json: Value)

  /** What `await fetch(url)` settled to for one query. */
  datatype HttpOutcome =
    | Rejected
    | Response(status: int, body: Body)

  /** `res.ok`: the status is in the 2xx range. */
  predicate StatusOk(status: int) {
    200 <= status <= 299
  }

  /** One normalised result `{title, price, link}`; JSON leaves each field free. */
  datatype Listing = Listing(title: Value, price: Value, link: Value)

  /** The filter `x.title && x.price && x.link`. */
  predicate Complete(l: Listing) {
    Truthy(l.title) && Truthy(l.price) && Truthy(l.link)
  }

  /** `json.organic_results || json.shopping_results || []`. */
  function Selected(json: Value): (r: Value)
    requires Readable(json)
    ensures Truthy(r)
    ensures Truthy(Get(json, "organic_results")) ==> r == Get(json, "organic_results")
    ensures !Truthy(Get(json, "organic_results")) && Truthy(Get(json, "shopping_results")) ==>
              r == Get(json, "shopping_results")
    ensures !Truthy(Get(json, "organic_results")) && !Truthy(Get(json, "shopping_results")) ==> r == Arr([])
  {
    Or(Or(Get(json, "organic_results"), Get(json, "shopping_results")), Arr([]))
  }

  /** `items.slice(0, 3)`. */
  function Head(items: seq<Value>): (r: seq<Value>)
    ensures |r| <= MaxItems && r <= items
    ensures |items| <= MaxItems ==> r == items
  {
    if |items| <= MaxItems then items else items[..MaxItems]
  }

  /** The record built for one raw item; the price falls back to `extracted_price`. */
  function Project(it: Value): (r: Listing)
    requires Readable(it)
    ensures r.title == Get(it, "title") && r.link == Get(it, "link")
    ensures Truthy(Get(it, "price")) ==> r.price == Get(it, "price")
    ensures !Truthy(Get(it, "price")) ==> r.price == Get(it, "extracted_price")
  {
    Listing(Get(it, "title"), Or(Get(it, "price"), Get(it, "extracted_price")), Get(it, "link"))
  }

  /** `.map(...)` over items none of which is null. */
  function ProjectAll(items: seq<Value>): (r: seq<Listing>)
    requires forall k :: 0 <= k < |items| ==> Readable(items[k])
    ensures |r| == |items|
  {
    seq(|items|, k requires 0 <= k < |items| => Project(items[k]))
  }

  /** `.filter(x => x.title && x.price && x.link)`. */
  function KeepComplete(ls: seq<Listing>): (r: seq<Listing>)
    ensures |r| <= |ls|
    ensures forall k :: 0 <= k < |r| ==> Complete(r[k])
    decreases |ls|
  {
    if |ls| == 0 then []
    else (if Complete(ls[0]) then [ls[0]] else []) + KeepComplete(ls[1..])
  }

  /**
   * Slice, map and filter applied to the selected result array. `map` reads
   * `it.title` of each of the first three items before anything is filtered,
   * so a null among them throws, whatever the other items hold.
   */
  function FromItems(items: seq<Value>): (r: Result<seq<Listing>, JsError>)
    ensures r.Err? <==> exists k :: 0 <= k < |items| && k < MaxItems && !Readable(items[k])
    ensures r.Err? ==> r.error == TypeError
    ensures r.Ok? ==> |r.value| <= MaxItems
    ensures r.Ok? ==> forall k :: 0 <= k < |r.value| ==> Complete(r.value[k])
  {
    var head := Head(items);
    if exists k :: 0 <= k < |head| && !Readable(head[k]) then Err(TypeError)
    else Ok(KeepComplete(ProjectAll(head)))
  }

  /**
   * The work after `res.json()`. Reading a property of a null body throws, and
   * so does a selected value that is truthy but not an array, since it has no
   * callable `slice(...).map`.
   */
  function Normalise(json: Value): (r: Result<seq<Listing>, JsError>)
    ensures r.Err? ==> r.error == TypeError
    ensures r.Ok? ==> |r.value| <= MaxItems
    ensures !Readable(json) ==> r.Err?
  {
    if !Readable(json) then Err(TypeError)
    else
      match Selected(json)
      case Arr(items) => FromItems(items)
      case _ => Err(TypeError)
  }

  /**
   * `searchWalmart(query)` once `fetch` has settled to `outcome`: a rejection
   * propagates, a non-2xx status gives no listings without reading the body,
   * an unparseable body rejects, and otherwise the body is normalised.
   */
  function Search(outcome: HttpOutcome): (r: Result<seq<Listing>, JsError>)
    ensures outcome.Rejected? ==> r == Err(FetchRejected)
    ensures outcome.Response? && !StatusOk(outcome.status) ==> r == Ok([])
    ensures outcome.Response? && StatusOk(outcome.status) && outcome.body.Unparseable? ==> r == Err(InvalidJson)
    ensures outcome.Response? && StatusOk(outcome.status) && outcome.body.Parsed? ==> r == Normalise(outcome.body.json)
    ensures r.Ok? ==> |r.value| <= MaxItems
    ensures r.Ok? ==> forall k :: 0 <= k < |r.value| ==> Complete(r.value[k])
  {
    match outcome
    case Rejected => Err(FetchRejected)
    case Response(status, body) =>
      if !StatusOk(status) then Ok([])
      else
        match body
        case Unparseable => Err(InvalidJson)
        case Parsed(json) => Normalise(json)
  }

  /**
   * Which array is used: `organic_results` whenever it is truthy (an array is
   * truthy even when empty, so an empty `organic_results` hides
   * `shopping_results`), else a truthy `shopping_results`, else none at all.
   */
  lemma SelectionOrder(json: Value)
    requires Readable(json)
    ensures var organic, shopping := Get(json, "organic_results"), Get(json, "shopping_results");
      && (organic.Arr? ==> Normalise(json) == FromItems(organic.elems))
      && (Truthy(organic) && !organic.Arr? ==> Normalise(json) == Err(TypeError))
      && (!Truthy(organic) && shopping.Arr? ==> Normalise(json) == FromItems(shopping.elems))
      && (!Truthy(organic) && Truthy(shopping) && !shopping.Arr? ==> Normalise(json) == Err(TypeError))
      && (!Truthy(organic) && !Truthy(shopping) ==> Normalise(json) == Ok([]))
  {
  }

  /** Items past the third are never read: appending more changes nothing. */
  lemma FromItemsIgnoresTail(items: seq<Value>, extra: seq<Value>)
    requires |items| >= MaxItems
    ensures FromItems(items + extra) == FromItems(items)
  {
    assert Head(items + extra) == Head(items);
  }

  /**
   * The listing built from one item is kept exactly when its title and link
   * are truthy and so is its price or, failing that, its extracted price; the
   * kept price is the first of the two that is truthy.
   */
  lemma PriceFallback(it: Value)
    requires Readable(it)
    ensures var price, extracted := Get(it, "price"), Get(it, "extracted_price");
      && (Complete(Project(it)) <==>
            Truthy(Get(it, "title")) && Truthy(Get(it, "link")) && (Truthy(price) || Truthy(extracted)))
      && (Complete(Project(it)) ==> Project(it).price == if Truthy(price) then price else extracted)
  {
  }

  /** Positions, from `i` on, of the complete listings of `ls`. */
  ghost function KeptFrom(ls: seq<Listing>, i: nat): seq<nat>
    requires i <= |ls|
    decreases |ls| - i
  {
    if i == |ls| then [] else (if Complete(ls[i]) then [i] else []) + KeptFrom(ls, i + 1)
  }

  /**
   * The filter keeps exactly the complete listings, in their order: its
   * `k`-th output is the listing at the `k`-th complete position.
   */
  lemma {:induction false} KeepCompleteIndexed(ls: seq<Listing>, i: nat)
    requires i <= |ls|
    ensures var idx, r := KeptFrom(ls, i), KeepComplete(ls[i..]);
      && |idx| == |r|
      && (forall k :: 0 <= k < |idx| ==> i <= idx[k] < |ls| && r[k] == ls[idx[k]])
      && (forall k, l :: 0 <= k < l < |idx| ==> idx[k] < idx[l])
      && (forall j :: i <= j < |ls| ==> (j in idx <==> Complete(ls[j])))
    decreases |ls| - i
  {
    if i < |ls| {
      KeepCompleteIndexed(ls, i + 1);
      assert ls[i..][1..] == ls[i + 1..];
      assert ls[i..][0] == ls[i];
    }
  }

  /**
   * The listings of a query form an order-preserving subsequence of its first
   * three items: the `k`-th listing is built from the item at the `k`-th
   * position whose title, price (or extracted price) and link are truthy, and
   * every such position among the first three contributes one.
   */
  lemma FromItemsIsOrderedFilter(items: seq<Value>)
    requires FromItems(items).Ok?
    ensures var head := Head(items);
      var idx, r := KeptFrom(ProjectAll(head), 0), FromItems(items).value;
      && |idx| == |r|
      && (forall k, l :: 0 <= k < l < |idx| ==> idx[k] < idx[l])
      && (forall k :: 0 <= k < |idx| ==>
            (&& idx[k] < |head|
             && idx[k] < MaxItems
             && r[k].title == Get(items[idx[k]], "title")
             && r[k].price == Or(Get(items[idx[k]], "price"), Get(items[idx[k]], "extracted_price"))
             && r[k].link == Get(items[idx[k]], "link")))
      && (forall j :: 0 <= j < |head| ==> (j in idx <==> Complete(Project(items[j]))))
  {
    var head := Head(items);
    var ls := ProjectAll(head);
    KeepCompleteIndexed(ls, 0);
    assert ls[0..] == ls;
  }
}
