/**
 * `scanOnce`: one pass over the watchlist. For every query, in watchlist
 * order, the listings found are sent to the deals channel one message each,
 * in result order. Nothing in the pass catches an exception, so the first
 * query or message that throws ends the pass; what was sent stays sent.
 */
module Scan {
  import opened Fallible
  import opened Js
  import opened Text
  import opened Walmart
  import Watchlist

  /** The first line of every listing message. */
  const Banner := "\U{1F6D2} **WALMART ITEM FOUND**"

  /** Each field of the listing converts to a string without throwing. */
  ghost predicate Sendable(l: Listing) {
    Printable(l.title) && Printable(l.price) && Printable(l.link)
  }

  /**
   * The text sent for one listing: the banner, the bold title, the price
   * after a dollar sign, and the link, one per line. `None` when converting a
   * field throws.
   */
  function Message(l: Listing, showNumber: real -> string): (r: Option<string>)
    ensures r.Some? ==> Banner + "\n" <= r.value
    ensures r.Some? ==>
              && Render(l.link, showNumber).Some?
              && var link := Render(l.link, showNumber).value;
                 |link| < |r.value| && r.value[|r.value| - |link| - 1..] == "\n" + link
  {
    match (Render(l.title, showNumber), Render(l.price, showNumber), Render(l.link, showNumber))
    case (Some(title), Some(price), Some(link)) => Some(Layout(title, price, link))
    case _ => None
  }

  /** A message can be built exactly when every field of the listing converts to a string. */
  lemma MessageDefinedIff(l: Listing, showNumber: real -> string)
    ensures Message(l, showNumber).Some? <==> Sendable(l)
  {
    RenderDefinedIff(l.title, showNumber);
    RenderDefinedIff(l.price, showNumber);
    RenderDefinedIff(l.link, showNumber);
  }

  /** The template literal of the message, once its three fields are strings. */
  function Layout(title: string, price: string, link: string): string {
    Banner + "\n" + ("**" + title + "**") + "\n" + ("Price: **$" + price + "**") + "\n" + link
  }

  /** The message is its four lines joined with line breaks. */
  lemma LayoutIsJoin(title: string, price: string, link: string)
    ensures Layout(title, price, link) == Join([Banner, "**" + title + "**", "Price: **$" + price + "**", link], '\n')
  {
    var lines := [Banner, "**" + title + "**", "Price: **$" + price + "**", link];
    var l1, l2 := lines[1], lines[2];
    assert Join(lines[2..], '\n') == l2 + "\n" + link;
    assert Join(lines[1..], '\n') == l1 + "\n" + Join(lines[2..], '\n');
    assert Join(lines, '\n') == Banner + "\n" + Join(lines[1..], '\n');
  }

  /**
   * A message can be read back: when the rendered fields hold no line break,
   * its lines are exactly the banner, the bold title, the price line and the
   * link.
   */
  lemma MessageLines(l: Listing, showNumber: real -> string, title: string, price: string, link: string)
    requires Render(l.title, showNumber) == Some(title)
    requires Render(l.price, showNumber) == Some(price)
    requires Render(l.link, showNumber) == Some(link)
    requires '\n' !in title && '\n' !in price && '\n' !in link
    ensures Message(l, showNumber).Some?
    ensures Split(Message(l, showNumber).value, '\n') == [Banner, "**" + title + "**", "Price: **$" + price + "**", link]
  {
    var lines := [Banner, "**" + title + "**", "Price: **$" + price + "**", link];
    LayoutIsJoin(title, price, link);
    assert '\n' !in "**" + title + "**";
    assert '\n' !in "Price: **$" + price + "**";
    SplitJoin(lines, '\n');
  }

  /** How the text of a listing's message is built, `None` when building it throws. */
  type Formatter = Listing -> Option<string>

  /** The formatter of the running bot. */
  function MessageOf(showNumber: real -> string): Formatter {
    l => Message(l, showNumber)
  }

  /** What one query put on the channel, and whether every message could be built. */
  datatype Batch = Batch(messages: seq<string>, complete: bool)

  /**
   * `for (const r of results) await channel.send(...)`: the messages of the
   * listings in order, stopping at the first one whose text cannot be built
   * (see `SendAllSpec`).
   */
  function SendAll(results: seq<Listing>, format: Formatter): (b: Batch)
    ensures |b.messages| <= |results|
    decreases |results|
  {
    if |results| == 0 then Batch([], true)
    else
      match format(results[0])
      case None => Batch([], false)
      case Some(m) =>
        var rest := SendAll(results[1..], format);
        Batch([m] + rest.messages, rest.complete)
  }

  /**
   * The `k`-th message sent is the text of the `k`-th listing; all listings
   * are sent exactly when all can be turned into text, and otherwise sending
   * stops just before the first that cannot.
   */
  lemma {:induction false} SendAllSpec(results: seq<Listing>, format: Formatter)
    ensures var b := SendAll(results, format);
      && (forall k :: 0 <= k < |b.messages| ==> format(results[k]) == Some(b.messages[k]))
      && (b.complete <==> forall k :: 0 <= k < |results| ==> format(results[k]).Some?)
      && (b.complete ==> |b.messages| == |results|)
      && (!b.complete ==> |b.messages| < |results| && format(results[|b.messages|]).None?)
    decreases |results|
  {
    if |results| > 0 && format(results[0]).Some? {
      var rest := results[1..];
      SendAllSpec(rest, format);
      assert forall k :: 1 <= k < |results| ==> results[k] == rest[k - 1];
    }
  }

  /** How a pass ended. */
  datatype Outcome =
    | NoChannel            // the channel could not be fetched: nothing was done
    | Completed            // every query was searched and every listing sent
    | Aborted(error: JsError)

  /** The queries searched and the messages sent during a pass, in order, and how it ended. */
  datatype Report = Report(queried: seq<string>, sent: seq<string>, outcome: Outcome)
  /** The position of the first watchlist entry. */
  const First: nat := 0

  /**
   * What `await searchWalmart(q)` settles to when `q` is the watchlist entry
   * at position `i`. Every iteration fetches afresh, so two entries with the
   * same text may get different answers.
   */
  type Searcher = (nat, string) -> Result<seq<Listing>, JsError>

  /** The searcher of the running bot: `fetch` gives the HTTP outcome of each search. */
  function WalmartSearcher(fetch: (nat, string) -> HttpOutcome): Searcher {
    (i: nat, q: string) => Search(fetch(i, q))
  }

  /**
   * The loop over the watchlist, from the entry at position `start` on: each
   * query is searched and its listings sent before the next query is
   * searched.
   */
  function ScanQueries(qs: seq<string>, start: nat, search: Searcher, format: Formatter): (r: Report)
    ensures |r.queried| <= |qs|
    ensures r.outcome != NoChannel
    decreases |qs|
  {
    if |qs| == 0 then Report([], [], Completed)
    else
      var q := qs[0];
      match search(start, q)
      case Err(e) => Report([q], [], Aborted(e))
      case Ok(results) =>
        var batch := SendAll(results, format);
        if !batch.complete then Report([q], batch.messages, Aborted(TypeError))
        else
          var rest := ScanQueries(qs[1..], start + 1, search, format);
          Report([q] + rest.queried, batch.messages + rest.sent, rest.outcome)
  }

  /**
   * The queries a pass searches are a prefix of the watchlist, all of it when
   * the pass completes; when it aborts, the last query searched is the one
   * that threw.
   */
  lemma {:induction false} ScanQueriesShape(qs: seq<string>, start: nat, search: Searcher, format: Formatter)
    ensures var r := ScanQueries(qs, start, search, format);
      && r.queried == qs[..|r.queried|]
      && (r.outcome.Completed? ==> r.queried == qs)
      && (r.outcome.Aborted? ==>
            |r.queried| >= 1 && Throws(r.queried[|r.queried| - 1], start + |r.queried| - 1, search, format))
  {
    QueriedIsPrefix(qs, start, search, format);
    AbortsAtThrowingQuery(qs, start, search, format);
  }

  lemma {:induction false} QueriedIsPrefix(qs: seq<string>, start: nat, search: Searcher, format: Formatter)
    ensures var r := ScanQueries(qs, start, search, format);
      && r.queried == qs[..|r.queried|]
      && (r.outcome.Completed? ==> r.queried == qs)
    decreases |qs|
  {
    if |qs| > 0 {
      var q, rest := qs[0], qs[1..];
      if search(start, q).Ok? && SendAll(search(start, q).value, format).complete {
        QueriedIsPrefix(rest, start + 1, search, format);
        var r' := ScanQueries(rest, start + 1, search, format);
        assert ScanQueries(qs, start, search, format).queried == [q] + r'.queried;
        PrefixCons(q, rest, r'.queried);
      }
    }
  }

  /** Putting the same element in front keeps a prefix a prefix. */
  lemma PrefixCons(q: string, rest: seq<string>, p: seq<string>)
    requires |p| <= |rest| && p == rest[..|p|]
    ensures [q] + p == ([q] + rest)[..|p| + 1]
  {
  }

  lemma {:induction false} AbortsAtThrowingQuery(qs: seq<string>, start: nat, search: Searcher, format: Formatter)
    ensures var r := ScanQueries(qs, start, search, format);
      r.outcome.Aborted? ==>
        |r.queried| >= 1 && Throws(r.queried[|r.queried| - 1], start + |r.queried| - 1, search, format)
    decreases |qs|
  {
    if |qs| > 0 {
      var q, rest := qs[0], qs[1..];
      if search(start, q).Ok? && SendAll(search(start, q).value, format).complete {
        AbortsAtThrowingQuery(rest, start + 1, search, format);
        var r' := ScanQueries(rest, start + 1, search, format);
        assert ScanQueries(qs, start, search, format) ==
          Report([q] + r'.queried, SendAll(search(start, q).value, format).messages + r'.sent, r'.outcome);
        if r'.outcome.Aborted? {
          assert ([q] + r'.queried)[|r'.queried|] == r'.queried[|r'.queried| - 1];
        }
      }
    }
  }

  /** Handling `q` at position `i` throws: its search throws or one of its messages cannot be built. */
  ghost predicate Throws(q: string, i: nat, search: Searcher, format: Formatter) {
    match search(i, q)
    case Err(_) => true
    case Ok(results) => !SendAll(results, format).complete
  }

  /**
   * A pass depends only on the answers to its own searches: two searchers
   * that agree on every position of the watchlist give the same pass.
   */
  lemma {:induction false} PassUsesOwnSearches(qs: seq<string>, start: nat, s1: Searcher, s2: Searcher, format: Formatter)
    requires forall i :: 0 <= i < |qs| ==> s1(start + i, qs[i]) == s2(start + i, qs[i])
    ensures ScanQueries(qs, start, s1, format) == ScanQueries(qs, start, s2, format)
    decreases |qs|
  {
    if |qs| > 0 {
      var rest := qs[1..];
      assert s1(start, qs[0]) == s2(start, qs[0]) by {
        assert start + 0 == start;
      }
      forall i | 0 <= i < |rest| ensures s1(start + 1 + i, rest[i]) == s2(start + 1 + i, rest[i]) {
        assert rest[i] == qs[i + 1] && start + 1 + i == start + (i + 1);
      }
      PassUsesOwnSearches(rest, start + 1, s1, s2, format);
    }
  }

  /** `scanOnce()`: nothing at all happens when the deals channel cannot be fetched. */
  function ScanOnce(channelFound: bool, watchlist: seq<string>, search: Searcher,
                    showNumber: real -> string): (r: Report)
    ensures !channelFound ==> r == Report([], [], NoChannel)
    ensures channelFound ==> r == ScanQueries(watchlist, First, search, MessageOf(showNumber))
    ensures channelFound ==> r.outcome != NoChannel && r.queried <= watchlist
  {
    if !channelFound then Report([], [], NoChannel)
    else
      ScanQueriesShape(watchlist, First, search, MessageOf(showNumber));
      ScanQueries(watchlist, First, search, MessageOf(showNumber))
  }

  /** Sending the listings of `xs + ys` is sending those of `xs`, then, if all went out, those of `ys`. */
  lemma {:induction false} SendAllAppend(xs: seq<Listing>, ys: seq<Listing>, format: Formatter)
    ensures var a, b := SendAll(xs, format), SendAll(ys, format);
            SendAll(xs + ys, format) == if a.complete then Batch(a.messages + b.messages, b.complete) else a
    decreases |xs|
  {
    if |xs| == 0 {
      assert xs + ys == ys;
    } else {
      assert (xs + ys)[0] == xs[0];
      assert (xs + ys)[1..] == xs[1..] + ys;
      SendAllAppend(xs[1..], ys, format);
    }
  }

  /**
   * A pass over `a + b` is the pass over `a` followed, only if that one
   * completed, by the pass over `b` at the positions after `a`: after a
   * failure nothing more is searched or sent.
   */
  lemma {:induction false} ScanAppend(a: seq<string>, b: seq<string>, start: nat, search: Searcher, format: Formatter)
    ensures var ra, rb := ScanQueries(a, start, search, format), ScanQueries(b, start + |a|, search, format);
            ScanQueries(a + b, start, search, format) ==
              if ra.outcome.Completed? then Report(ra.queried + rb.queried, ra.sent + rb.sent, rb.outcome)
              else ra
    decreases |a|
  {
    if |a| == 0 {
      assert a + b == b;
    } else {
      var q := a[0];
      assert (a + b)[0] == q;
      assert (a + b)[1..] == a[1..] + b;
      match search(start, q)
      case Err(e) =>
      case Ok(results) =>
        if SendAll(results, format).complete {
          ScanAppend(a[1..], b, start + 1, search, format);
          var ra', rb := ScanQueries(a[1..], start + 1, search, format), ScanQueries(b, start + |a|, search, format);
          assert start + 1 + |a[1..]| == start + |a|;
          var batch := SendAll(results, format).messages;
          if ra'.outcome.Completed? {
            assert [q] + (ra'.queried + rb.queried) == ([q] + ra'.queried) + rb.queried;
            assert batch + (ra'.sent + rb.sent) == (batch + ra'.sent) + rb.sent;
          }
        }
    }
  }

  /** The listings the search of the `i`-th query yields, none when it throws. */
  function Hits(qs: seq<string>, start: nat, search: Searcher, i: nat): seq<Listing>
    requires i < |qs|
  {
    match search(start + i, qs[i])
    case Ok(results) => results
    case Err(_) => []
  }

  /** The `i`-th query of `qs` is the `(i - 1)`-th of `qs[1..]`, one position further on. */
  lemma HitsShift(qs: seq<string>, start: nat, search: Searcher, i: nat)
    requires 0 < i < |qs|
    ensures Hits(qs[1..], start + 1, search, i - 1) == Hits(qs, start, search, i)
  {
    assert qs[1..][i - 1] == qs[i] && start + 1 + (i - 1) == start + i;
  }

  /** The number of listings the first `i` queries yield together. */
  function CountBefore(qs: seq<string>, start: nat, search: Searcher, i: nat): nat
    requires i <= |qs|
    decreases i
  {
    if i == 0 then 0 else |Hits(qs, start, search, 0)| + CountBefore(qs[1..], start + 1, search, i - 1)
  }

  /** No search of the pass throws and every listing found can be turned into a message. */
  ghost predicate Clean(qs: seq<string>, start: nat, search: Searcher, format: Formatter) {
    forall i :: 0 <= i < |qs| ==>
      && search(start + i, qs[i]).Ok?
      && forall k :: 0 <= k < |Hits(qs, start, search, i)| ==> format(Hits(qs, start, search, i)[k]).Some?
  }

  /** When nothing throws, a pass searches every query and completes. */
  lemma {:induction false} CleanScanCompletes(qs: seq<string>, start: nat, search: Searcher, format: Formatter)
    requires Clean(qs, start, search, format)
    ensures ScanQueries(qs, start, search, format).outcome == Completed
    ensures ScanQueries(qs, start, search, format).queried == qs
    decreases |qs|
  {
    if |qs| > 0 {
      var rest := qs[1..];
      assert Clean(rest, start + 1, search, format) by {
        forall i | 0 <= i < |rest|
          ensures search(start + 1 + i, rest[i]) == search(start + (i + 1), qs[i + 1])
          ensures Hits(rest, start + 1, search, i) == Hits(qs, start, search, i + 1)
        {
          assert rest[i] == qs[i + 1] && start + 1 + i == start + (i + 1);
        }
      }
      CleanScanCompletes(rest, start + 1, search, format);
      assert search(start + 0, qs[0]).Ok?;
      SendAllSpec(Hits(qs, start, search, 0), format);
      assert qs == [qs[0]] + rest;
    }
  }

  /** The listings of every query, in watchlist order and then in result order. */
  function AllListings(qs: seq<string>, start: nat, search: Searcher): seq<Listing>
    decreases |qs|
  {
    if |qs| == 0 then [] else Hits(qs, start, search, 0) + AllListings(qs[1..], start + 1, search)
  }

  /** There are as many listings in all as the queries yield together. */
  lemma {:induction false} AllListingsLength(qs: seq<string>, start: nat, search: Searcher)
    ensures |AllListings(qs, start, search)| == CountBefore(qs, start, search, |qs|)
    decreases |qs|
  {
    if |qs| > 0 {
      AllListingsLength(qs[1..], start + 1, search);
    }
  }

  /**
   * The listings of the `i`-th query occupy positions `CountBefore(i)` up to
   * `CountBefore(i + 1)` of `AllListings`.
   */
  lemma {:induction false} AllListingsSlice(qs: seq<string>, start: nat, search: Searcher, i: nat)
    requires i < |qs|
    ensures CountBefore(qs, start, search, i) + |Hits(qs, start, search, i)| == CountBefore(qs, start, search, i + 1)
    ensures CountBefore(qs, start, search, i + 1) <= |AllListings(qs, start, search)|
    ensures AllListings(qs, start, search)[CountBefore(qs, start, search, i)..CountBefore(qs, start, search, i + 1)]
              == Hits(qs, start, search, i)
    decreases i
  {
    var first, rest := Hits(qs, start, search, 0), qs[1..];
    var tail := AllListings(rest, start + 1, search);
    assert AllListings(qs, start, search) == first + tail;
    if i == 0 {
      assert CountBefore(qs, start, search, 1) == |first|;
      SliceAfter(first, tail, 0, 0);
    } else {
      AllListingsSlice(rest, start + 1, search, i - 1);
      HitsShift(qs, start, search, i);
      var lo, hi := CountBefore(rest, start + 1, search, i - 1), CountBefore(rest, start + 1, search, i);
      CountBeforeCons(qs, start, search, i);
      CountBeforeCons(qs, start, search, i + 1);
      SliceAfter(first, tail, lo, hi);
    }
  }

  /** The first `i` queries yield the first query's listings and those of the next `i - 1`. */
  lemma CountBeforeCons(qs: seq<string>, start: nat, search: Searcher, i: nat)
    requires 0 < i <= |qs|
    ensures CountBefore(qs, start, search, i) == |Hits(qs, start, search, 0)| + CountBefore(qs[1..], start + 1, search, i - 1)
  {
  }

  /** A slice of `b` is the same slice of `a + b`, shifted past `a`. */
  lemma SliceAfter(a: seq<Listing>, b: seq<Listing>, lo: nat, hi: nat)
    requires lo <= hi <= |b|
    ensures (a + b)[|a| + lo..|a| + hi] == b[lo..hi]
    ensures (a + b)[..|a|] == a
  {
  }

  /**
   * A pass that completes sends one message per listing of the whole
   * watchlist, in the order of `AllListings`.
   */
  lemma {:induction false} CompletedPassSendsAllListings(qs: seq<string>, start: nat, search: Searcher, format: Formatter)
    requires ScanQueries(qs, start, search, format).outcome == Completed
    ensures var sent, all := ScanQueries(qs, start, search, format).sent, AllListings(qs, start, search);
      && |sent| == |all|
      && forall k :: 0 <= k < |sent| ==> format(all[k]) == Some(sent[k])
    decreases |qs|
  {
    if |qs| > 0 {
      var q, rest := qs[0], qs[1..];
      assert search(start, q).Ok? && SendAll(search(start, q).value, format).complete;
      CompletedPassSendsAllListings(rest, start + 1, search, format);
      SendAllSpec(Hits(qs, start, search, 0), format);
    }
  }

  /** Where the `k`-th listing of the `i`-th query lands: after the listings of the queries before it. */
  function Position(qs: seq<string>, start: nat, search: Searcher, i: nat, k: nat): nat
    requires i <= |qs|
  {
    CountBefore(qs, start, search, i) + k
  }

  /** The `k`-th listing of the `i`-th query sits at its position in `AllListings`. */
  lemma ListingPosition(qs: seq<string>, start: nat, search: Searcher, i: nat, k: nat)
    requires i < |qs| && k < |Hits(qs, start, search, i)|
    ensures Position(qs, start, search, i, k) < |AllListings(qs, start, search)|
    ensures AllListings(qs, start, search)[Position(qs, start, search, i, k)] == Hits(qs, start, search, i)[k]
  {
    AllListingsSlice(qs, start, search, i);
    var all, lo := AllListings(qs, start, search), CountBefore(qs, start, search, i);
    assert all[lo..CountBefore(qs, start, search, i + 1)][k] == all[lo + k];
  }

  /**
   * In a pass that completes, the `k`-th listing of the `i`-th query is
   * sent right after the listings of the queries before it.
   */
  lemma CompletedPassPlacesListings(qs: seq<string>, start: nat, search: Searcher, format: Formatter)
    requires ScanQueries(qs, start, search, format).outcome == Completed
    ensures |ScanQueries(qs, start, search, format).sent| == CountBefore(qs, start, search, |qs|)
    ensures forall i, k {:trigger Position(qs, start, search, i, k)} ::
              0 <= i < |qs| && 0 <= k < |Hits(qs, start, search, i)| ==>
              && Position(qs, start, search, i, k) < |ScanQueries(qs, start, search, format).sent|
              && format(Hits(qs, start, search, i)[k])
                   == Some(ScanQueries(qs, start, search, format).sent[Position(qs, start, search, i, k)])
  {
    var sent, all := ScanQueries(qs, start, search, format).sent, AllListings(qs, start, search);
    CompletedPassSendsAllListings(qs, start, search, format);
    AllListingsLength(qs, start, search);
    forall i, k {:trigger Position(qs, start, search, i, k)} | 0 <= i < |qs| && 0 <= k < |Hits(qs, start, search, i)|
      ensures Position(qs, start, search, i, k) < |sent|
      ensures format(Hits(qs, start, search, i)[k]) == Some(sent[Position(qs, start, search, i, k)])
    {
      ListingPosition(qs, start, search, i, k);
      var n := Position(qs, start, search, i, k);
      assert format(all[n]) == Some(sent[n]);
    }
  }

  /**
   * The pass the bot runs, when no search throws and every field of every
   * listing converts to a string: it searches the whole watchlist and sends
   * the message of the `k`-th listing of the `i`-th query right after the
   * messages of the queries before it.
   */
  lemma BotPassSendsEveryListing(watchlist: seq<string>, search: Searcher, showNumber: real -> string)
    requires forall i :: 0 <= i < |watchlist| ==> search(i, watchlist[i]).Ok?
    requires forall i, k :: 0 <= i < |watchlist| && 0 <= k < |Hits(watchlist, First, search, i)| ==>
               Sendable(Hits(watchlist, First, search, i)[k])
    ensures var r := ScanOnce(true, watchlist, search, showNumber);
      && r.outcome == Completed
      && r.queried == watchlist
      && |r.sent| == CountBefore(watchlist, First, search, |watchlist|)
      && forall i, k {:trigger Position(watchlist, First, search, i, k)} ::
           0 <= i < |watchlist| && 0 <= k < |Hits(watchlist, First, search, i)| ==>
           && Position(watchlist, First, search, i, k) < |r.sent|
           && Message(Hits(watchlist, First, search, i)[k], showNumber) == Some(r.sent[Position(watchlist, First, search, i, k)])
  {
    var format := MessageOf(showNumber);
    forall i, k | 0 <= i < |watchlist| && 0 <= k < |Hits(watchlist, First, search, i)|
      ensures format(Hits(watchlist, First, search, i)[k]).Some?
    {
      MessageDefinedIff(Hits(watchlist, First, search, i)[k], showNumber);
    }
    assert Clean(watchlist, First, search, format);
    CleanScanCompletes(watchlist, First, search, format);
    CompletedPassPlacesListings(watchlist, First, search, format);
  }

  /**
   * A query whose search throws ends the pass: when every earlier query went
   * through, the pass has searched up to and including it, sent exactly what
   * the earlier queries produced, and nothing for any later query.
   */
  lemma StopsAtFailingQuery(qs: seq<string>, n: nat, start: nat, search: Searcher, format: Formatter)
    requires n < |qs|
    requires ScanQueries(qs[..n], start, search, format).outcome == Completed
    requires search(start + n, qs[n]).Err?
    ensures ScanQueries(qs, start, search, format) ==
              Report(qs[..n + 1], ScanQueries(qs[..n], start, search, format).sent, Aborted(search(start + n, qs[n]).error))
  {
    FailingQueryAborts(qs, n, start, search, format);
    AbortedPrefixDecides(qs, n + 1, start, search, format);
  }

  /** A completed pass has searched every query. */
  lemma {:induction false} CompletedPassSearchesAll(qs: seq<string>, start: nat, search: Searcher, format: Formatter)
    requires ScanQueries(qs, start, search, format).outcome == Completed
    ensures ScanQueries(qs, start, search, format).queried == qs
  {
    ScanQueriesShape(qs, start, search, format);
  }

  /** A throwing search right after a completed prefix aborts with its error and sends nothing more. */
  lemma FailingQueryAborts(qs: seq<string>, n: nat, start: nat, search: Searcher, format: Formatter)
    requires n < |qs|
    requires ScanQueries(qs[..n], start, search, format).outcome == Completed
    requires search(start + n, qs[n]).Err?
    ensures ScanQueries(qs[..n + 1], start, search, format) ==
              Report(qs[..n + 1], ScanQueries(qs[..n], start, search, format).sent, Aborted(search(start + n, qs[n]).error))
  {
    CompletedPassSearchesAll(qs[..n], start, search, format);
    AbortsAt(qs[..n], qs[n], start, search, format);
    assert qs[..n] + [qs[n]] == qs[..n + 1];
  }

  /** A pass that completes on `a` and then meets a throwing search stops there. */
  lemma AbortsAt(a: seq<string>, q: string, start: nat, search: Searcher, format: Formatter)
    requires ScanQueries(a, start, search, format).outcome == Completed
    requires search(start + |a|, q).Err?
    ensures var ra := ScanQueries(a, start, search, format);
            ScanQueries(a + [q], start, search, format) == Report(ra.queried + [q], ra.sent, Aborted(search(start + |a|, q).error))
  {
    ScanAppend(a, [q], start, search, format);
  }

  /** Once a pass has aborted, the queries after it change nothing. */
  lemma AbortedPassIgnoresRest(a: seq<string>, b: seq<string>, start: nat, search: Searcher, format: Formatter)
    requires ScanQueries(a, start, search, format).outcome.Aborted?
    ensures ScanQueries(a + b, start, search, format) == ScanQueries(a, start, search, format)
  {
    ScanAppend(a, b, start, search, format);
  }

  /** A pass whose first `n` queries abort it is decided by them. */
  lemma AbortedPrefixDecides(qs: seq<string>, n: nat, start: nat, search: Searcher, format: Formatter)
    requires n <= |qs|
    requires ScanQueries(qs[..n], start, search, format).outcome.Aborted?
    ensures ScanQueries(qs, start, search, format) == ScanQueries(qs[..n], start, search, format)
  {
    AbortedPassIgnoresRest(qs[..n], qs[n..], start, search, format);
    assert qs[..n] + qs[n..] == qs;
  }

  /**
   * A pass of the running bot sends at most three messages per query it
   * searched, whether or not it completes.
   */
  lemma {:induction false} AtMostThreePerQuery(qs: seq<string>, start: nat, fetch: (nat, string) -> HttpOutcome, format: Formatter)
    ensures var r := ScanQueries(qs, start, WalmartSearcher(fetch), format);
            |r.sent| <= MaxItems * |r.queried|
    decreases |qs|
  {
    if |qs| > 0 {
      assert WalmartSearcher(fetch)(start, qs[0]) == Search(fetch(start, qs[0]));
      AtMostThreePerQuery(qs[1..], start + 1, fetch, format);
    }
  }

  /**
   * Every query a pass over the configured watchlist searches is a
   * non-empty, trimmed entry of the `WATCHLIST` setting.
   */
  lemma QueriesAreEntries(env: Option<string>, channelFound: bool, search: Searcher, showNumber: real -> string)
    ensures var r := ScanOnce(channelFound, Watchlist.FromEnv(env), search, showNumber);
            forall k :: 0 <= k < |r.queried| ==>
              r.queried[k] != [] && Trim(r.queried[k]) == r.queried[k] && r.queried[k] in Watchlist.FromEnv(env)
  {
    var w := Watchlist.FromEnv(env);
    var r := ScanOnce(channelFound, w, search, showNumber);
    forall k | 0 <= k < |r.queried|
      ensures r.queried[k] != [] && Trim(r.queried[k]) == r.queried[k] && r.queried[k] in w
    {
      assert r.queried[k] == w[k];
    }
  }

  /** One more listing extends a complete batch by its message, or ends it. */
  lemma SendStep(results: seq<Listing>, j: nat, format: Formatter)
    requires j < |results|
    requires SendAll(results[..j], format).complete
    ensures var a := SendAll(results[..j], format);
            SendAll(results[..j + 1], format) ==
              match format(results[j])
              case None => Batch(a.messages, false)
              case Some(m) => Batch(a.messages + [m], true)
  {
    SendAllAppend(results[..j], [results[j]], format);
    assert results[..j] + [results[j]] == results[..j + 1];
  }

  /** A batch whose first `j` listings fail to render is decided by them. */
  lemma SendAllStopsAt(results: seq<Listing>, j: nat, format: Formatter)
    requires j <= |results|
    requires !SendAll(results[..j], format).complete
    ensures SendAll(results, format) == SendAll(results[..j], format)
  {
    SendAllAppend(results[..j], results[j..], format);
    assert results[..j] + results[j..] == results;
  }

  /** A query that is found adds its batch to a pass that has not aborted. */
  lemma ScanStep(qs: seq<string>, n: nat, start: nat, search: Searcher, format: Formatter)
    requires n < |qs|
    requires ScanQueries(qs[..n], start, search, format).outcome == Completed
    requires search(start + n, qs[n]).Ok?
    ensures var ra, b := ScanQueries(qs[..n], start, search, format), SendAll(search(start + n, qs[n]).value, format);
            ScanQueries(qs[..n + 1], start, search, format) ==
              Report(ra.queried + [qs[n]], ra.sent + b.messages, if b.complete then Completed else Aborted(TypeError))
  {
    ScanAppend(qs[..n], [qs[n]], start, search, format);
    assert qs[..n] + [qs[n]] == qs[..n + 1];
    assert [qs[n]][1..] == [];
  }

  /**
   * An iteration of the loop over the watchlist, after the first `i` queries
   * went through, whose search throws: the pass ends there with its error.
   */
  lemma LoopSearchFails(qs: seq<string>, i: nat, start: nat, search: Searcher, format: Formatter,
                        queried: seq<string>, sent: seq<string>)
    requires i < |qs|
    requires ScanQueries(qs[..i], start, search, format) == Report(queried, sent, Completed)
    requires search(start + i, qs[i]).Err?
    ensures ScanQueries(qs, start, search, format) ==
              Report(queried + [qs[i]], sent, Aborted(search(start + i, qs[i]).error))
  {
    CompletedPassSearchesAll(qs[..i], start, search, format);
    assert queried + [qs[i]] == qs[..i + 1];
    StopsAtFailingQuery(qs, i, start, search, format);
  }

  /**
   * An iteration of the loop over the watchlist, after the first `i` queries
   * went through, whose search succeeds: the query and its batch are added,
   * and the pass carries on only if the batch is complete.
   */
  lemma LoopSearchSucceeds(qs: seq<string>, i: nat, start: nat, search: Searcher, format: Formatter,
                           queried: seq<string>, sent: seq<string>)
    requires i < |qs|
    requires ScanQueries(qs[..i], start, search, format) == Report(queried, sent, Completed)
    requires search(start + i, qs[i]).Ok?
    ensures var b := SendAll(search(start + i, qs[i]).value, format);
            ScanQueries(qs[..i + 1], start, search, format) ==
              Report(queried + [qs[i]], sent + b.messages, if b.complete then Completed else Aborted(TypeError))
  {
    CompletedPassSearchesAll(qs[..i], start, search, format);
    ScanStep(qs, i, start, search, format);
  }

  /** Sends the message of each listing in turn, stopping at the first that fails. */
  method SendBatch(results: seq<Listing>, format: Formatter) returns (messages: seq<string>, complete: bool)
    ensures Batch(messages, complete) == SendAll(results, format)
  {
    messages := [];
    var j := 0;
    while j < |results|
      invariant 0 <= j <= |results|
      invariant SendAll(results[..j], format) == Batch(messages, true)
    {
      SendStep(results, j, format);
      var m := format(results[j]);
      if m.None? {
        SendAllStopsAt(results, j + 1, format);
        return messages, false;
      }
      messages := messages + [m.value];
      j := j + 1;
    }
    assert results[..j] == results;
    return messages, true;
  }

  /**
   * The pass as `scanOnce` runs it: a loop over the watchlist that searches
   * each query and sends its listings with `SendBatch`, ending at the first
   * query or message that throws.
   */
  method RunScan(channelFound: bool, watchlist: seq<string>, search: Searcher, showNumber: real -> string)
    returns (queried: seq<string>, sent: seq<string>, outcome: Outcome)
    ensures Report(queried, sent, outcome) == ScanOnce(channelFound, watchlist, search, showNumber)
  {
    if !channelFound {
      return [], [], NoChannel;
    }
    var format := MessageOf(showNumber);
    queried, sent, outcome := [], [], Completed;
    var i := 0;
    while i < |watchlist|
      invariant 0 <= i <= |watchlist|
      invariant ScanQueries(watchlist[..i], First, search, format) == Report(queried, sent, Completed)
    {
      var q := watchlist[i];
      var found := search(i, q);
      if found.Err? {
        LoopSearchFails(watchlist, i, First, search, format, queried, sent);
        return queried + [q], sent, Aborted(found.error);
      }
      LoopSearchSucceeds(watchlist, i, First, search, format, queried, sent);
      var messages, complete := SendBatch(found.value, format);
      queried, sent := queried + [q], sent + messages;
      if !complete {
        AbortedPrefixDecides(watchlist, i + 1, First, search, format);
        return queried, sent, Aborted(TypeError);
      }
      i := i + 1;
    }
    assert watchlist[..i] == watchlist;
  }

}
