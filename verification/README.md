# Walmart deals scanner: a Dafny model

This project models the scan engine of a small Discord bot, `index.js`. The bot
watches a list of product keywords. Every few minutes it runs `scanOnce`, which
searches Walmart for each keyword through SerpApi. Every listing found is posted
to one deals channel.

The model covers three parts of `index.js`:

- **The watchlist** (`Watchlist`, `Text`). The `WATCHLIST` setting is split on `|`,
  each piece is trimmed with ECMAScript `trim`, and the empty pieces are dropped.
- **`searchWalmart`** (`Walmart`, `Js`). This part starts from the settled `fetch`:
  - a rejected fetch propagates;
  - a non-2xx status gives no listings;
  - an unparseable body rejects.

  Otherwise the result array is chosen with the first truthy of `organic_results`, `shopping_results` and an empty array. The first three items are projected to
  `{title, price || extracted_price, link}`. Records whose three fields are not
  all truthy are dropped. Property reads on `null`, and calls of a missing
  `slice`/`map`, are modelled as the `TypeError` they raise.
- **`scanOnce` and the message** (`Scan`). If the channel cannot be fetched, nothing
  happens. Otherwise the queries are searched in watchlist order, and each
  listing's message is sent in result order. The message is the banner, the
  bold title, the price line and the link. The template literal's string
  conversion is modelled too (`Js.Render`): a JSON object with its own
  `toString` key throws.

  Nothing in `scanOnce` catches an exception. So the first query whose search
  throws, or the first message whose text cannot be built, ends the pass.
  Everything sent before it stays sent, and no later query is searched.

The scan loop is written twice:

- `Scan.ScanQueries` is a recursive function used for reasoning;
- `Scan.RunScan` is the two nested loops of the source, proved equal to it.

The loop takes the search and the message builder as parameters:

- `Scan.WalmartSearcher` turns the HTTP outcome of each search into the bot's search;
- `Scan.MessageOf` is the bot's message builder.

Each `Listing` keeps the JSON values themselves, so truthiness and string
conversion follow JavaScript.

`Scan.StopsAtFailingQuery` and `Scan.AbortedPassIgnoresRest` prove that one
failing query ends the whole pass.

Each iteration of the loop calls `fetch` afresh. So the search is a function of
the watchlist position as well as of the query text (`Scan.Searcher`), and two
entries with the same text may get different answers.

## Model

| member | source | states |
|---|---|---|
| `Js.Get` | index.js:27-32 | A key an object has gives that object's own field. A key it does not have, or any key of a non-object, gives `undefined`. |
| `Js.Render` | index.js:45-47 | A string field is inserted into the message verbatim. |
| `Js.RenderDefinedIff` | index.js:44-47 | String conversion succeeds exactly for printable values. A value is printable unless it is an object with its own `toString` key, or an array holding such an object. |
| `Js.RenderFromDefinedIff` | index.js:44-47 | Joining an array's elements from index `i` on succeeds exactly when every one of those elements is printable. |
| `Text.LeadingSpaceSpec` | index.js:14 | The leading white-space count covers only white space and stops at the first other character. |
| `Text.TrailingSpaceSpec` | index.js:14 | The trailing white-space count covers only white space and starts after the last other character. |
| `Text.Trim` | index.js:14 | `trim` never lengthens a string. |
| `Text.TrimIsInfix` | index.js:14 | The trimmed string is the infix of `s` between a white-space prefix and a white-space suffix. |
| `Text.TrimEnds` | index.js:14 | A non-empty trim neither starts nor ends with white space. |
| `Text.TrimAddsNothing` | index.js:13-14 | A character absent from `s` is absent from its trim. |
| `Text.TrimEmptyIff` | index.js:14-15 | The trim is empty exactly when `s` is all white space. |
| `Text.TrimIdempotent` | index.js:14 | Trimming twice is trimming once. |
| `Text.Split` | index.js:13 | `split` always yields at least one piece. |
| `Text.SplitPiecesFree` | index.js:13 | No piece contains the separator. |
| `Text.SplitCount` | index.js:13 | There is exactly one more piece than there are separators. |
| `Text.JoinSplit` | index.js:13 | Joining the pieces with the separator gives back the original string. |
| `Text.SplitJoin` | index.js:13 | Splitting a join of separator-free pieces gives back the pieces. |
| `Text.SplitAppend` | index.js:13 | Splitting `a + sep + b` gives the pieces of `a`, then the pieces of `b`. |
| `Text.SplitWithoutSep` | index.js:13 | A string without the separator is a single piece. |
| `Watchlist.TrimAll` | index.js:14 | Each output is the trim of the input at the same position. |
| `Watchlist.TrimAllMembers` | index.js:14 | A string is among the trimmed pieces exactly when it is the trim of one of the pieces. |
| `Watchlist.TrimAllAppend` | index.js:14 | Trimming all pieces distributes over concatenation. |
| `Watchlist.KeepNonEmpty` | index.js:15 | `filter(Boolean)` keeps only non-empty strings and never adds entries. |
| `Watchlist.KeepNonEmptyMembers` | index.js:15 | A string is kept exactly when it is in the input and non-empty. |
| `Watchlist.KeepNonEmptyAppend` | index.js:15 | The filter distributes over concatenation, so the order is preserved. |
| `Watchlist.KeepNonEmptyAll` | index.js:15 | The filter leaves a list of non-empty strings unchanged. |
| `Watchlist.Parse` | index.js:12-15 | Every entry is non-empty, equal to its own trim and free of the separator. There are at most as many entries as pieces between separators. |
| `Watchlist.CleanEntries` | index.js:13-15 | Trimming and filtering separator-free pieces yields clean entries. |
| `Watchlist.FromEnv` | index.js:12 | An unset `WATCHLIST` gives an empty watchlist. A set one is parsed. |
| `Watchlist.ParseMembers` | index.js:12-15 | A string is a watchlist entry exactly when it is the non-empty trim of some piece of the setting between separators. |
| `Watchlist.ParseAppend` | index.js:12-15 | Parsing `a`, a separator, then `b`, gives the entries of `a`, then those of `b`. |
| `Watchlist.ParseSingle` | index.js:12-15 | A setting without a separator gives no entry when it is blank, else exactly its trim. |
| `Watchlist.ParseEmptyIff` | index.js:12-15 | The watchlist is empty exactly when the setting holds only separators and white space. |
| `Watchlist.ParseJoin` | index.js:12-15 | Clean entries joined with the separator parse back to themselves (a round trip). This includes the empty watchlist, whose join is `""`. |
| `Walmart.Head` | index.js:29 | `slice(0, 3)` is a prefix of at most three items. It is the whole array when that is short enough. |
| `Walmart.Project` | index.js:30-32 | The record's title and link are the item's own. Its price is the item's `price` when that is truthy, and its `extracted_price` otherwise. |
| `Walmart.ProjectAll` | index.js:29-32 | `map` gives one record per item. |
| `Walmart.KeepComplete` | index.js:33 | The filter keeps only records whose title, price and link are truthy, and never adds records. |
| `Walmart.KeepCompleteIndexed` | index.js:33 | The filter is order-preserving. The `k`-th kept record is at the `k`-th increasing position, and a position is kept exactly when its record is complete. |
| `Walmart.FromItems` | index.js:29-33 | It throws `TypeError` exactly when one of the first three items is `null`. Otherwise it gives at most three complete listings. |
| `Walmart.FromItemsIsOrderedFilter` | index.js:29-33 | The listings are an order-preserving selection of the first three items. Each field is read from its item, with the price falling back to `extracted_price`. Every complete item is kept. |
| `Walmart.FromItemsIgnoresTail` | index.js:29 | Items after the third never affect the result. |
| `Walmart.PriceFallback` | index.js:31-33 | An item is kept exactly when its title and link are truthy and its price or extracted price is truthy. The kept price is the first truthy one of the two. |
| `Walmart.Normalise` | index.js:26-33 | A `null` body throws. Every failure is a `TypeError`, and at most three listings result. |
| `Walmart.Selected` | index.js:27 | The selected value is always truthy. It is `organic_results` when that is truthy, else `shopping_results` when that is truthy, else an empty array. |
| `Walmart.SelectionOrder` | index.js:27 | A truthy `organic_results` wins, even an empty array. Otherwise a truthy `shopping_results` is used. A truthy non-array throws. Otherwise there are no listings. |
| `Walmart.Search` | index.js:23-33 | A rejected fetch propagates. A non-2xx status gives no listings. A 2xx response whose body is not JSON rejects with `InvalidJson`. A parsed body gives exactly its normalisation, so every success has at most three complete listings. |
| `Scan.Message` | index.js:43-48 | A message starts with the banner line. It ends with a line break followed by the link's text. |
| `Scan.MessageDefinedIff` | index.js:43-48 | A listing's message can be built exactly when its title, price and link are all printable. |
| `Scan.LayoutIsJoin` | index.js:44-47 | The message text is its four lines joined with line breaks. |
| `Scan.MessageLines` | index.js:44-47 | When no field holds a line break, the message splits back into exactly the banner, `**title**`, `Price: **$price**` and the link. |
| `Scan.SendAll` | index.js:42-49 | One query never sends more messages than it has listings. |
| `Scan.SendAllSpec` | index.js:42-49 | The `k`-th message is the text of the `k`-th listing. All are sent exactly when all can be built. Otherwise sending stops just before the first that cannot. |
| `Scan.SendAllAppend` | index.js:42-49 | Sending `xs + ys` is sending `xs`, then `ys` only if all of `xs` went out. |
| `Scan.SendStep` | index.js:42-49 | One more listing either adds its message or ends the batch. |
| `Scan.SendAllStopsAt` | index.js:42-49 | Once a listing fails, the listings after it change nothing. |
| `Scan.SendBatch` | index.js:42-49 | The inner loop sends exactly what `SendAll` describes. |
| `Scan.ScanQueries` | index.js:40-50 | A pass never searches more queries than the watchlist holds, and never ends as `NoChannel`. |
| `Scan.ScanOnce` | index.js:36-50 | Without a channel nothing is searched or sent. With one, the pass is the loop over the watchlist from position 0 with the bot's message builder. It ends `Completed` or `Aborted`, and the searched queries are a prefix of the watchlist. |
| `Scan.ScanQueriesShape` | index.js:40-50 | The searched queries are a prefix of the watchlist, all of it when the pass completes. An aborted pass ends on a query whose handling throws. |
| `Scan.PassUsesOwnSearches` | index.js:40-41 | A pass depends only on the answers its searches get at their own positions: two searchers that agree there give the same pass. |
| `Scan.QueriedIsPrefix` | index.js:40 | The queries searched are a prefix of the watchlist. A completed pass has searched all of it. |
| `Scan.AbortsAtThrowingQuery` | index.js:40-49 | The last query of an aborted pass is one whose search or one of whose messages throws. |
| `Scan.ScanAppend` | index.js:40-50 | A pass over `a + b` is the pass over `a` followed by the pass over `b` only if `a` completed. Otherwise it is the pass over `a` alone. |
| `Scan.ScanStep` | index.js:40-49 | A query whose search succeeds adds itself and its batch. The pass aborts with `TypeError` when the batch is incomplete. |
| `Scan.LoopSearchFails` | index.js:40-41 | One iteration after completed queries, when the search throws: the whole pass ends with that query added, no new message and the search's error. |
| `Scan.LoopSearchSucceeds` | index.js:40-49 | One iteration after completed queries, when the search succeeds: the query and its batch are added, and the pass goes on only if the batch is complete. |
| `Scan.CompletedPassSearchesAll` | index.js:40 | A completed pass has searched every query. |
| `Scan.FailingQueryAborts` | index.js:40-41 | After completed queries, a query whose search throws aborts with that error. It adds no message. |
| `Scan.AbortsAt` | index.js:40-41 | A throwing search after a completed pass appends itself and sends nothing. |
| `Scan.AbortedPassIgnoresRest` | index.js:40-50 | Once a pass has aborted, later queries are neither searched nor sent. |
| `Scan.AbortedPrefixDecides` | index.js:40-50 | A pass whose first `n` queries abort it equals the pass over those `n` queries. |
| `Scan.StopsAtFailingQuery` | index.js:40-41 | A throwing search ends the whole pass. The queries up to it are searched, only the earlier queries' messages are sent, and the outcome is its error. |
| `Scan.CleanScanCompletes` | index.js:40-49 | When no search throws and every message can be built, the pass completes and searches the whole watchlist. |
| `Scan.AllListingsLength` | index.js:40-42 | The flattened listings number the sum of the per-query counts. |
| `Scan.AllListingsSlice` | index.js:40-42 | The listings of the `i`-th query occupy the slice of the flattened listings that starts after the earlier queries' listings. |
| `Scan.ListingPosition` | index.js:40-42 | The `k`-th listing of the `i`-th query is at `CountBefore(i) + k` of the flattened listings. |
| `Scan.CompletedPassSendsAllListings` | index.js:40-49 | A completed pass sends one message per listing of the whole watchlist, in watchlist order and then result order. |
| `Scan.CompletedPassPlacesListings` | index.js:40-49 | In a completed pass, the `k`-th listing of the `i`-th query is sent right after the listings of all earlier queries. |
| `Scan.BotPassSendsEveryListing` | index.js:36-50 | In the bot's pass, when no search throws and every field converts to a string, the whole watchlist is searched. The message of the `k`-th listing of the `i`-th query is sent right after the messages of the queries before it. |
| `Scan.AtMostThreePerQuery` | index.js:29-49 | A pass of the bot sends at most three messages per query searched, whether or not it completes. |
| `Scan.QueriesAreEntries` | index.js:12-40 | Every query searched is a non-empty, trimmed entry of the `WATCHLIST` setting. |
| `Scan.RunScan` | index.js:36-50 | The nested loops produce exactly the queries, messages and outcome that `ScanOnce` describes. |

## Left out

- The Discord client is not modelled: `new Client`, `login`, the `ready` handler and its log line. Whether `client.channels.fetch` succeeds is the input `channelFound`.
- Delivery is not modelled: `channel.send` is a successful append to the sent messages. If a send rejected, it would also end the pass, like a failing search.
- Request building is not modelled: the URL, its query parameters and the API key. The HTTP exchange is an input: for each watchlist position and query, `fetch` gives an `HttpOutcome`, and `res.json()` gives a `Body`.
- `setInterval` and `SCAN_INTERVAL_MINUTES` are not modelled, so neither is the possible overlap of a slow pass with the next one. Reading the environment through `dotenv` is not modelled either, beyond `WATCHLIST` arriving as an optional string.
- A rejected `scanOnce` is not modelled at the process level. The first pass runs inside the `ready` handler before `setInterval` is reached, so if it aborts, periodic scanning never starts. Later aborts are unhandled rejections.
- `DEALS_CHANNEL_ID`, `DISABLE_EBAY` and `SERPAPI_KEY` are not modelled. They are only passed along or never used.
- `Text.IsWhitespace` is concrete: it is the ECMAScript WhiteSpace and LineTerminator set, with the Space_Separator category as of Unicode 15. Later Unicode additions are not tracked.
- Number formatting (`Number::toString`) is the parameter `showNumber`. Parsing JSON numbers is not modelled: `Num(n)` holds the double that `res.json()` produced. So a literal that underflows, such as `1e-400`, arrives as `Num(0.0)` and is falsy. A literal that overflows to `Infinity` cannot be written as a real, and the sign of zero is not kept.
- `Js.Get`: reading `link` of a string item gives `String.prototype.link` in JavaScript, not `undefined`. This never shows, because such an item has an undefined title and is filtered out.
