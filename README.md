# HiddenMarket client core in Dafny

HiddenMarket is a single-page auction market. Signed-in users list items,
bid on them, buy them outright at a buy-now price, and chat with sellers.
The state lives in one React component, `App` in `src/App.tsx`. The
listings, bids and messages live in a hosted backend whose table changes
reach the client as live events. This project models that component's
core and proves properties of the model:

- **View composition.** The grid shows the cached listings filtered by tab
  (market, "my buying", "my selling"). On the market tab it also filters
  by category and by a case-insensitive title search. The result is sorted
  stably by the chosen key. The dashboard counters come from the same
  state.
- **Presentational derivations.** These are the countdown tick, the
  "time ago" text and the status badge.
- **The client state.** `Client.Market` is a class with the component's
  state variables as fields: the listing cache, the ids of listings I bid
  on, likes, notifications, chat partners, the open chat and the open
  listing with its bid history. It works over `Store.Backend`, a class
  holding the three tables. The component's actions are methods:
  - bid, buy now, early close, extend, delete;
  - toggle like, clear notifications;
  - open/close a listing, open/close a chat, send a message.

  The three live-event handlers (listing change, bid insert, message
  insert) are methods too. Each method states the new client state and the
  new tables. The lemmas beside them state what a user then sees.
- **Walk-throughs** (`Scenarios`). Each one is a client in a stated
  situation followed by one action or one delivered event. They show:
  - a bid that is accepted, then a lower bid that is rejected;
  - a bid accepted against a stale copy, which drops the stored price
    below a higher recorded bid;
  - a duplicate event that notifies twice;
  - buy-now unavailable, and buy-now that sells;
  - a live reply in the open chat, and a message from someone else.

Modules, in dependency order:
- `Wrappers`: Option.
- `Listings`: the records.
- `Text`: number rendering and parsing, padding, lower-casing, substring
  search, blank test.
- `Labels`: countdown, time ago, badge.
- `Sorting`: the comparator and the stable sort, both as a function and
  in place on an array.
- `Seqs`: filter, distinct lists, `Array.from(new Set(..))`.
- `View`: the displayed grid.
- `Store`: the backend tables, their updates and queries.
- `Client`: the component.
- `Scenarios`: the walk-throughs.

Conventions of the model:
- Times are integer milliseconds, and the current time is a parameter.
- Every backend request completes, in program order, before the next
  statement runs. It never fails.
- A confirmation dialog is a boolean input `confirmed`.
- A live event is a method call.
- Rows are kept in insertion order. For bids and messages that is
  `created_at` order.

What the handlers check and change, as the model follows them:
- The bid handler checks only that the amount is a number above the
  current price of the listing as the client holds it. It does not check
  the bid unit, the status or the end time. The bid box is hidden for
  inactive listings, but that is the view's doing, not the handler's.
  Because the check is made against a possibly stale copy, a lower bid
  can overwrite a higher price (`Scenarios.StaleBidAccepted`).
- Early close marks the listing sold whether or not there is a bid. The
  outcome only tells the two cases apart.
- Extending adds one hour to the end time of the open copy, which may be
  stale. It does not add to the stored end time.
- A listing change event replaces the open listing only when the payload
  has the same non-zero id. A deletion event carries no row.

## Model

| member | source | states |
|---|---|---|
| Labels.Split | src/App.tsx:74-77 | hours below 24, minutes and seconds below 60; days is 0 exactly when less than a day remains |
| Labels.SplitRecombines | src/App.tsx:74-77 | days, hours, minutes and seconds recombine to the remaining time in whole seconds |
| Labels.Countdown | src/App.tsx:66-83 | a sold listing shows "판매 완료" and an expired one "마감됨", both keeping the previous urgent flag; otherwise urgent exactly when under an hour remains |
| Labels.CountdownLabelShowsTimeLeft | src/App.tsx:74-82 | the label is the day form exactly when a day or more remains; the day form decodes to whole days and hours left, the clock form to hours, minutes and seconds left |
| Labels.UrgentShowsZeroHours | src/App.tsx:79-82 | an urgent countdown shows zero hours and the minutes and seconds left |
| Labels.DayLabelDecodes | src/App.tsx:81 | the day label (`DayLabel`) reads back as its two numbers |
| Labels.ClockLabelDecodes | src/App.tsx:82 | the clock label (`ClockLabel`) reads back as its three numbers and never contains the day marker |
| Labels.TimeAgo | src/App.tsx:50-58 | "just now" exactly under a minute; minute counts 1..59, hour counts 1..23, day counts at least 1 |
| Labels.TimeAgoCountsWholeUnits | src/App.tsx:50-58 | each bucket holds whole units of the elapsed time and is the largest unit that fits |
| Labels.AgoLabelDecodes | src/App.tsx:53-57 | each bucket's text (`AgoLabel`) reads back as that bucket and count |
| Labels.FormatTimeAgoShows | src/App.tsx:49-58 | `formatTimeAgo` (`FormatTimeAgo`) shows the bucket of the elapsed time, and "방금 전" exactly under a minute |
| Labels.BadgeOf | src/App.tsx:102-111 | sold gives "거래완료"; active gives "입찰중" exactly when the price is above the start price, otherwise "판매중" |
| Labels.BadgeLabelDistinct | src/App.tsx:102-111 | the three badge texts (`BadgeLabel`) are pairwise different |
| Text.ParseNatToString | src/App.tsx:81-82 | a rendered number reads back as itself |
| Text.Pad2RoundTrip | src/App.tsx:82 | `padStart(2, '0')` of a number below 100 is two digits that read back as the number |
| Text.LowerIdempotent | src/App.tsx:565 | lower-casing twice is lower-casing once |
| Text.ContainsIffOccurs | src/App.tsx:565 | `includes` holds exactly when the needle occurs at some offset |
| Text.ContainsEmpty | src/App.tsx:565 | every title includes the empty term |
| Sorting.OrderOf | src/App.tsx:568-572 | each recognised `sortBy` value selects its order; any other value sorts newest first |
| Sorting.CompareIsKeyDifference | src/App.tsx:569-572 | each comparator (`Compare`) is the difference of the listings' sort keys |
| Sorting.InsertPermutes | src/App.tsx:568-573 | insertion adds exactly the inserted listing |
| Sorting.InsertSorted | src/App.tsx:568-573 | insertion keeps a sorted sequence sorted |
| Sorting.InsertStable | src/App.tsx:568-573 | insertion keeps the relative order of listings with equal keys |
| Sorting.SortByCorrect | src/App.tsx:568-573 | the sort (`SortBy`, insertion by `Compare`) is sorted by the comparator, a permutation of its input, and stable |
| Sorting.SortByMembers | src/App.tsx:568-573 | sorting neither adds nor drops listings |
| Sorting.InsertAt | src/App.tsx:568-573 | insertion places the listing right after the last one not comparing above it |
| Sorting.InsertInPlace | src/App.tsx:568-573 | one insertion step on the array produces the specification insertion and leaves the unsorted tail alone |
| Sorting.SortInPlace | src/App.tsx:568-573 | the in-place sort leaves the array equal to the specification sort of its old contents |
| Seqs.FilterMembership | src/App.tsx:558-565 | `filter` keeps exactly the elements satisfying the predicate |
| Seqs.FilterTwice | src/App.tsx:564-565 | filtering by category then by search is filtering once by both |
| Seqs.FilterSame | src/App.tsx:558-565 | filters by pointwise-equal predicates agree |
| Seqs.FilterAll | src/App.tsx:563-566 | a filter that keeps everything is the identity |
| Seqs.AddNew | src/App.tsx:356-360 | `Set.add` holds exactly the old elements and the new one, appends the new one at the end when absent, and keeps a list free of repeats |
| Seqs.DedupCorrect | src/App.tsx:265 | `Array.from(new Set(ids))` (`Dedup`) has no repeats and the same elements as `ids` |
| Seqs.DedupOfDistinct | src/App.tsx:265 | deduplicating a list without repeats returns it unchanged |
| Seqs.DistinctInOrder | src/App.tsx:265 | adding the ids one by one builds the deduplicated list, without repeats and with the same elements |
| Seqs.DistinctCardinality | src/App.tsx:576 | a list without repeats has as many distinct elements as entries |
| View.FilterIsShown | src/App.tsx:555-566 | any `filter` by a predicate equal to the visibility rule computes the shown listings |
| View.SkippingEmptySearchIsHarmless | src/App.tsx:565 | skipping the empty search term gives the same answer as applying it |
| View.SearchIgnoresCase | src/App.tsx:565 | lower-casing the search term does not change what is shown |
| View.MarketShowsEverything | src/App.tsx:563-566 | with category "all" and no search term, the market tab shows the whole cache in cache order |
| View.ShownMembership | src/App.tsx:555-566 | a listing is in the shown list (`Shown`) exactly when it is cached and passes the tab, category and search rules (`Visible`) |
| View.SelectShown | src/App.tsx:555-566 | the source's chain of filters computes the shown listings |
| View.SortedMeans | src/App.tsx:568-573 | sorted by each menu choice means ascending price, descending price, earliest end first, or newest first |
| View.ComposeView | src/App.tsx:555-573 | the grid is the stable sort of the shown listings: it holds exactly the visible cached listings, as a permutation, sorted, with equal-key listings in cache order |
| View.SellCountMatchesSellingTab | src/App.tsx:575 | the "selling" counter (`SellCount`) equals the number of cards on the "my selling" tab |
| Store.Apply | src/App.tsx:467-531 | an update sets the columns it assigns and leaves every other column as it was; a sold listing stays sold |
| Store.PatchedAt | src/App.tsx:467 | `update(..).eq('id', id)` (`Patched`) patches every row with the id in place and keeps the others |
| Store.PatchedRows | src/App.tsx:467 | after an update every row with the id is a patched old row and every other row is kept |
| Store.WithoutBidsFor | src/App.tsx:492 | the bids left are exactly those on other listings |
| Store.WithoutListing | src/App.tsx:493 | the rows left are exactly those with other ids |
| Store.BidderProducts | src/App.tsx:263 | a listing id is returned exactly when the user has a bid on it |
| Store.BidHistory | src/App.tsx:277 | the history holds exactly the bids on the listing |
| Store.BidHistoryIsNewestFirst | src/App.tsx:277 | the history is the listing's bids in ledger order, reversed: newest first |
| Store.TopBid | src/App.tsx:508 | none exactly when the listing has no bid; otherwise a bid on the listing at least as high as every other |
| Store.Involving | src/App.tsx:354 | exactly the messages the user sent or received |
| Store.Conversation | src/App.tsx:367-370 | exactly the messages between the two users |
| Store.Backend.InsertBid | src/App.tsx:466 | the bid is appended to the bids table |
| Store.Backend.UpdateListing | src/App.tsx:467 | the listings table becomes its patched version |
| Store.Backend.DeleteBidsFor | src/App.tsx:492 | the listing's bids are removed |
| Store.Backend.DeleteListing | src/App.tsx:493 | the listing's rows are removed |
| Store.Backend.InsertMessage | src/App.tsx:376-378 | the message is appended to the messages table |
| Client.BidVerdict | src/App.tsx:459-464 | ignored exactly without an open listing or with an empty box; rejected exactly for a non-number or an amount not above the held price; accepted otherwise, at the entered amount |
| Client.BidUnitNotEnforced | src/App.tsx:459-464 | one above the current price is accepted even when the bid unit is larger |
| Client.Toggled | src/App.tsx:550-551 | the toggled id flips membership and every other id keeps it |
| Client.ToggleTwice | src/App.tsx:548-553 | toggling twice restores the like set |
| Client.ToggleCount | src/App.tsx:577 | the like counter (`likedItems.size`) moves by exactly one per toggle |
| Client.Partners | src/App.tsx:356-361 | never me, no repeats, and exactly the senders and receivers other than me |
| Client.CollectPartners | src/App.tsx:356-361 | the `forEach` loop builds that partner list |
| Client.ChatListIsCounterparts | src/App.tsx:353-363 | the fetched partner list holds exactly the users I exchanged a message with |
| Client.BidNotice | src/App.tsx:223-226 | a notice exactly for a bid by someone else on a listing I bid on, carrying its amount |
| Client.MessageNotice | src/App.tsx:239-241 | a notice exactly for a message to me whose sender is not the open partner |
| Client.LiveChatMatchesReload | src/App.tsx:234-235 | appending live messages keeps the open conversation equal to what reopening it would fetch |
| Client.ChangeKeepsSelectionOpen | src/App.tsx:211-213 | the selection after a change event (`SelectionAfterChange`) neither opens nor closes the listing view and keeps its id |
| Client.BidPriceShows | src/App.tsx:466-471 | after a bid every fetched copy of the listing has the new price |
| Client.ClosedShowsSold | src/App.tsx:512-521 | after an early close every fetched copy of the listing is sold |
| Client.PurchaseShowsSold | src/App.tsx:529-545 | after a purchase every fetched copy is sold at the buy-now price |
| Client.ExtensionShows | src/App.tsx:479-481 | after an extension every stored row of the listing ends one hour after the held end time |
| Client.MyBidsAfterBid | src/App.tsx:263-266 | after my bid the listing is among the ids of listings I bid on |
| Client.Market.SyncedContents | src/App.tsx:255-266 | a fresh fetch holds every listing once per row, newest first, and each listing I bid on once |
| Client.Market.constructor | src/App.tsx:201-204 | login fetches the listings, my bid ids and the partner list; nothing else is open |
| Client.Market.RerunLoginEffect | src/App.tsx:200-248 | when the open chat changed since the last render, the listings, my bid ids and the partner list are fetched again; otherwise they are kept |
| Client.Market.Refresh | src/App.tsx:255-266 | the cache becomes the table newest first, and my bid ids become the deduplicated ids of my bids |
| Client.Market.RefreshChatList | src/App.tsx:353-363 | the partner list becomes the one computed from the messages I sent or received |
| Client.Market.OpenListing | src/App.tsx:754 | the listing opens with its bid history, newest first |
| Client.Market.CloseModal | src/App.tsx:250-253 | the listing view closes |
| Client.Market.PlaceBid | src/App.tsx:458-473 | the outcome is the verdict; if accepted, the bid is appended, the price set, the cache refetched and the history refreshed with my bid first; otherwise nothing changes |
| Client.Market.ExtendTime | src/App.tsx:475-486 | when confirmed, the stored end time becomes the held end time plus one hour and the cache is refetched; otherwise nothing changes |
| Client.Market.DeleteListing | src/App.tsx:488-500 | when confirmed, the listing's bids and rows are removed, the view closes, and the listing is neither cached nor among my bid ids |
| Client.Market.EarlyClose | src/App.tsx:503-523 | when confirmed, the listing is marked sold with or without a bid; the outcome names the top bid or reports none; the view closes and the cache shows it sold |
| Client.Market.BuyNow | src/App.tsx:525-546 | with a non-zero buy-now price (`OffersBuyNow`) and confirmation, the listing is sold at that price, one bid at that price is recorded, the purchase is announced and the view closes; otherwise nothing changes |
| Client.Market.ToggleLike | src/App.tsx:548-553 | the like set becomes the toggled set |
| Client.Market.ClearNotifications | src/App.tsx:648 | the notification list becomes empty |
| Client.Market.BidCount | src/App.tsx:576 | the bid counter is the number of distinct listings I bid on |
| Client.Market.OnListingChanged | src/App.tsx:208-214 | the cache is refetched, and the open listing is replaced only by a row with its own non-zero id |
| Client.Market.OnBidInserted | src/App.tsx:215-229 | the open history is refreshed if the bid is on the open listing; the competing-bid notice is prepended when due; the cache is refetched |
| Client.Market.OnMessageInserted | src/App.tsx:230-242 | ignored unless I am sender or receiver; otherwise the partner list is refetched, the message appended if it belongs to the open chat (`InOpenChat`), and the new-message notice prepended when due |
| Client.Market.OpenChat | src/App.tsx:365-372 | the partner becomes the open chat and its conversation is fetched, oldest first; if the open chat changed, the login effect fetches again |
| Client.Market.StartChatWithSeller | src/App.tsx:382-387 | refused exactly for my own listing, changing nothing; otherwise opens the chat with the seller, closes the listing, and fetches again if the open chat changed |
| Client.Market.CloseChat | src/App.tsx:794 | an open chat is left and the login effect fetches again; otherwise nothing changes |
| Client.Market.SendMessage | src/App.tsx:374-380 | sent exactly when the text is not blank after `trim` (`Text.Blank`) and a chat is open; then one message to the partner is stored |
| Scenarios.FirstBidAccepted | src/App.tsx:458-473 | 11000 on a listing at 10000 is accepted, recorded once, and shown as the new price |
| Scenarios.ChangeEventRefreshesOpenListing | src/App.tsx:208-214 | the change event replaces the open copy by the updated row |
| Scenarios.LowerBidRejected | src/App.tsx:462-464 | 10500 against 11000 is rejected and changes neither table |
| Scenarios.StaleBidAccepted | src/App.tsx:462-467 | a bid checked against a stale copy is accepted and drops the stored price below a recorded higher bid |
| Scenarios.DuplicateBidEvent | src/App.tsx:223-226 | the same bid event delivered twice leaves two notices |
| Scenarios.BuyNowUnavailable | src/App.tsx:526 | without a buy-now price the purchase does nothing |
| Scenarios.BuyNowSells | src/App.tsx:525-546 | a purchase sells at the buy-now price, records one bid and announces it |
| Scenarios.ChatReply | src/App.tsx:230-236 | the partner's live reply is appended without a notice, and the chat stays what reopening would fetch |
| Scenarios.ChatFromSomeoneElse | src/App.tsx:234-241 | a message from someone else is announced and not appended |

## Left out

- Login, logout, profile editing and session storage (lines 281-351): the model starts from a logged-in user and treats the user id as fixed.
- Listing upload and image storage (lines 389-456): they create rows the model takes as given.
- The welcome notification (lines 269-271): it reads a value of `notifications` captured at an earlier render, so what it does depends on React's render timing.
- Failed backend requests and their alerts (lines 483, 495): every request succeeds. Alerts and the `confetti` call are not modelled. Rejections and outcomes are return values.
- Out-of-order responses: overlapping fetches can resolve in any order, with the last response winning. The model completes each request before the next statement.
- Backend-generated ids and timestamps: bid and message records carry no id or `created_at`. Table order stands for `created_at` order.
- The subscription lifecycle (lines 206-207, 244-248): events are method calls on the current state. When the open chat changes, the effect's refetches are modelled (`Client.Market.RerunLoginEffect`), and replacing the channel is not.
- UI-only state and rendering: chat, upload and notification panel flags, the loading flag, input clearing, JSX and CSS. So is which buttons are shown: seller controls for the owner, the bid box only for active listings, the buy-now row only for active listings. Each handler is modelled as callable whenever the component could call it.
- `formatCurrency` and the notification texts: a notice is a value carrying its amount, sender or title, not the formatted Korean string.
- Date parsing and `setInterval`: timestamps are integer milliseconds, and `Labels.Countdown` is one tick at a given remaining time.
- `src/main.tsx`: it only mounts the component.
- Text.Lower: lower-cases ASCII letters only, while `toLowerCase` maps every Unicode letter.
- Client.Entry: `parseInt` is not modelled; the bid box enters as its result (empty, not a number, or a number). `parseInt` also reads a leading number out of text such as "12abc", and the model takes that number as given.
- Store.TopBid: among equal highest amounts it returns the earliest bid. The backend's choice among them is unspecified, so the contract does not state it.
- Client.Market.Refresh: the rows are sorted newest first from table order with a stable sort. The backend's order among rows with equal `created_at` is unspecified.
