/**
 * The state of the `App` component and what its actions and live-event
 * handlers do to it and to the backend. Every backend request completes
 * before the next statement runs (the responses do not race), it never
 * fails, and every confirmation dialog is an input `confirmed`.
 */
module Client {
  import opened Wrappers
  import opened Listings
  import opened Text
  import opened Seqs
  import opened Sorting
  import opened Store
  import Labels

  // ---------------------------------------------------------------------------
  // Decisions the handlers take

  /** The bid box as `parseInt` reads it: empty, not a number, or a number. */
  datatype Entry = Blank | NotANumber | Number(value: int)

  datatype BidOutcome =
    | Ignored            // no open listing, or an empty box: nothing happens
    | TooLow             // the "bid higher than the current price" alert
    | Accepted(amount: int)

  /**
   * `handleBid`'s checks against the open listing as the client holds it.
   * Only the current price is checked: not the bid unit, the status or the end time.
   */
  function BidVerdict(selected: Option<Listing>, entry: Entry): (o: BidOutcome)
    ensures o == Ignored <==> selected.None? || entry == Blank
    ensures o == TooLow <==>
      selected.Some? && (entry == NotANumber || (entry.Number? && entry.value <= selected.value.currentPrice))
    ensures o.Accepted? <==> selected.Some? && entry.Number? && entry.value > selected.value.currentPrice
    ensures o.Accepted? ==> o.amount == entry.value
  {
    if selected.None? || entry == Blank then Ignored
    else match entry
      case NotANumber => TooLow
      case Number(a) => if a <= selected.value.currentPrice then TooLow else Accepted(a)
  }

  /** One above the current price is always enough: the bid unit is only a placeholder hint. */
  lemma BidUnitNotEnforced(p: Listing)
    ensures BidVerdict(Some(p), Number(p.currentPrice + 1)) == Accepted(p.currentPrice + 1)
    ensures p.bidUnit > 1 ==> BidVerdict(Some(p), Number(p.currentPrice + 1)).amount < p.currentPrice + p.bidUnit
  {
  }

  /** `!selectedProduct.buy_now_price` is false: a price is set and it is not 0. */
  predicate OffersBuyNow(p: Listing) {
    p.buyNowPrice.Some? && p.buyNowPrice.value != 0
  }

  /** The result of the early-close action. */
  datatype CloseOutcome =
    | NotClosed                        // no open listing, or not confirmed
    | SoldToTopBidder(top: BidRecord)  // the highest bid the backend returned
    | ClosedUnsold                     // no bids: the listing is marked sold all the same

  /** `toggleLike`: the like set with `id` added if it was absent and removed if it was present. */
  function Toggled(likes: set<int>, id: int): (r: set<int>)
    ensures id in r <==> id !in likes
    ensures forall x :: x != id ==> (x in r <==> x in likes)
  {
    if id in likes then likes - {id} else likes + {id}
  }

  /** Toggling the same listing twice restores the like set. */
  lemma ToggleTwice(likes: set<int>, id: int)
    ensures Toggled(Toggled(likes, id), id) == likes
  {
  }

  /** The like counter moves by exactly one on every toggle. */
  lemma ToggleCount(likes: set<int>, id: int)
    ensures |Toggled(likes, id)| == if id in likes then |likes| - 1 else |likes| + 1
  {
  }

  /** The `users.add` of `fetchChatList`: the user themself is never added. */
  function AddPartner(users: seq<string>, x: string, me: string): seq<string> {
    if x != me then AddNew(users, x) else users
  }

  /**
   * The partner list built from the fetched messages: every counterpart other
   * than `me`, once each, in the order of first appearance.
   */
  function Partners(data: seq<Message>, me: string): (users: seq<string>)
    ensures me !in users
    ensures Distinct(users)
    ensures forall x :: x in users <==> x != me && exists m :: m in data && (m.senderId == x || m.receiverId == x)
    decreases |data|
  {
    if data == [] then []
    else
      var last := data[|data| - 1];
      var init := data[..|data| - 1];
      assert data == init + [last];
      AddPartner(AddPartner(Partners(init, me), last.senderId, me), last.receiverId, me)
  }

  /** `fetchChatList`'s `forEach` loop over the fetched messages, adding to an insertion-ordered set. */
  method CollectPartners(data: seq<Message>, me: string) returns (users: seq<string>)
    ensures users == Partners(data, me)
    ensures me !in users && Distinct(users)
  {
    users := [];
    var i := 0;
    while i < |data|
      invariant 0 <= i <= |data|
      invariant users == Partners(data[..i], me)
    {
      assert data[..i + 1][..i] == data[..i];
      var m := data[i];
      if m.senderId != me && m.senderId !in users {
        users := users + [m.senderId];
      }
      if m.receiverId != me && m.receiverId !in users {
        users := users + [m.receiverId];
      }
      i := i + 1;
    }
    assert data[..|data|] == data;
  }

  /** Fetched for `me`, the partner list holds exactly the people `me` has exchanged a message with. */
  lemma ChatListIsCounterparts(msgs: seq<Message>, me: string)
    ensures forall x :: x in Partners(Involving(msgs, me), me) <==>
      x != me && exists m :: m in msgs && Between(m, me, x)
  {
    var data := Involving(msgs, me);
    forall x, m | x != me && m in msgs && Between(m, me, x)
      ensures exists m' :: m' in data && (m'.senderId == x || m'.receiverId == x)
    {
      assert m in data;
    }
  }

  /** The competing-bid notice for a bid insert event, if any. */
  function BidNotice(bid: BidRecord, myBids: seq<int>, myId: string): (n: Option<Notice>)
    ensures n.Some? <==> bid.productId in myBids && bid.bidderId != myId
    ensures n.Some? ==> n.value == CompetingBid(bid.amount)
  {
    if bid.productId in myBids && bid.bidderId != myId then Some(CompetingBid(bid.amount)) else None
  }

  /** `activeChatUser` used as a condition: set and not the empty string. */
  predicate Truthy(active: Option<string>) {
    active.Some? && active.value != ""
  }

  /** Whether a message belongs to the open conversation: its sender or receiver is the open partner. */
  predicate InOpenChat(active: Option<string>, m: Message) {
    Truthy(active) && (m.senderId == active.value || m.receiverId == active.value)
  }

  /** The new-message notice for a message insert event, if any. */
  function MessageNotice(m: Message, myId: string, active: Option<string>): (n: Option<Notice>)
    ensures n.Some? <==> m.receiverId == myId && active != Some(m.senderId)
    ensures n.Some? ==> n.value == NewMessage(m.senderId)
  {
    if m.receiverId == myId && active != Some(m.senderId) then Some(NewMessage(m.senderId)) else None
  }

  /**
   * Appending live messages keeps the open conversation equal to what reopening
   * the room would fetch: a new message is appended exactly when it is between
   * me and the open partner.
   */
  lemma LiveChatMatchesReload(msgs: seq<Message>, m: Message, me: string, partner: string)
    requires partner != me && partner != ""
    ensures Conversation(msgs + [m], me, partner)
         == Conversation(msgs, me, partner)
            + (if (m.senderId == me || m.receiverId == me) && InOpenChat(Some(partner), m) then [m] else [])
  {
    assert (msgs + [m])[..|msgs|] == msgs;
  }

  /** The open listing after a listing change event: replaced when the payload has the same, non-zero id. */
  function SelectionAfterChange(selected: Option<Listing>, payload: Option<Listing>): Option<Listing> {
    if selected.Some? && payload.Some? && payload.value.id != 0 && payload.value.id == selected.value.id then payload
    else selected
  }

  /** A change event cannot close the open listing or open one. */
  lemma ChangeKeepsSelectionOpen(selected: Option<Listing>, payload: Option<Listing>)
    ensures SelectionAfterChange(selected, payload).Some? <==> selected.Some?
    ensures SelectionAfterChange(selected, payload).Some? ==>
      SelectionAfterChange(selected, payload).value.id == selected.value.id
  {
  }

  /** Every listing read back after a bid carries the new price. */
  lemma BidPriceShows(rows: seq<Listing>, id: int, amount: int)
    ensures forall p :: p in SortBy(Newest, Patched(rows, id, SetPrice(amount))) && p.id == id ==> p.currentPrice == amount
  {
    SortByMembers(Newest, Patched(rows, id, SetPrice(amount)));
    PatchedRows(rows, id, SetPrice(amount));
  }

  /** Every listing read back after an early close is sold. */
  lemma ClosedShowsSold(rows: seq<Listing>, id: int)
    ensures forall p :: p in SortBy(Newest, Patched(rows, id, MarkSold)) && p.id == id ==> p.status == Sold
  {
    SortByMembers(Newest, Patched(rows, id, MarkSold));
    PatchedRows(rows, id, MarkSold);
  }

  /** Every listing read back after a purchase is sold, at the buy-now price. */
  lemma PurchaseShowsSold(rows: seq<Listing>, id: int, price: int)
    ensures forall p :: p in SortBy(Newest, Patched(rows, id, MarkSoldAt(price))) && p.id == id ==>
      p.status == Sold && p.currentPrice == price
  {
    SortByMembers(Newest, Patched(rows, id, MarkSoldAt(price)));
    PatchedRows(rows, id, MarkSoldAt(price));
  }

  /** Every row of listing `id` ends at `t`. */
  ghost predicate EndsAt(rows: seq<Listing>, id: int, t: int) {
    forall q :: q in rows && q.id == id ==> q.endTime == t
  }

  /** An extension moves the end time of every row with the id to one hour past `from`. */
  lemma ExtensionShows(rows: seq<Listing>, id: int, from: int)
    ensures EndsAt(Patched(rows, id, SetEndTime(from + Labels.HourMs)), id, from + 3600000)
  {
    PatchedRows(rows, id, SetEndTime(from + Labels.HourMs));
  }

  /** The bid ids read back for `me` include every listing `me` has a bid on. */
  lemma MyBidsAfterBid(bids: seq<BidRecord>, b: BidRecord)
    ensures b.productId in Dedup(BidderProducts(bids + [b], b.bidderId))
  {
    DedupCorrect(BidderProducts(bids + [b], b.bidderId));
    assert b in bids + [b];
  }

  // ---------------------------------------------------------------------------
  // The component state

  class Market {
    const myId: string
    const backend: Backend
    var products: seq<Listing>
    var myBids: seq<int>
    var likedItems: set<int>
    var notifications: seq<Notice>
    var chatList: seq<string>
    var activeChatUser: Option<string>
    var chatMessages: seq<Message>
    var selectedProduct: Option<Listing>
    var bidLogs: seq<BidRecord>

    /** What every handler keeps: a logged-in user and the shape of the fetched lists. */
    ghost predicate Valid()
      reads this`myBids, this`chatList, this`products
    {
      && myId != ""
      && Distinct(myBids)
      && Distinct(chatList)
      && myId !in chatList
      && Sorted(Newest, products)
    }

    /** The listing cache and the bid ids are what `fetchData` reads from the backend now. */
    ghost predicate Synced()
      reads this`products, this`myBids, backend`listings, backend`bids
    {
      && products == SortBy(Newest, backend.listings)
      && myBids == Dedup(BidderProducts(backend.bids, myId))
    }

    /** The partner list is what `fetchChatList` reads from the backend now. */
    ghost predicate PartnersFetched()
      reads this`chatList, backend`messages
    {
      chatList == Partners(Involving(backend.messages, myId), myId)
    }

    /** A fresh fetch holds every listing once per row, newest first, and each listing I bid on once. */
    lemma SyncedContents()
      requires Synced()
      ensures forall p :: p in products <==> p in backend.listings
      ensures multiset(products) == multiset(backend.listings)
      ensures Sorted(Newest, products)
      ensures Distinct(myBids)
      ensures forall x :: x in myBids <==> exists b :: b in backend.bids && b.bidderId == myId && b.productId == x
    {
      SortByCorrect(Newest, backend.listings);
      SortByMembers(Newest, backend.listings);
      DedupCorrect(BidderProducts(backend.bids, myId));
    }

    /** After my bid: it heads the open history, the listing counts as one I bid on, and every cached copy has the new price. */
    ghost predicate ShowsBid(id: int, amount: int)
      reads this`bidLogs, this`myBids, this`products
    {
      && |bidLogs| > 0 && bidLogs[0] == BidRecord(id, myId, amount)
      && id in myBids
      && forall p :: p in products && p.id == id ==> p.currentPrice == amount
    }

    /** After a deletion: no cached listing has the id, and it is no longer among the listings I bid on. */
    ghost predicate ShowsDeleted(id: int)
      reads this`products, this`myBids
    {
      && (forall p :: p in products ==> p.id != id)
      && id !in myBids
    }

    /** After an early close: every cached copy of the listing is sold. */
    ghost predicate ShowsSold(id: int)
      reads this`products
    {
      forall p :: p in products && p.id == id ==> p.status == Sold
    }

    /** After a purchase: the listing counts as one I bid on, and every cached copy is sold at the price. */
    ghost predicate ShowsPurchase(id: int, price: int)
      reads this`myBids, this`products
    {
      && id in myBids
      && forall p :: p in products && p.id == id ==> p.status == Sold && p.currentPrice == price
    }

    /** The login effect: the initial `fetchData` and `fetchChatList`. */
    constructor (myId: string, backend: Backend)
      requires myId != ""
      ensures Valid() && this.myId == myId && this.backend == backend
      ensures Synced() && PartnersFetched()
      ensures likedItems == {} && notifications == [] && activeChatUser == None && chatMessages == []
      ensures selectedProduct == None && bidLogs == []
    {
      this.myId := myId;
      this.backend := backend;
      products := [];
      myBids := [];
      likedItems := {};
      notifications := [];
      chatList := [];
      activeChatUser := None;
      chatMessages := [];
      selectedProduct := None;
      bidLogs := [];
      new;
      assert Valid();
      Refresh();
      RefreshChatList();
    }

    /** `fetchData(myId)`: replaces the listing cache and the ids of the listings I bid on. */
    method Refresh()
      requires Valid()
      modifies this`products, this`myBids
      ensures Valid() && Synced()
    {
      var rows := backend.listings;
      var a := new Listing[|rows|](i requires 0 <= i < |rows| => rows[i]);
      assert a[..] == rows;
      SortInPlace(a, Newest);
      products := a[..];
      myBids := DistinctInOrder(BidderProducts(backend.bids, myId));
      SortByCorrect(Newest, rows);
    }

    /** `fetchChatList(myId)`. */
    method RefreshChatList()
      requires Valid()
      modifies this`chatList
      ensures Valid()
      ensures PartnersFetched()
    {
      chatList := CollectPartners(Involving(backend.messages, myId), myId);
    }

    /**
     * The login effect lists `activeChatUser` among its dependencies, so a
     * render that changed the open chat runs it again: `fetchData` and
     * `fetchChatList` once more. `before` is the open chat of the previous render.
     */
    method RerunLoginEffect(before: Option<string>)
      requires Valid()
      modifies this`products, this`myBids, this`chatList
      ensures Valid()
      ensures activeChatUser != before ==> Synced() && PartnersFetched()
      ensures activeChatUser == before ==>
        products == old(products) && myBids == old(myBids) && chatList == old(chatList)
    {
      if activeChatUser != before {
        Refresh();
        RefreshChatList();
      }
    }

    /** Clicking a card: opens the listing and fetches its bid history. */
    method OpenListing(p: Listing)
      requires Valid()
      modifies this`selectedProduct, this`bidLogs
      ensures Valid()
      ensures selectedProduct == Some(p) && bidLogs == BidHistory(backend.bids, p.id)
    {
      selectedProduct := Some(p);
      bidLogs := BidHistory(backend.bids, p.id);
    }

    /** `handleCloseModal`. */
    method CloseModal()
      requires Valid()
      modifies this`selectedProduct
      ensures Valid() && selectedProduct == None
    {
      selectedProduct := None;
    }

    /**
     * `handleBid`: checks the entry against the open listing as held here, then
     * records the bid, sets the listing's price and fetches again.
     */
    method PlaceBid(entry: Entry) returns (outcome: BidOutcome)
      requires Valid()
      modifies this`products, this`myBids, this`bidLogs, backend`bids, backend`listings
      ensures Valid()
      ensures outcome == BidVerdict(selectedProduct, entry)
      ensures outcome.Accepted? ==>
        var id := selectedProduct.value.id;
        && backend.bids == old(backend.bids) + [BidRecord(id, myId, outcome.amount)]
        && backend.listings == Patched(old(backend.listings), id, SetPrice(outcome.amount))
        && Synced()
        && bidLogs == BidHistory(backend.bids, id)
        && ShowsBid(id, outcome.amount)
    ensures !outcome.Accepted? ==>
        && backend.bids == old(backend.bids) && backend.listings == old(backend.listings)
        && products == old(products) && myBids == old(myBids) && bidLogs == old(bidLogs)
    {
      outcome := BidVerdict(selectedProduct, entry);
      if outcome.Accepted? {
        var id := selectedProduct.value.id;
        var bid := BidRecord(id, myId, outcome.amount);
        ghost var bidsBefore, rowsBefore := backend.bids, backend.listings;
        backend.InsertBid(bid);
        backend.UpdateListing(id, SetPrice(outcome.amount));
        Refresh();
        bidLogs := BidHistory(backend.bids, id);
        assert ShowsBid(id, outcome.amount) by {
          BidHistoryAppend(bidsBefore, bid, id);
          assert bidLogs == [bid] + BidHistory(bidsBefore, id);
          MyBidsAfterBid(bidsBefore, bid);
          assert myBids == Dedup(BidderProducts(bidsBefore + [bid], bid.bidderId));
          BidPriceShows(rowsBefore, id, outcome.amount);
          assert products == SortBy(Newest, Patched(rowsBefore, id, SetPrice(outcome.amount)));
        }
      }
    }

    /**
     * `handleExtendTime`: sets the end time to one hour after the end time of
     * the open listing as held here, then fetches again.
     */
    method ExtendTime(confirmed: bool)
      requires Valid()
      modifies this`products, this`myBids, backend`listings
      ensures Valid()
      ensures selectedProduct.Some? && confirmed ==>
        var p := selectedProduct.value;
        && backend.listings == Patched(old(backend.listings), p.id, SetEndTime(p.endTime + Labels.HourMs))
        && Synced()
        && EndsAt(backend.listings, p.id, p.endTime + 3600000)
      ensures !(selectedProduct.Some? && confirmed) ==>
        backend.listings == old(backend.listings) && products == old(products) && myBids == old(myBids)
    {
      if selectedProduct.None? || !confirmed {
        return;
      }
      var p := selectedProduct.value;
      ghost var rowsBefore := backend.listings;
      backend.UpdateListing(p.id, SetEndTime(p.endTime + Labels.HourMs));
      ExtensionShows(rowsBefore, p.id, p.endTime);
      Refresh();
    }

    /** `handleDeleteProduct`: removes the listing's bids, then the listing, closes it and fetches again. */
    method DeleteListing(confirmed: bool)
      requires Valid()
      modifies this`products, this`myBids, this`selectedProduct, backend`bids, backend`listings
      ensures Valid()
      ensures old(selectedProduct).Some? && confirmed ==>
        var id := old(selectedProduct).value.id;
        && backend.bids == WithoutBidsFor(old(backend.bids), id)
        && backend.listings == WithoutListing(old(backend.listings), id)
        && selectedProduct == None
        && Synced()
        && ShowsDeleted(id)
      ensures !(old(selectedProduct).Some? && confirmed) ==>
        && backend.bids == old(backend.bids) && backend.listings == old(backend.listings)
        && products == old(products) && myBids == old(myBids) && selectedProduct == old(selectedProduct)
    {
      if selectedProduct.None? || !confirmed {
        return;
      }
      var id := selectedProduct.value.id;
      backend.DeleteBidsFor(id);
      backend.DeleteListing(id);
      CloseModal();
      Refresh();
      SyncedContents();
    }

    /**
     * `handleEarlyClose`: asks the backend for the highest bid, marks the
     * listing sold whether there is one or not, closes it and fetches again.
     */
    method EarlyClose(confirmed: bool) returns (outcome: CloseOutcome)
      requires Valid()
      modifies this`products, this`myBids, this`selectedProduct, backend`listings
      ensures Valid()
      ensures old(selectedProduct).Some? && confirmed ==>
        var id := old(selectedProduct).value.id;
        && outcome == (match TopBid(backend.bids, id)
                       case None => ClosedUnsold
                       case Some(b) => SoldToTopBidder(b))
        && backend.listings == Patched(old(backend.listings), id, MarkSold)
        && selectedProduct == None
        && Synced()
        && ShowsSold(id)
      ensures !(old(selectedProduct).Some? && confirmed) ==>
        && outcome == NotClosed
        && backend.listings == old(backend.listings)
        && products == old(products) && myBids == old(myBids) && selectedProduct == old(selectedProduct)
    {
      if selectedProduct.None? || !confirmed {
        return NotClosed;
      }
      var id := selectedProduct.value.id;
      var top := TopBid(backend.bids, id);
      if top.Some? {
        backend.UpdateListing(id, MarkSold);
        outcome := SoldToTopBidder(top.value);
      } else {
        backend.UpdateListing(id, MarkSold);
        outcome := ClosedUnsold;
      }
      selectedProduct := None;
      Refresh();
      ClosedShowsSold(old(backend.listings), id);
    }

    /**
     * `handleBuyNow`: when the open listing offers a buy-now price, marks it
     * sold at that price, records a bid at that price, announces the purchase,
     * closes it and fetches again.
     */
    method BuyNow(confirmed: bool)
      requires Valid()
      modifies this`products, this`myBids, this`selectedProduct, this`notifications, backend`bids, backend`listings
      ensures Valid()
      ensures old(selectedProduct).Some? && OffersBuyNow(old(selectedProduct).value) && confirmed ==>
        var p := old(selectedProduct).value;
        var price := p.buyNowPrice.value;
        && backend.listings == Patched(old(backend.listings), p.id, MarkSoldAt(price))
        && backend.bids == old(backend.bids) + [BidRecord(p.id, myId, price)]
        && notifications == [Purchased(p.title)] + old(notifications)
        && selectedProduct == None
        && Synced()
        && ShowsPurchase(p.id, price)
      ensures !(old(selectedProduct).Some? && OffersBuyNow(old(selectedProduct).value) && confirmed) ==>
        && backend.bids == old(backend.bids) && backend.listings == old(backend.listings)
        && products == old(products) && myBids == old(myBids)
        && selectedProduct == old(selectedProduct) && notifications == old(notifications)
    {
      if selectedProduct.None? || !OffersBuyNow(selectedProduct.value) || !confirmed {
        return;
      }
      var p := selectedProduct.value;
      var price := p.buyNowPrice.value;
      ghost var before := backend.bids;
      backend.UpdateListing(p.id, MarkSoldAt(price));
      backend.InsertBid(BidRecord(p.id, myId, price));
      notifications := [Purchased(p.title)] + notifications;
      CloseModal();
      Refresh();
      MyBidsAfterBid(before, BidRecord(p.id, myId, price));
      PurchaseShowsSold(old(backend.listings), p.id, price);
    }

    /** `toggleLike`: copies the like set, adds or deletes the id, and stores the copy. */
    method ToggleLike(id: int)
      requires Valid()
      modifies this`likedItems
      ensures Valid()
      ensures likedItems == Toggled(old(likedItems), id)
    {
      var newLikes := likedItems;
      if id in newLikes {
        newLikes := newLikes - {id};
      } else {
        newLikes := newLikes + {id};
      }
      likedItems := newLikes;
    }

    /** The "clear all" button of the notification list. */
    method ClearNotifications()
      requires Valid()
      modifies this`notifications
      ensures Valid() && notifications == []
    {
      notifications := [];
    }

    /** `myBids.length`: the number of distinct listings I have bid on. */
    function BidCount(): (n: nat)
      reads this`myBids, this`chatList, this`products
      requires Valid()
      ensures n == |set id | id in myBids|
    {
      DistinctCardinality(myBids);
      |myBids|
    }

    /**
     * A listing change event: fetches again, and replaces the open listing by
     * the payload when their ids match. A deletion carries no row (`None`).
     */
    method OnListingChanged(payload: Option<Listing>)
      requires Valid()
      modifies this`products, this`myBids, this`selectedProduct
      ensures Valid() && Synced()
      ensures selectedProduct == SelectionAfterChange(old(selectedProduct), payload)
    {
      Refresh();
      if selectedProduct.Some? && payload.Some? && payload.value.id != 0 && payload.value.id == selectedProduct.value.id {
        selectedProduct := payload;
      }
    }

    /**
     * A bid insert event: refreshes the open listing's history if the bid is
     * on it, notifies when someone else bid on a listing I bid on, and
     * fetches again.
     */
    method OnBidInserted(bid: BidRecord)
      requires Valid()
      modifies this`products, this`myBids, this`bidLogs, this`notifications
      ensures Valid() && Synced()
      ensures selectedProduct.Some? && bid.productId == selectedProduct.value.id ==>
        bidLogs == BidHistory(backend.bids, bid.productId)
      ensures !(selectedProduct.Some? && bid.productId == selectedProduct.value.id) ==> bidLogs == old(bidLogs)
      ensures BidNotice(bid, old(myBids), myId).Some? ==>
        notifications == [BidNotice(bid, old(myBids), myId).value] + old(notifications)
      ensures BidNotice(bid, old(myBids), myId).None? ==> notifications == old(notifications)
    {
      if selectedProduct.Some? && bid.productId == selectedProduct.value.id {
        bidLogs := BidHistory(backend.bids, selectedProduct.value.id);
      }
      var notice := BidNotice(bid, myBids, myId);
      if notice.Some? {
        notifications := [notice.value] + notifications;
      }
      Refresh();
    }

    /**
     * A message insert event. Ignored unless I sent or received it; otherwise
     * refetches the partner list, appends the message to the open conversation
     * if it belongs there, and notifies when it was sent to me by someone
     * other than the open partner.
     */
    method OnMessageInserted(msg: Message)
      requires Valid()
      modifies this`chatList, this`chatMessages, this`notifications
      ensures Valid()
      ensures (msg.senderId == myId || msg.receiverId == myId) ==> PartnersFetched()
      ensures !(msg.senderId == myId || msg.receiverId == myId) ==> chatList == old(chatList)
      ensures chatMessages == old(chatMessages) +
        (if (msg.senderId == myId || msg.receiverId == myId) && InOpenChat(activeChatUser, msg) then [msg] else [])
      ensures MessageNotice(msg, myId, activeChatUser).Some? ==>
        notifications == [MessageNotice(msg, myId, activeChatUser).value] + old(notifications)
      ensures MessageNotice(msg, myId, activeChatUser).None? ==> notifications == old(notifications)
    {
      if msg.senderId == myId || msg.receiverId == myId {
        RefreshChatList();
        if InOpenChat(activeChatUser, msg) {
          chatMessages := chatMessages + [msg];
        }
        var notice := MessageNotice(msg, myId, activeChatUser);
        if notice.Some? {
          notifications := [notice.value] + notifications;
        }
      }
    }

    /** `loadChatRoom(partner)`: opens the conversation and fetches it, oldest first. */
    method OpenChat(partner: string)
      requires Valid()
      modifies this`activeChatUser, this`chatMessages, this`products, this`myBids, this`chatList
      ensures Valid()
      ensures activeChatUser == Some(partner)
      ensures chatMessages == Conversation(backend.messages, myId, partner)
      ensures old(activeChatUser) != Some(partner) ==> Synced() && PartnersFetched()
      ensures old(activeChatUser) == Some(partner) ==>
        products == old(products) && myBids == old(myBids) && chatList == old(chatList)
    {
      var before := activeChatUser;
      activeChatUser := Some(partner);
      chatMessages := Conversation(backend.messages, myId, partner);
      RerunLoginEffect(before);
    }

    /** `startChatWithSeller`: refused for my own listing; otherwise opens the chat and closes the listing. */
    method StartChatWithSeller(sellerId: string) returns (started: bool)
      requires Valid()
      modifies this`activeChatUser, this`chatMessages, this`selectedProduct, this`products, this`myBids, this`chatList
      ensures Valid()
      ensures started <==> sellerId != myId
      ensures started ==>
        && activeChatUser == Some(sellerId)
        && chatMessages == Conversation(backend.messages, myId, sellerId)
        && selectedProduct == None
      ensures started && old(activeChatUser) != Some(sellerId) ==> Synced() && PartnersFetched()
      ensures !started || old(activeChatUser) == Some(sellerId) ==>
        products == old(products) && myBids == old(myBids) && chatList == old(chatList)
      ensures !started ==>
        activeChatUser == old(activeChatUser) && chatMessages == old(chatMessages)
        && selectedProduct == old(selectedProduct)
    {
      if sellerId == myId {
        return false;
      }
      OpenChat(sellerId);
      selectedProduct := None;
      started := true;
    }

    /** The back button of the chat window: leaves the open conversation. */
    method CloseChat()
      requires Valid()
      modifies this`activeChatUser, this`products, this`myBids, this`chatList
      ensures Valid()
      ensures activeChatUser == if Truthy(old(activeChatUser)) then None else old(activeChatUser)
      ensures Truthy(old(activeChatUser)) ==> Synced() && PartnersFetched()
      ensures !Truthy(old(activeChatUser)) ==>
        products == old(products) && myBids == old(myBids) && chatList == old(chatList)
    {
      var before := activeChatUser;
      if Truthy(activeChatUser) {
        activeChatUser := None;
      }
      RerunLoginEffect(before);
    }

    /** `sendMessage`: stores a non-blank message to the open partner; the insert event delivers it back. */
    method SendMessage(content: string) returns (sent: bool)
      requires Valid()
      modifies backend`messages
      ensures Valid()
      ensures sent <==> !Text.Blank(content) && Truthy(activeChatUser)
      ensures sent ==> backend.messages == old(backend.messages) + [Message(myId, activeChatUser.value, content)]
      ensures !sent ==> backend.messages == old(backend.messages)
    {
      if Text.Blank(content) || !Truthy(activeChatUser) {
        return false;
      }
      backend.InsertMessage(Message(myId, activeChatUser.value, content));
      sent := true;
    }
  }
}
