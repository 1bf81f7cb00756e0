/**
 * Walk-throughs of the marketplace: a client in a stated situation (the rest
 * of its state and the backend's tables arbitrary), one action or delivered
 * live event, and what it leaves behind.
 */
module Scenarios {
  import opened Wrappers
  import opened Listings
  import opened Store
  import opened Client

  /** A listing by seller "A": start price 10000, bid unit 1000, no buy-now price. */
  function Camera(): Listing {
    Listing(1, "Camera", "", 10000, 10000, None, 1000, 5000000, "A", "", "digital", Active, 0)
  }

  /** B bids 11000 on the listing at 10000: accepted, recorded once, and the new price everywhere B looks. */
  method FirstBidAccepted(b: Market) returns (outcome: BidOutcome)
    requires b.Valid() && b.myId == "B" && b.selectedProduct == Some(Camera())
    modifies b, b.backend
    ensures outcome == Accepted(11000)
    ensures b.backend.bids == old(b.backend.bids) + [BidRecord(1, "B", 11000)]
    ensures forall p :: p in b.products && p.id == 1 ==> p.currentPrice == 11000
    ensures 1 in b.myBids && |b.bidLogs| > 0 && b.bidLogs[0] == BidRecord(1, "B", 11000)
  {
    outcome := b.PlaceBid(Number(11000));
  }

  /** The change event of that update replaces B's open copy at 10000 by the updated row. */
  method ChangeEventRefreshesOpenListing(b: Market)
    requires b.Valid() && b.selectedProduct == Some(Camera())
    modifies b
    ensures b.selectedProduct == Some(Camera().(currentPrice := 11000))
  {
    b.OnListingChanged(Some(Camera().(currentPrice := 11000)));
  }

  /** With the refreshed copy open, B's 10500 is rejected and changes neither table. */
  method LowerBidRejected(b: Market) returns (outcome: BidOutcome)
    requires b.Valid() && b.myId == "B" && b.selectedProduct == Some(Camera().(currentPrice := 11000))
    modifies b, b.backend
    ensures outcome == TooLow
    ensures b.backend.bids == old(b.backend.bids) && b.backend.listings == old(b.backend.listings)
  {
    outcome := b.PlaceBid(Number(10500));
  }

  /**
   * C opened the listing at 10000, and no change event has reached C when B's
   * 11000 lands. C's 10500 is accepted against the stale copy: B's bid stays
   * in the ledger, yet every stored row of the listing now says 10500.
   */
  method StaleBidAccepted(c: Market) returns (outcome: BidOutcome)
    requires c.Valid() && c.myId == "C" && c.selectedProduct == Some(Camera())
    requires BidRecord(1, "B", 11000) in c.backend.bids
    modifies c, c.backend
    ensures outcome == Accepted(10500)
    ensures BidRecord(1, "B", 11000) in c.backend.bids
    ensures forall q :: q in c.backend.listings && q.id == 1 ==> q.currentPrice == 10500 < 11000
  {
    outcome := c.PlaceBid(Number(10500));
    PatchedRows(old(c.backend.listings), 1, SetPrice(10500));
  }

  /** The same competing-bid event delivered twice to B, who bid on the listing, leaves two notifications. */
  method DuplicateBidEvent(b: Market)
    requires b.Valid() && b.myId == "B" && b.notifications == []
    requires BidRecord(1, "B", 11000) in b.backend.bids && 1 in b.myBids
    modifies b
    ensures b.notifications == [CompetingBid(12000), CompetingBid(12000)]
  {
    b.OnBidInserted(BidRecord(1, "C", 12000));
    b.SyncedContents();
    b.OnBidInserted(BidRecord(1, "C", 12000));
  }

  /** Without a buy-now price the purchase does nothing. */
  method BuyNowUnavailable(b: Market)
    requires b.Valid() && b.selectedProduct == Some(Camera())
    modifies b, b.backend
    ensures b.backend.bids == old(b.backend.bids) && b.backend.listings == old(b.backend.listings)
    ensures b.notifications == old(b.notifications) && b.selectedProduct == Some(Camera())
  {
    b.BuyNow(true);
  }

  /**
   * With a buy-now price of 30000 the purchase marks the listing sold at that
   * price, records one bid at that price and announces the purchase.
   */
  method BuyNowSells(b: Market)
    requires b.Valid() && b.myId == "B" && b.selectedProduct == Some(Camera().(buyNowPrice := Some(30000)))
    modifies b, b.backend
    ensures b.backend.bids == old(b.backend.bids) + [BidRecord(1, "B", 30000)]
    ensures b.notifications == [Purchased("Camera")] + old(b.notifications)
    ensures forall p :: p in b.products && p.id == 1 ==> p.status == Sold && p.currentPrice == 30000
    ensures b.selectedProduct == None
  {
    b.BuyNow(true);
  }

  /** What opening the chat with `partner` leaves behind. */
  ghost predicate ChatOpen(a: Market, partner: string)
    reads a`activeChatUser, a`chatMessages, a.backend`messages
  {
    a.activeChatUser == Some(partner) && a.chatMessages == Conversation(a.backend.messages, a.myId, partner)
  }

  /**
   * With the chat open, the partner's reply, delivered live, joins the
   * conversation without a notification, and the conversation stays what
   * reopening it would fetch.
   */
  method ChatReply(a: Market, partner: string, content: string)
    requires a.Valid() && partner != a.myId && partner != "" && ChatOpen(a, partner)
    modifies a, a.backend
    ensures ChatOpen(a, partner)
    ensures a.chatMessages == old(a.chatMessages) + [Message(partner, a.myId, content)]
    ensures a.notifications == old(a.notifications)
  {
    var reply := Message(partner, a.myId, content);
    LiveChatMatchesReload(a.backend.messages, reply, a.myId, partner);
    a.backend.InsertMessage(reply);
    a.OnMessageInserted(reply);
  }

  /** With the chat open, a message from someone else is announced but not appended. */
  method ChatFromSomeoneElse(a: Market, partner: string, other: string, content: string)
    requires a.Valid() && partner != a.myId && partner != "" && other != partner && other != a.myId
    requires ChatOpen(a, partner)
    modifies a, a.backend
    ensures ChatOpen(a, partner)
    ensures a.notifications == [NewMessage(other)] + old(a.notifications)
  {
    var msg := Message(other, a.myId, content);
    LiveChatMatchesReload(a.backend.messages, msg, a.myId, partner);
    a.backend.InsertMessage(msg);
    a.OnMessageInserted(msg);
  }
}
