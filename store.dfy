/**
 * The hosted backend as an in-memory store: the `products`, `bids` and
 * `messages` tables, the row updates and deletions the client issues, and the
 * queries it reads back. Rows are kept in insertion order, which is also
 * `created_at` order for bids and messages.
 */
module Store {
  import opened Wrappers
  import opened Listings
  import opened Seqs

  // ---------------------------------------------------------------------------
  // Updates of listing rows

  /** The column assignments of the `products` updates the client sends. */
  datatype Patch =
    | SetPrice(price: int)          // a bid: `{ current_price: amount }`
    | SetEndTime(endTime: int)      // an extension: `{ end_time: ... }`
    | MarkSold                      // an early close: `{ status: 'sold' }`
    | MarkSoldAt(price: int)        // a purchase: `{ status: 'sold', current_price: buy_now_price }`

  /**
   * One row after an update. The id never changes, and a sold listing stays
   * sold: no update the client sends reopens it.
   */
  function Apply(p: Listing, patch: Patch): (q: Listing)
    ensures q.id == p.id && q.sellerId == p.sellerId && q.title == p.title
    ensures p.status == Sold ==> q.status == Sold
    ensures patch.MarkSold? || patch.MarkSoldAt? ==> q.status == Sold
    ensures patch.SetPrice? || patch.MarkSoldAt? ==> q.currentPrice == patch.price
    ensures !(patch.SetPrice? || patch.MarkSoldAt?) ==> q.currentPrice == p.currentPrice
    ensures patch.SetEndTime? ==> q.endTime == patch.endTime
    ensures !patch.SetEndTime? ==> q.endTime == p.endTime
    ensures patch.SetPrice? || patch.SetEndTime? ==> q.status == p.status
    ensures q.(currentPrice := p.currentPrice, endTime := p.endTime, status := p.status) == p
  {
    match patch
    case SetPrice(price) => p.(currentPrice := price)
    case SetEndTime(t) => p.(endTime := t)
    case MarkSold => p.(status := Sold)
    case MarkSoldAt(price) => p.(status := Sold, currentPrice := price)
  }

  /** `update(patch).eq('id', id)`: every row with that id is updated, the others are kept as they are. */
  function Patched(rows: seq<Listing>, id: int, patch: Patch): (r: seq<Listing>)
    ensures |r| == |rows|
    decreases |rows|
  {
    if rows == [] then []
    else
      var last := rows[|rows| - 1];
      Patched(rows[..|rows| - 1], id, patch) + [if last.id == id then Apply(last, patch) else last]
  }

  /** The update works row by row: a row with the id is patched, any other row is kept, and no row moves. */
  lemma {:induction false} PatchedAt(rows: seq<Listing>, id: int, patch: Patch)
    ensures forall i :: 0 <= i < |rows| ==>
      Patched(rows, id, patch)[i] == if rows[i].id == id then Apply(rows[i], patch) else rows[i]
    decreases |rows|
  {
    if rows != [] {
      PatchedAt(rows[..|rows| - 1], id, patch);
    }
  }

  /** After an update, every row with the id carries the patched values and the set of ids is the same. */
  lemma PatchedRows(rows: seq<Listing>, id: int, patch: Patch)
    ensures forall q :: q in Patched(rows, id, patch) && q.id == id ==>
      exists p :: p in rows && p.id == id && q == Apply(p, patch)
    ensures forall q :: q in Patched(rows, id, patch) && q.id != id ==> q in rows
    ensures forall p :: p in rows && p.id != id ==> p in Patched(rows, id, patch)
  {
    PatchedAt(rows, id, patch);
    var r := Patched(rows, id, patch);
    forall q | q in r
      ensures q.id == id ==> exists p :: p in rows && p.id == id && q == Apply(p, patch)
      ensures q.id != id ==> q in rows
    {
      var i :| 0 <= i < |r| && r[i] == q;
      assert rows[i] in rows;
    }
    forall p | p in rows && p.id != id ensures p in r {
      var i :| 0 <= i < |rows| && rows[i] == p;
      assert r[i] == p;
    }
  }

  // ---------------------------------------------------------------------------
  // Deletions

  /** `bids.delete().eq('product_id', id)`. */
  function WithoutBidsFor(bids: seq<BidRecord>, id: int): (r: seq<BidRecord>)
    ensures forall b :: b in r <==> b in bids && b.productId != id
    ensures |r| <= |bids|
    decreases |bids|
  {
    if bids == [] then []
    else
      var last := bids[|bids| - 1];
      var init := bids[..|bids| - 1];
      assert bids == init + [last];
      WithoutBidsFor(init, id) + (if last.productId != id then [last] else [])
  }

  /** `products.delete().eq('id', id)`. */
  function WithoutListing(rows: seq<Listing>, id: int): (r: seq<Listing>)
    ensures forall p :: p in r <==> p in rows && p.id != id
    ensures |r| <= |rows|
    decreases |rows|
  {
    if rows == [] then []
    else
      var last := rows[|rows| - 1];
      var init := rows[..|rows| - 1];
      assert rows == init + [last];
      WithoutListing(init, id) + (if last.id != id then [last] else [])
  }

  // ---------------------------------------------------------------------------
  // Queries

  /** `bids.select('product_id').eq('bidder_id', user)`: the listing ids of the user's bids, one per bid. */
  function BidderProducts(bids: seq<BidRecord>, user: string): (ids: seq<int>)
    ensures forall x :: x in ids <==> exists b :: b in bids && b.bidderId == user && b.productId == x
    decreases |bids|
  {
    if bids == [] then []
    else
      var last := bids[|bids| - 1];
      var init := bids[..|bids| - 1];
      assert bids == init + [last];
      BidderProducts(init, user) + (if last.bidderId == user then [last.productId] else [])
  }

  /** `bids.select('*').eq('product_id', id).order('created_at', desc)`: the bids on a listing, newest first. */
  function BidHistory(bids: seq<BidRecord>, id: int): (h: seq<BidRecord>)
    ensures forall b :: b in h <==> b in bids && b.productId == id
    decreases |bids|
  {
    if bids == [] then []
    else
      var last := bids[|bids| - 1];
      var init := bids[..|bids| - 1];
      assert bids == init + [last];
      (if last.productId == id then [last] else []) + BidHistory(init, id)
  }

  /** A new bid on the listing goes to the front of its history; other listings' histories are unchanged. */
  lemma BidHistoryAppend(bids: seq<BidRecord>, b: BidRecord, id: int)
    ensures BidHistory(bids + [b], id) == (if b.productId == id then [b] else []) + BidHistory(bids, id)
  {
    assert (bids + [b])[..|bids|] == bids;
  }

  /** The filter `eq('product_id', id)`. */
  function OnListing(id: int): BidRecord -> bool {
    (b: BidRecord) => b.productId == id
  }

  /**
   * The history is the listing's bids in `created_at` order, reversed: the
   * bids on the listing, newest first.
   */
  lemma {:induction false} BidHistoryIsNewestFirst(bids: seq<BidRecord>, id: int)
    ensures BidHistory(bids, id) == Reverse(Filter(bids, OnListing(id)))
    decreases |bids|
  {
    if bids != [] {
      var init, last := bids[..|bids| - 1], bids[|bids| - 1];
      BidHistoryIsNewestFirst(init, id);
      var kept := Filter(init, OnListing(id));
      if last.productId == id {
        assert Filter(bids, OnListing(id)) == kept + [last];
        assert (kept + [last])[..|kept|] == kept;
      } else {
        assert Filter(bids, OnListing(id)) == kept;
      }
    }
  }

  /**
   * `bids.select('*').eq('product_id', id).order('amount', desc).limit(1)`:
   * a highest bid on the listing, if it has any. Among equal amounts the
   * earliest is taken.
   */
  function TopBid(bids: seq<BidRecord>, id: int): (r: Option<BidRecord>)
    ensures r.None? <==> forall b :: b in bids ==> b.productId != id
    ensures r.Some? ==> r.value in bids && r.value.productId == id
    ensures r.Some? ==> forall b :: b in bids && b.productId == id ==> b.amount <= r.value.amount
    decreases |bids|
  {
    if bids == [] then None
    else
      var last := bids[|bids| - 1];
      var init := bids[..|bids| - 1];
      assert bids == init + [last];
      var top := TopBid(init, id);
      if last.productId == id && (top.None? || last.amount > top.value.amount) then Some(last) else top
  }

  /** `messages...or(sender_id.eq.user, receiver_id.eq.user)`: the messages the user sent or received. */
  function Involving(msgs: seq<Message>, user: string): (r: seq<Message>)
    ensures forall m :: m in r <==> m in msgs && (m.senderId == user || m.receiverId == user)
    decreases |msgs|
  {
    if msgs == [] then []
    else
      var last := msgs[|msgs| - 1];
      var init := msgs[..|msgs| - 1];
      assert msgs == init + [last];
      Involving(init, user) + (if last.senderId == user || last.receiverId == user then [last] else [])
  }

  /** Whether `m` was sent from `a` to `b` or from `b` to `a`. */
  predicate Between(m: Message, a: string, b: string) {
    (m.senderId == a && m.receiverId == b) || (m.senderId == b && m.receiverId == a)
  }

  /** The chat-room query: the messages between `me` and `partner`, oldest first. */
  function Conversation(msgs: seq<Message>, me: string, partner: string): (r: seq<Message>)
    ensures forall m :: m in r <==> m in msgs && Between(m, me, partner)
    decreases |msgs|
  {
    if msgs == [] then []
    else
      var last := msgs[|msgs| - 1];
      var init := msgs[..|msgs| - 1];
      assert msgs == init + [last];
      Conversation(init, me, partner) + (if Between(last, me, partner) then [last] else [])
  }

  /** The backend's tables. Other clients write to them too, so the client's copies can be stale. */
  class Backend {
    var listings: seq<Listing>
    var bids: seq<BidRecord>
    var messages: seq<Message>

    constructor (listings: seq<Listing>, bids: seq<BidRecord>, messages: seq<Message>)
      ensures this.listings == listings && this.bids == bids && this.messages == messages
    {
      this.listings := listings;
      this.bids := bids;
      this.messages := messages;
    }

    /** `from('bids').insert(b)`. */
    method InsertBid(b: BidRecord)
      modifies this`bids
      ensures bids == old(bids) + [b]
    {
      bids := bids + [b];
    }

    /** `from('products').update(patch).eq('id', id)`. */
    method UpdateListing(id: int, patch: Patch)
      modifies this`listings
      ensures listings == Patched(old(listings), id, patch)
    {
      listings := Patched(listings, id, patch);
    }

    /** `from('bids').delete().eq('product_id', id)`. */
    method DeleteBidsFor(id: int)
      modifies this`bids
      ensures bids == WithoutBidsFor(old(bids), id)
    {
      bids := WithoutBidsFor(bids, id);
    }

    /** `from('products').delete().eq('id', id)`. */
    method DeleteListing(id: int)
      modifies this`listings
      ensures listings == WithoutListing(old(listings), id)
    {
      listings := WithoutListing(listings, id);
    }

    /** `from('messages').insert(m)`. */
    method InsertMessage(m: Message)
      modifies this`messages
      ensures messages == old(messages) + [m]
    {
      messages := messages + [m];
    }
  }
}
