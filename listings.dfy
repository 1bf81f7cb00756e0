/**
 * The records the marketplace client holds in memory.
 * Timestamps (`end_time`, `created_at`) are integer milliseconds since the epoch.
 */
module Listings {
  import opened Wrappers

  /** The lifecycle of a listing: `active` until sold, and never back. */
  datatype Status = Active | Sold

  /** One item for sale (a row of the `products` table). */
  datatype Listing = Listing(
    id: int,
    title: string,
    description: string,
    currentPrice: int,
    startPrice: int,
    buyNowPrice: Option<int>,   // `null` when no immediate purchase is offered
    bidUnit: int,
    endTime: int,
    sellerId: string,
    imageUrl: string,
    category: string,
    status: Status,
    createdAt: int)

  /** One bid (a row of the `bids` table); rows are kept in insertion order. */
  datatype BidRecord = BidRecord(productId: int, bidderId: string, amount: int)

  /** One chat message (a row of the `messages` table); rows are kept in insertion order. */
  datatype Message = Message(senderId: string, receiverId: string, content: string)

  /** An entry of the notification list; its display text is rendered elsewhere. */
  datatype Notice =
    | CompetingBid(amount: int)      // someone outbid a listing I bid on
    | NewMessage(from: string)       // a message arrived outside the open conversation
    | Purchased(title: string)       // my immediate purchase went through
}
