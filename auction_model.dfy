/** The auction record schema of the routes server: the fields, their setters and
    defaults applied when a document is built, and the validators run when it is saved. */
module AuctionModel {
  import opened Common
  import opened Text

  /** A stored auction document. `bidderName == None` is the schema's null default:
      nobody has bid yet. `updatedAt` is kept by the schema's `timestamps` option. */
  datatype Auction = Auction(
    id: Id,
    itemName: string,
    itemCategory: string,
    startingBid: Money,
    currentBid: Money,
    bidderName: Option<string>,
    auctionEndDate: Time,
    itemDescription: string,
    createdAt: Time,
    updatedAt: Time)

  /** The fields a handler passes when it builds a document; a missing `currentBid`
      takes the schema's default. */
  datatype Draft = Draft(
    itemName: string,
    itemCategory: string,
    startingBid: Money,
    currentBid: Option<Money>,
    auctionEndDate: Time,
    itemDescription: string)

  /** The document the schema builds from a draft at time `now`: the three text fields
      pass through their `trim` setters, `currentBid` defaults to `startingBid`,
      `bidderName` to null, and both timestamps to `now`. */
  function New(d: Draft, id: Id, now: Time): (a: Auction)
    ensures a.id == id && a.createdAt == now && a.updatedAt == now
    ensures a.itemName == Trim(d.itemName) && IsTrimmed(a.itemName)
    ensures a.itemCategory == Trim(d.itemCategory) && IsTrimmed(a.itemCategory)
    ensures a.itemDescription == Trim(d.itemDescription) && IsTrimmed(a.itemDescription)
    ensures a.startingBid == d.startingBid && a.auctionEndDate == d.auctionEndDate
    ensures a.currentBid == (if d.currentBid.Some? then d.currentBid.value else d.startingBid)
    ensures a.bidderName.None?
  {
    Auction(
      id,
      Trim(d.itemName),
      Trim(d.itemCategory),
      d.startingBid,
      match d.currentBid
      case Some(c) => c
      case None => d.startingBid,
      None,
      d.auctionEndDate,
      Trim(d.itemDescription),
      now,
      now)
  }

  /** The schema's validators: the required text fields are non-empty and both bids
      are at least 0. A document that fails them is not saved. */
  predicate Conforms(a: Auction)
  {
    && a.itemName != ""
    && a.itemCategory != ""
    && a.itemDescription != ""
    && a.startingBid >= 0.0
    && a.currentBid >= 0.0
  }

  /** A freshly built document passes validation exactly when none of its text fields
      is all whitespace and neither bid is negative. */
  lemma NewConformsIff(d: Draft, id: Id, now: Time)
    ensures Conforms(New(d, id, now)) <==>
      && !AllWhitespace(d.itemName)
      && !AllWhitespace(d.itemCategory)
      && !AllWhitespace(d.itemDescription)
      && d.startingBid >= 0.0
      && (d.currentBid.Some? ==> d.currentBid.value >= 0.0)
  {
  }
}
