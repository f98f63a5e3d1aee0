/** The second server at the repository root: its own inline schema and its own
    create, bid, delete and list handlers, which trim their input, never check an
    end date and answer every request with a status text. */
module RootServer {
  import opened Common
  import opened Text
  import Tables

  /** The inline schema's default bidder. */
  const NoBidsYet: string := "No bids yet"

  /** A stored document of the inline schema: the end date is kept as text, the
      bidder as text with a sentinel default, and there are no timestamps. */
  datatype Auction = Auction(
    id: Id,
    itemName: string,
    itemCategory: string,
    startingBid: Money,
    currentBid: Money,
    bidderName: string,
    auctionEndDate: string,
    itemDescription: string)

  /** The inline schema's validators: the four required text fields are non-empty.
      There is no minimum on either bid. */
  predicate Conforms(a: Auction)
  {
    a.itemName != "" && a.itemCategory != "" && a.auctionEndDate != "" && a.itemDescription != ""
  }

  datatype NewRequest = NewRequest(
    itemName: Option<string>,
    itemCategory: Option<string>,
    startingBid: Option<Money>,
    auctionEndDate: Option<string>,
    itemDescription: Option<string>)

  datatype BidRequest = BidRequest(
    id: Option<Id>,
    bidAmount: Option<Money>,
    bidderName: Option<string>)

  /** Why a create failed: a text field was absent, so trimming it threw; or the
      built document failed a cast or a validator when saved. */
  datatype Cause = TextMissing | ValidationFailed

  /** The `status` text of each answer, as a kind. */
  datatype Status =
    | ItemAdded
    | AddFailed(cause: Cause)
    | AuctionNotFound
    | BidNotHigher(currentBid: Money)
    | BidPlaced
    | BidFailed
    | ItemDeleted

  datatype Store = Store(records: map<Id, Auction>, nextId: Id)

  /** What every stored document satisfies: it carries its own key, handed out before;
      its text fields are trimmed and the required ones non-empty; its current bid is at
      least its starting bid. */
  predicate RecordValid(k: Id, a: Auction, nextId: Id)
  {
    && a.id == k
    && k < nextId
    && Conforms(a)
    && IsTrimmed(a.itemName) && IsTrimmed(a.itemCategory)
    && IsTrimmed(a.auctionEndDate) && IsTrimmed(a.itemDescription)
    && IsTrimmed(a.bidderName)
    && a.startingBid <= a.currentBid
  }

  predicate StoreValid(s: Store)
  {
    forall k :: k in s.records ==> RecordValid(k, s.records[k], s.nextId)
  }

  lemma ValidIsInjective(s: Store)
    requires StoreValid(s)
    ensures Tables.Injective(s.records)
  {
  }

  predicate HasText(req: NewRequest)
  {
    req.itemName.Some? && req.itemCategory.Some? && req.auctionEndDate.Some? && req.itemDescription.Some?
  }

  /** The document `/api/addNew` builds: trimmed text, both bids the given number, the
      sentinel bidder. */
  function DocumentOf(req: NewRequest, id: Id): (a: Auction)
    requires HasText(req) && req.startingBid.Some?
    ensures a.id == id
    ensures a.itemName == Trim(req.itemName.value) && IsTrimmed(a.itemName)
    ensures a.itemCategory == Trim(req.itemCategory.value) && IsTrimmed(a.itemCategory)
    ensures a.auctionEndDate == Trim(req.auctionEndDate.value) && IsTrimmed(a.auctionEndDate)
    ensures a.itemDescription == Trim(req.itemDescription.value) && IsTrimmed(a.itemDescription)
    ensures a.currentBid == a.startingBid == req.startingBid.value
    ensures a.bidderName == NoBidsYet
  {
    Auction(
      id,
      Trim(req.itemName.value),
      Trim(req.itemCategory.value),
      req.startingBid.value,
      req.startingBid.value,
      NoBidsYet,
      Trim(req.auctionEndDate.value),
      Trim(req.itemDescription.value))
  }

  /** Create: an absent text field throws while the document is built; an absent
      starting bid becomes NaN, which fails the cast on save, as does a text field that
      trims to nothing; otherwise the document is saved under a fresh identifier. */
  function AddNewStep(s: Store, req: NewRequest): (r: (Status, Store))
    ensures r.0 != ItemAdded ==> r.1 == s
    ensures r.0 == ItemAdded ==>
      && HasText(req) && req.startingBid.Some?
      && r.1 == Store(s.records[s.nextId := DocumentOf(req, s.nextId)], s.nextId + 1)
  {
    if !HasText(req) then (AddFailed(TextMissing), s)
    else if req.startingBid.None? then (AddFailed(ValidationFailed), s)
    else
      var a := DocumentOf(req, s.nextId);
      if Conforms(a) then (ItemAdded, Store(s.records[s.nextId := a], s.nextId + 1))
      else (AddFailed(ValidationFailed), s)
  }

  /** A create is accepted exactly when all four text fields are given and none is all
      whitespace, and a starting bid is given, of any sign. */
  lemma AddNewAcceptedIff(s: Store, req: NewRequest)
    ensures AddNewStep(s, req).0 == ItemAdded <==>
      && HasText(req) && req.startingBid.Some?
      && !AllWhitespace(req.itemName.value)
      && !AllWhitespace(req.itemCategory.value)
      && !AllWhitespace(req.auctionEndDate.value)
      && !AllWhitespace(req.itemDescription.value)
    ensures AddNewStep(s, req).0 == ItemAdded ==>
      var a := AddNewStep(s, req).1.records[s.nextId];
      a.currentBid == a.startingBid == req.startingBid.value && a.bidderName == NoBidsYet
  {
  }

  /** Unlike the routes server, this one stores a negative starting bid. */
  lemma NegativeStartingBidAccepted(s: Store, req: NewRequest)
    requires HasText(req) && req.startingBid.Some? && req.startingBid.value < 0.0
    requires !AllWhitespace(req.itemName.value)
    requires !AllWhitespace(req.itemCategory.value)
    requires !AllWhitespace(req.auctionEndDate.value)
    requires !AllWhitespace(req.itemDescription.value)
    ensures AddNewStep(s, req).0 == ItemAdded
    ensures AddNewStep(s, req).1.records[s.nextId].currentBid < 0.0
  {
    AddNewAcceptedIff(s, req);
  }

  lemma AddNewPreservesValid(s: Store, req: NewRequest)
    requires StoreValid(s)
    ensures StoreValid(AddNewStep(s, req).1)
  {
    assert IsTrimmed(NoBidsYet) by { assert !IsWhitespace(NoBidsYet[0]) && !IsWhitespace(NoBidsYet[|NoBidsYet| - 1]); }
  }

  /** Bid: an unknown auction, then an amount not above the current bid, are refused;
      an absent amount (NaN) or bidder fails; otherwise the fetched document gets the
      amount and the trimmed bidder and is saved back. The end date plays no part. */
  function PlaceBidStep(s: Store, req: BidRequest): (r: (Status, Store))
    ensures r.0 != BidPlaced ==> r.1 == s
    ensures r.0 == BidPlaced ==>
      && req.id.Some? && req.id.value in s.records
      && req.bidAmount.Some? && req.bidderName.Some?
      && req.bidAmount.value > s.records[req.id.value].currentBid
      && r.1 == Store(s.records[req.id.value := s.records[req.id.value].(
           currentBid := req.bidAmount.value, bidderName := Trim(req.bidderName.value))], s.nextId)
  {
    if req.id.None? || req.id.value !in s.records then (AuctionNotFound, s)
    else
      var a := s.records[req.id.value];
      if req.bidAmount.Some? && req.bidAmount.value <= a.currentBid then (BidNotHigher(a.currentBid), s)
      else if req.bidAmount.None? || req.bidderName.None? then (BidFailed, s)
      else
        var b := a.(currentBid := req.bidAmount.value, bidderName := Trim(req.bidderName.value));
        if Conforms(b) then (BidPlaced, Store(s.records[req.id.value := b], s.nextId))
        else (BidFailed, s)
  }

  /** A bid is placed exactly when it names a stored auction, an amount above the
      current bid and a bidder: however long ago the auction's end date passed. Each
      refusal holds exactly when the earlier checks passed and its own failed; a missing
      amount or bidder fails (NaN cast, `.trim()` on undefined). */
  lemma PlaceBidAcceptedIff(s: Store, req: BidRequest)
    requires StoreValid(s)
    ensures PlaceBidStep(s, req).0 == BidPlaced <==>
      && req.id.Some? && req.id.value in s.records
      && req.bidAmount.Some? && req.bidderName.Some?
      && req.bidAmount.value > s.records[req.id.value].currentBid
    ensures PlaceBidStep(s, req).0 == AuctionNotFound <==> req.id.None? || req.id.value !in s.records
    ensures PlaceBidStep(s, req).0.BidNotHigher? <==>
      && req.id.Some? && req.id.value in s.records
      && req.bidAmount.Some? && req.bidAmount.value <= s.records[req.id.value].currentBid
    ensures PlaceBidStep(s, req).0 == BidFailed <==>
      && req.id.Some? && req.id.value in s.records
      && !(req.bidAmount.Some? && req.bidAmount.value <= s.records[req.id.value].currentBid)
      && (req.bidAmount.None? || req.bidderName.None?)
  {
  }

  /** A bidder who gives their name as the sentinel leaves a document that reads, by
      its bidder, as if nobody had bid. */
  lemma SentinelBidderLooksUnbid(s: Store, id: Id, amount: Money)
    requires StoreValid(s) && id in s.records && amount > s.records[id].currentBid
    ensures var r := PlaceBidStep(s, BidRequest(Some(id), Some(amount), Some(NoBidsYet)));
      r.0 == BidPlaced && r.1.records[id].bidderName == NoBidsYet
  {
    assert Trim(NoBidsYet) == NoBidsYet by {
      assert !IsWhitespace(NoBidsYet[0]) && !IsWhitespace(NoBidsYet[|NoBidsYet| - 1]);
      TrimmedIsFixed(NoBidsYet);
    }
  }

  lemma PlaceBidPreservesValid(s: Store, req: BidRequest)
    requires StoreValid(s)
    ensures StoreValid(PlaceBidStep(s, req).1)
  {
  }

  /** Delete: always answers success; afterwards the identifier, if one was given, is
      not in the collection, and nothing else is removed. */
  function DeleteItemStep(s: Store, id: Option<Id>): (r: (Status, Store))
    ensures r.0 == ItemDeleted
    ensures r.1.nextId == s.nextId
    ensures id.Some? ==> r.1.records == s.records - {id.value}
    ensures id.None? || id.value !in s.records ==> r.1 == s
  {
    if id.Some? then (ItemDeleted, Store(s.records - {id.value}, s.nextId)) else (ItemDeleted, s)
  }

  lemma DeleteItemPreservesValid(s: Store, id: Option<Id>)
    requires StoreValid(s)
    ensures StoreValid(DeleteItemStep(s, id).1)
  {
  }

  /** The collection of the root server, updated in place. */
  class AuctionStore {
    var records: map<Id, Auction>
    var nextId: Id

    ghost predicate Valid()
      reads this
    {
      StoreValid(Store(records, nextId))
    }

    function State(): Store
      reads this
    {
      Store(records, nextId)
    }

    constructor ()
      ensures Valid() && records == map[] && nextId == 0
    {
      records := map[];
      nextId := 0;
    }

    /** GET /api/viewAll: every stored document once, in no promised order. */
    method ViewAll() returns (auctions: seq<Auction>)
      requires Valid()
      ensures multiset(auctions) == multiset(records.Values)
      ensures |auctions| == |records|
    {
      ValidIsInjective(State());
      auctions := Tables.ListValues(records);
    }

    /** POST /api/addNew. */
    method AddNew(req: NewRequest) returns (status: Status)
      requires Valid()
      modifies this
      ensures Valid()
      ensures (status, State()) == AddNewStep(old(State()), req)
    {
      if req.itemName.None? || req.itemCategory.None? || req.auctionEndDate.None? || req.itemDescription.None? {
        return AddFailed(TextMissing);
      }
      if req.startingBid.None? {
        return AddFailed(ValidationFailed);
      }
      var doc := DocumentOf(req, nextId);
      if !Conforms(doc) {
        return AddFailed(ValidationFailed);
      }
      records := records[nextId := doc];
      nextId := nextId + 1;
      status := ItemAdded;
      AddNewPreservesValid(old(State()), req);
    }

    /** POST /api/placeBid: the fetched document is changed field by field and saved back. */
    method PlaceBid(req: BidRequest) returns (status: Status)
      requires Valid()
      modifies this
      ensures Valid()
      ensures (status, State()) == PlaceBidStep(old(State()), req)
    {
      if req.id.None? || req.id.value !in records {
        return AuctionNotFound;
      }
      var id := req.id.value;
      var auction := records[id];
      if req.bidAmount.Some? && req.bidAmount.value <= auction.currentBid {
        return BidNotHigher(auction.currentBid);
      }
      if req.bidAmount.None? || req.bidderName.None? {
        return BidFailed;
      }
      auction := auction.(currentBid := req.bidAmount.value);
      auction := auction.(bidderName := Trim(req.bidderName.value));
      if !Conforms(auction) {
        return BidFailed;
      }
      records := records[id := auction];
      status := BidPlaced;
      PlaceBidPreservesValid(old(State()), req);
    }

    /** POST /api/deleteItem. */
    method DeleteItem(id: Option<Id>) returns (status: Status)
      requires Valid()
      modifies this
      ensures Valid()
      ensures (status, State()) == DeleteItemStep(old(State()), id)
    {
      if id.Some? {
        records := records - {id.value};
      }
      status := ItemDeleted;
      DeleteItemPreservesValid(old(State()), id);
    }
  }
}
