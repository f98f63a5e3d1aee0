/** The routes server's handlers: list, create, bid on and delete auctions held in a
    collection keyed by identifier. Each handler is a pure step from the collection
    before the request to its response and the collection after it; the class
    `AuctionStore` carries out the same steps on its own fields. */
module AuctionRoutes {
  import opened Common
  import opened Text
  import opened AuctionModel
  import Tables

  /** The body of a create request; `None` is a field left out. */
  datatype NewRequest = NewRequest(
    itemName: Option<string>,
    itemCategory: Option<string>,
    startingBid: Option<Money>,
    auctionEndDate: Option<Time>,
    itemDescription: Option<string>)

  /** The body of a bid request. */
  datatype BidRequest = BidRequest(
    auctionId: Option<Id>,
    bidAmount: Option<Money>,
    bidderName: Option<string>)

  /** Why a request was refused: 400 for the input checks and the business rules,
      404 for an unknown identifier, 500 when the schema refuses to save. */
  datatype Error =
    | MissingFields
    | InvalidAmount
    | NotFound
    | Ended
    | BidTooLow
    | NotSaved

  datatype Response = Ok(record: Auction) | Fail(error: Error)

  /** The collection, and the identifier the store hands out next. */
  datatype Store = Store(records: map<Id, Auction>, nextId: Id)

  /** What every stored auction satisfies: it carries its own key, which was handed
      out before; it passed the schema's validators with trimmed text; its current bid
      is at least its starting bid; and it has a (non-empty) bidder exactly when the
      current bid has moved off the starting bid. */
  predicate RecordValid(k: Id, a: Auction, nextId: Id)
  {
    && a.id == k
    && k < nextId
    && Conforms(a)
    && IsTrimmed(a.itemName) && IsTrimmed(a.itemCategory) && IsTrimmed(a.itemDescription)
    && a.startingBid <= a.currentBid
    && (a.bidderName.None? <==> a.currentBid == a.startingBid)
    && (a.bidderName.Some? ==> a.bidderName.value != "")
  }

  predicate StoreValid(s: Store)
  {
    forall k :: k in s.records ==> RecordValid(k, s.records[k], s.nextId)
  }

  const EmptyStore := Store(map[], 0)

  lemma ValidIsInjective(s: Store)
    requires StoreValid(s)
    ensures Tables.Injective(s.records)
  {
  }

  // ---------------------------------------------------------------------------
  // POST /addNew

  /** All five fields present, the text ones non-empty. */
  predicate HasNewFields(req: NewRequest)
  {
    && Truthy(req.itemName)
    && Truthy(req.itemCategory)
    && req.startingBid.Some?
    && req.auctionEndDate.Some?
    && Truthy(req.itemDescription)
  }

  /** The document a create request builds, with `currentBid` given as the starting bid. */
  function DraftOf(req: NewRequest): Draft
    requires HasNewFields(req)
  {
    Draft(
      req.itemName.value,
      req.itemCategory.value,
      req.startingBid.value,
      Some(req.startingBid.value),
      req.auctionEndDate.value,
      req.itemDescription.value)
  }

  /** Create: missing fields, then a negative starting bid, are refused; otherwise the
      document is built and saved under a fresh identifier unless the schema refuses it. */
  function AddNewStep(s: Store, req: NewRequest, now: Time): (r: (Response, Store))
    ensures r.0.Fail? ==> r.1 == s
    ensures r.0.Ok? ==>
      var a := r.0.record;
      && HasNewFields(req)
      && r.1 == Store(s.records[s.nextId := a], s.nextId + 1)
      && a.id == s.nextId && a.createdAt == now && a.updatedAt == now
      && a.currentBid == a.startingBid == req.startingBid.value
      && a.bidderName.None?
      && a.itemName == Trim(req.itemName.value)
      && a.itemCategory == Trim(req.itemCategory.value)
      && a.itemDescription == Trim(req.itemDescription.value)
      && a.auctionEndDate == req.auctionEndDate.value
  {
    if !HasNewFields(req) then (Fail(MissingFields), s)
    else if req.startingBid.value < 0.0 then (Fail(InvalidAmount), s)
    else
      var a := New(DraftOf(req), s.nextId, now);
      if Conforms(a) then (Ok(a), Store(s.records[s.nextId := a], s.nextId + 1))
      else (Fail(NotSaved), s)
  }

  /** The create request's outcome, case by case, in the order the handler checks. */
  lemma AddNewOutcomes(s: Store, req: NewRequest, now: Time)
    ensures var r := AddNewStep(s, req, now).0;
      && (r == Fail(MissingFields) <==> !HasNewFields(req))
      && (r == Fail(InvalidAmount) <==> HasNewFields(req) && req.startingBid.value < 0.0)
      && (r == Fail(NotSaved) <==>
            && HasNewFields(req) && req.startingBid.value >= 0.0
            && (|| AllWhitespace(req.itemName.value)
                || AllWhitespace(req.itemCategory.value)
                || AllWhitespace(req.itemDescription.value)))
      && (r.Ok? <==>
            && HasNewFields(req) && req.startingBid.value >= 0.0
            && !AllWhitespace(req.itemName.value)
            && !AllWhitespace(req.itemCategory.value)
            && !AllWhitespace(req.itemDescription.value))
  {
    if HasNewFields(req) {
      NewConformsIff(DraftOf(req), s.nextId, now);
    }
  }

  /** A starting bid of exactly 0 is accepted; only a negative one is refused. */
  lemma ZeroStartingBidAccepted(s: Store, req: NewRequest, now: Time)
    requires HasNewFields(req) && req.startingBid.value == 0.0
    requires !AllWhitespace(req.itemName.value)
    requires !AllWhitespace(req.itemCategory.value)
    requires !AllWhitespace(req.itemDescription.value)
    ensures AddNewStep(s, req, now).0.Ok?
    ensures AddNewStep(s, req, now).0.record.currentBid == 0.0
  {
    AddNewOutcomes(s, req, now);
  }

  /** A name of spaces passes the handler's own check but is trimmed to nothing by the
      schema, so the save fails with a server error rather than a 400. */
  lemma BlankNameFailsOnSave(s: Store, now: Time)
    ensures
      var req := NewRequest(Some("  "), Some("Art"), Some(10.0), Some(now + 1), Some("Oil on canvas"));
      AddNewStep(s, req, now).0 == Fail(NotSaved)
  {
    var req := NewRequest(Some("  "), Some("Art"), Some(10.0), Some(now + 1), Some("Oil on canvas"));
    assert AllWhitespace(req.itemName.value);
  }

  /** A successful create adds exactly one auction, under an identifier not in use. */
  lemma AddNewGrowsByOne(s: Store, req: NewRequest, now: Time)
    requires StoreValid(s)
    ensures var r := AddNewStep(s, req, now);
      r.0.Ok? ==>
        && s.nextId !in s.records
        && r.1.records.Keys == s.records.Keys + {s.nextId}
        && |r.1.records| == |s.records| + 1
  {
    var r := AddNewStep(s, req, now);
    if r.0.Ok? {
      assert s.nextId !in s.records;
      assert r.1.records.Keys == s.records.Keys + {s.nextId};
    }
  }

  lemma AddNewPreservesValid(s: Store, req: NewRequest, now: Time)
    requires StoreValid(s)
    ensures StoreValid(AddNewStep(s, req, now).1)
    ensures Succeeds(s, AddNewStep(s, req, now).1)
  {
  }

  // ---------------------------------------------------------------------------
  // POST /placeBid

  /** Identifier, amount and a non-empty bidder name all given. */
  predicate HasBidFields(req: BidRequest)
  {
    req.auctionId.Some? && req.bidAmount.Some? && Truthy(req.bidderName)
  }

  /** The auction's end has passed: strictly after the end date, so a bid at the end
      date itself is still on time. */
  predicate HasEnded(a: Auction, now: Time)
  {
    now > a.auctionEndDate
  }

  /** Bid: missing fields, a non-positive amount, an unknown auction, an ended auction
      and an amount not above the current bid are refused in that order; otherwise the
      fetched document gets the new bid and bidder and is saved back. */
  function PlaceBidStep(s: Store, req: BidRequest, now: Time): (r: (Response, Store))
    ensures r.0.Fail? ==> r.1 == s
    ensures r.0.Ok? ==>
      && HasBidFields(req)
      && req.auctionId.value in s.records
      && var prev := s.records[req.auctionId.value];
      && r.0.record == prev.(currentBid := req.bidAmount.value, bidderName := req.bidderName, updatedAt := now)
      && r.1 == Store(s.records[req.auctionId.value := r.0.record], s.nextId)
      && !HasEnded(prev, now)
      && r.0.record.currentBid > prev.currentBid
  {
    if !HasBidFields(req) then (Fail(MissingFields), s)
    else if req.bidAmount.value <= 0.0 then (Fail(InvalidAmount), s)
    else if req.auctionId.value !in s.records then (Fail(NotFound), s)
    else
      var a := s.records[req.auctionId.value];
      if HasEnded(a, now) then (Fail(Ended), s)
      else if req.bidAmount.value <= a.currentBid then (Fail(BidTooLow), s)
      else
        var b := a.(currentBid := req.bidAmount.value, bidderName := req.bidderName, updatedAt := now);
        if Conforms(b) then (Ok(b), Store(s.records[req.auctionId.value := b], s.nextId))
        else (Fail(NotSaved), s)
  }

  /** The bid request's refusals, each holding exactly when every earlier check passed
      and its own failed; a valid collection never refuses to save a bid. */
  lemma PlaceBidOutcomes(s: Store, req: BidRequest, now: Time)
    requires StoreValid(s)
    ensures var r := PlaceBidStep(s, req, now).0;
      && (r == Fail(MissingFields) <==> !HasBidFields(req))
      && (r == Fail(InvalidAmount) <==> HasBidFields(req) && req.bidAmount.value <= 0.0)
      && (r == Fail(NotFound) <==>
            HasBidFields(req) && req.bidAmount.value > 0.0 && req.auctionId.value !in s.records)
      && (r == Fail(Ended) <==>
            && HasBidFields(req) && req.bidAmount.value > 0.0 && req.auctionId.value in s.records
            && HasEnded(s.records[req.auctionId.value], now))
      && (r == Fail(BidTooLow) <==>
            && HasBidFields(req) && req.bidAmount.value > 0.0 && req.auctionId.value in s.records
            && !HasEnded(s.records[req.auctionId.value], now)
            && req.bidAmount.value <= s.records[req.auctionId.value].currentBid)
      && r != Fail(NotSaved)
  {
  }

  /** A bid is accepted exactly when it names a stored, unended auction, a bidder, and
      an amount above the current bid (positive, since bids never go below 0). */
  lemma PlaceBidAcceptedIff(s: Store, req: BidRequest, now: Time)
    requires StoreValid(s)
    ensures PlaceBidStep(s, req, now).0.Ok? <==>
      && HasBidFields(req)
      && req.auctionId.value in s.records
      && !HasEnded(s.records[req.auctionId.value], now)
      && req.bidAmount.value > s.records[req.auctionId.value].currentBid
  {
    PlaceBidOutcomes(s, req, now);
  }

  /** At the end date itself the auction is still open. */
  lemma BidAtEndDateIsOnTime(s: Store, req: BidRequest)
    requires StoreValid(s) && HasBidFields(req) && req.auctionId.value in s.records
    requires req.bidAmount.value > s.records[req.auctionId.value].currentBid
    ensures PlaceBidStep(s, req, s.records[req.auctionId.value].auctionEndDate).0.Ok?
  {
    PlaceBidAcceptedIff(s, req, s.records[req.auctionId.value].auctionEndDate);
  }

  lemma PlaceBidPreservesValid(s: Store, req: BidRequest, now: Time)
    requires StoreValid(s)
    ensures StoreValid(PlaceBidStep(s, req, now).1)
    ensures Succeeds(s, PlaceBidStep(s, req, now).1)
  {
    var r := PlaceBidStep(s, req, now);
    if r.0.Ok? {
      var id := req.auctionId.value;
      assert RecordValid(id, r.0.record, s.nextId);
      assert Evolves(s.records[id], r.0.record);
    }
  }

  // ---------------------------------------------------------------------------
  // POST /deleteItem

  /** Delete: a missing identifier is refused, an unknown one is not found; otherwise
      the auction is removed and returned. */
  function DeleteItemStep(s: Store, auctionId: Option<Id>): (r: (Response, Store))
    ensures r.0.Fail? ==> r.1 == s
    ensures r.0 == Fail(MissingFields) <==> auctionId.None?
    ensures r.0 == Fail(NotFound) <==> auctionId.Some? && auctionId.value !in s.records
    ensures r.0.Ok? <==> auctionId.Some? && auctionId.value in s.records
    ensures r.0.Ok? ==>
      && r.0.record == s.records[auctionId.value]
      && r.1 == Store(s.records - {auctionId.value}, s.nextId)
  {
    if auctionId.None? then (Fail(MissingFields), s)
    else if auctionId.value !in s.records then (Fail(NotFound), s)
    else (Ok(s.records[auctionId.value]), Store(s.records - {auctionId.value}, s.nextId))
  }

  lemma DeleteItemShrinksByOne(s: Store, auctionId: Option<Id>)
    ensures var r := DeleteItemStep(s, auctionId);
      r.0.Ok? ==> |r.1.records| == |s.records| - 1 && auctionId.value !in r.1.records
  {
    var r := DeleteItemStep(s, auctionId);
    if r.0.Ok? {
      assert s.records.Keys == r.1.records.Keys + {auctionId.value};
    }
  }

  lemma DeleteItemPreservesValid(s: Store, auctionId: Option<Id>)
    requires StoreValid(s)
    ensures StoreValid(DeleteItemStep(s, auctionId).1)
    ensures Succeeds(s, DeleteItemStep(s, auctionId).1)
  {
  }

  // ---------------------------------------------------------------------------
  // GET /viewAll

  /** Newest first: each auction was created no earlier than every one after it. */
  predicate NewestFirst(s: seq<Auction>)
  {
    forall i, j :: 0 <= i < j < |s| ==> s[i].createdAt >= s[j].createdAt
  }

  /** `a` put into a newest-first list, before the first auction not newer than it. */
  function InsertNewestFirst(a: Auction, s: seq<Auction>): (r: seq<Auction>)
    requires NewestFirst(s)
    ensures NewestFirst(r)
    ensures multiset(r) == multiset(s) + multiset{a}
  {
    if s == [] || a.createdAt >= s[0].createdAt then
      ConsNewestFirst(a, s);
      [a] + s
    else
      var rest := InsertNewestFirst(a, s[1..]);
      assert s == [s[0]] + s[1..];
      NoNewerThanHead(a, s, rest);
      ConsNewestFirst(s[0], rest);
      [s[0]] + rest
  }

  /** An auction no older than every auction of a newest-first list can go in front. */
  lemma ConsNewestFirst(x: Auction, t: seq<Auction>)
    requires NewestFirst(t)
    requires forall i :: 0 <= i < |t| ==> t[i].createdAt <= x.createdAt
    ensures NewestFirst([x] + t)
  {
    var u := [x] + t;
    forall i, j | 0 <= i < j < |u| ensures u[i].createdAt >= u[j].createdAt {
      assert u[j] == t[j - 1];
      if i > 0 {
        assert u[i] == t[i - 1];
      }
    }
  }

  /** What inserting an older auction after the head yields is no newer than the head. */
  lemma NoNewerThanHead(a: Auction, s: seq<Auction>, rest: seq<Auction>)
    requires NewestFirst(s) && s != [] && a.createdAt < s[0].createdAt
    requires multiset(rest) == multiset(s[1..]) + multiset{a}
    ensures forall i :: 0 <= i < |rest| ==> rest[i].createdAt <= s[0].createdAt
  {
    forall i | 0 <= i < |rest| ensures rest[i].createdAt <= s[0].createdAt {
      assert rest[i] in multiset(rest);
      if rest[i] != a {
        assert rest[i] in s[1..];
        var j :| 0 <= j < |s[1..]| && s[1..][j] == rest[i];
        assert s[j + 1] == rest[i];
      }
    }
  }

  /** The collection's `sort({createdAt: -1})`: a newest-first arrangement of `s`. */
  function SortNewestFirst(s: seq<Auction>): (r: seq<Auction>)
    ensures NewestFirst(r)
    ensures multiset(r) == multiset(s)
  {
    if s == [] then []
    else
      assert s == [s[0]] + s[1..];
      InsertNewestFirst(s[0], SortNewestFirst(s[1..]))
  }

  /** The list response: a message, the count when there are auctions, and the data. */
  datatype Listing = Listing(message: string, count: Option<nat>, data: seq<Auction>)

  // ---------------------------------------------------------------------------
  // Sequences of requests

  /** One request to the server, with the time it is handled at. */
  datatype Call =
    | AddNewCall(newReq: NewRequest, at: Time)
    | PlaceBidCall(bidReq: BidRequest, at: Time)
    | DeleteItemCall(auctionId: Option<Id>)

  function Apply(s: Store, c: Call): Store
  {
    match c
    case AddNewCall(req, at) => AddNewStep(s, req, at).1
    case PlaceBidCall(req, at) => PlaceBidStep(s, req, at).1
    case DeleteItemCall(id) => DeleteItemStep(s, id).1
  }

  /** The collection after handling `cs` one after another. */
  function Run(s: Store, cs: seq<Call>): Store
    decreases |cs|
  {
    if cs == [] then s else Run(Apply(s, cs[0]), cs[1..])
  }

  /** An auction's fixed fields stay fixed and its current bid does not go down. */
  predicate Evolves(a: Auction, b: Auction)
  {
    && b.id == a.id
    && b.itemName == a.itemName
    && b.itemCategory == a.itemCategory
    && b.startingBid == a.startingBid
    && b.auctionEndDate == a.auctionEndDate
    && b.itemDescription == a.itemDescription
    && b.createdAt == a.createdAt
    && b.currentBid >= a.currentBid
  }

  /** `t` can follow `s`: identifiers are only handed out, never reused, and every
      auction kept has evolved. */
  predicate Succeeds(s: Store, t: Store)
  {
    && t.nextId >= s.nextId
    && (forall k :: k in s.records && k in t.records ==> Evolves(s.records[k], t.records[k]))
    && (forall k :: k in t.records && k < s.nextId ==> k in s.records)
  }

  lemma ApplyPreservesValid(s: Store, c: Call)
    requires StoreValid(s)
    ensures StoreValid(Apply(s, c))
    ensures Succeeds(s, Apply(s, c))
  {
    match c
    case AddNewCall(req, at) => AddNewPreservesValid(s, req, at);
    case PlaceBidCall(req, at) => PlaceBidPreservesValid(s, req, at);
    case DeleteItemCall(id) => DeleteItemPreservesValid(s, id);
  }

  /** Every sequence of requests keeps the collection valid. */
  lemma {:induction false} RunPreservesValid(s: Store, cs: seq<Call>)
    requires StoreValid(s)
    ensures StoreValid(Run(s, cs))
    ensures Run(s, cs).nextId >= s.nextId
    decreases |cs|
  {
    if cs != [] {
      ApplyPreservesValid(s, cs[0]);
      RunPreservesValid(Apply(s, cs[0]), cs[1..]);
    }
  }

  /** An identifier once handed out and then deleted never comes back. */
  lemma {:induction false} RunNeverReusesIds(s: Store, cs: seq<Call>, k: Id)
    requires StoreValid(s) && k < s.nextId
    ensures k in Run(s, cs).records ==> k in s.records
    decreases |cs|
  {
    if cs != [] {
      ApplyPreservesValid(s, cs[0]);
      RunNeverReusesIds(Apply(s, cs[0]), cs[1..], k);
    }
  }

  /** Over any sequence of requests, an auction that is still there has kept its fixed
      fields, and its current bid has never gone down. */
  lemma {:induction false} RunBidsNeverDecrease(s: Store, cs: seq<Call>, k: Id)
    requires StoreValid(s) && k in s.records && k in Run(s, cs).records
    ensures Evolves(s.records[k], Run(s, cs).records[k])
    decreases |cs|
  {
    if cs != [] {
      var s1 := Apply(s, cs[0]);
      ApplyPreservesValid(s, cs[0]);
      RunNeverReusesIds(s1, cs[1..], k);
      RunBidsNeverDecrease(s1, cs[1..], k);
    }
  }

  /** No request at a time after `end` changes an auction that ends at `end`. */
  predicate AllAfter(cs: seq<Call>, end: Time)
  {
    forall i :: 0 <= i < |cs| && cs[i].PlaceBidCall? ==> cs[i].at > end
  }

  /** One request, if it is a bid, made after auction `k` ended leaves `k` as it was. */
  lemma ApplyAfterEndLeaves(s: Store, c: Call, k: Id)
    requires StoreValid(s) && k in s.records
    requires c.PlaceBidCall? ==> c.at > s.records[k].auctionEndDate
    ensures k in Apply(s, c).records ==> Apply(s, c).records[k] == s.records[k]
  {
  }

  /** Once an auction has ended, its record is frozen: every later bid is refused. */
  lemma {:induction false} RunAfterEndFreezes(s: Store, cs: seq<Call>, k: Id)
    requires StoreValid(s) && k in s.records && k in Run(s, cs).records
    requires AllAfter(cs, s.records[k].auctionEndDate)
    ensures Run(s, cs).records[k] == s.records[k]
    decreases |cs|
  {
    if cs != [] {
      var s1 := Apply(s, cs[0]);
      ApplyPreservesValid(s, cs[0]);
      RunNeverReusesIds(s1, cs[1..], k);
      ApplyAfterEndLeaves(s, cs[0], k);
      assert forall i :: 0 <= i < |cs[1..]| ==> cs[1..][i] == cs[i + 1];
      RunAfterEndFreezes(s1, cs[1..], k);
    }
  }

  /** The walk-through of a create, three bids and a delete: a 50 under the starting
      bid of 100 is refused, 150 is taken, 120 under it is refused, and after the delete
      the collection is empty again. */
  lemma Scenario(lamp: NewRequest, bidder: Option<string>)
    requires HasNewFields(lamp) && lamp.startingBid == Some(100.0) && lamp.auctionEndDate == Some(3600000)
    requires !AllWhitespace(lamp.itemName.value)
    requires !AllWhitespace(lamp.itemCategory.value)
    requires !AllWhitespace(lamp.itemDescription.value)
    requires Truthy(bidder)
    ensures
      var created := AddNewStep(EmptyStore, lamp, 0);
      var low := PlaceBidStep(created.1, BidRequest(Some(0), Some(50.0), bidder), 10);
      var high := PlaceBidStep(low.1, BidRequest(Some(0), Some(150.0), bidder), 20);
      var under := PlaceBidStep(high.1, BidRequest(Some(0), Some(120.0), bidder), 30);
      && created.0.Ok? && created.0.record.currentBid == 100.0 && created.0.record.bidderName.None?
      && low.0 == Fail(BidTooLow)
      && high.0.Ok? && high.0.record.currentBid == 150.0 && high.0.record.bidderName == bidder
      && under.0 == Fail(BidTooLow)
      && DeleteItemStep(under.1, Some(0)).1.records == map[]
  {
    var created := AddNewStep(EmptyStore, lamp, 0);
    AddNewOutcomes(EmptyStore, lamp, 0);
    assert created.1.records == map[0 := created.0.record];
    AddNewPreservesValid(EmptyStore, lamp, 0);
    var low := PlaceBidStep(created.1, BidRequest(Some(0), Some(50.0), bidder), 10);
    assert low.1 == created.1;
    var high := PlaceBidStep(low.1, BidRequest(Some(0), Some(150.0), bidder), 20);
    PlaceBidAcceptedIff(low.1, BidRequest(Some(0), Some(150.0), bidder), 20);
    assert high.1.records == map[0 := high.0.record];
  }

  // ---------------------------------------------------------------------------
  // The server's collection, updated in place

  class AuctionStore {
    var records: map<Id, Auction>
    var nextId: Id

    ghost predicate Valid()
      reads this
    {
      StoreValid(Store(records, nextId))
    }

    function State(): Store
      reads this
    {
      Store(records, nextId)
    }

    constructor ()
      ensures Valid() && State() == EmptyStore
    {
      records := map[];
      nextId := 0;
    }

    /** GET /viewAll: every stored auction once, newest first, with the message and
        count the handler sends. */
    method ViewAll() returns (l: Listing)
      requires Valid()
      ensures NewestFirst(l.data)
      ensures multiset(l.data) == multiset(records.Values)
      ensures |l.data| == |records|
      ensures l.message == (if |records| == 0 then "No auctions found" else "Auctions retrieved successfully")
      ensures l.count == (if |records| == 0 then None else Some(|records|))
    {
      ValidIsInjective(State());
      var found := Tables.ListValues(records);
      var auctions := SortNewestFirst(found);
      if |auctions| == 0 {
        return Listing("No auctions found", None, []);
      }
      l := Listing("Auctions retrieved successfully", Some(|auctions|), auctions);
    }

    /** POST /addNew. */
    method AddNew(req: NewRequest, now: Time) returns (r: Response)
      requires Valid()
      modifies this
      ensures Valid()
      ensures (r, State()) == AddNewStep(old(State()), req, now)
    {
      if !Truthy(req.itemName) || !Truthy(req.itemCategory) || req.startingBid.None?
        || req.auctionEndDate.None? || !Truthy(req.itemDescription)
      {
        return Fail(MissingFields);
      }
      if req.startingBid.value < 0.0 {
        return Fail(InvalidAmount);
      }
      var doc := New(DraftOf(req), nextId, now);
      if !Conforms(doc) {
        return Fail(NotSaved);
      }
      records := records[nextId := doc];
      nextId := nextId + 1;
      r := Ok(doc);
      AddNewPreservesValid(old(State()), req, now);
    }

    /** POST /placeBid: the fetched document is changed field by field and saved back. */
    method PlaceBid(req: BidRequest, now: Time) returns (r: Response)
      requires Valid()
      modifies this
      ensures Valid()
      ensures (r, State()) == PlaceBidStep(old(State()), req, now)
    {
      PlaceBidPreservesValid(State(), req, now);
      if req.auctionId.None? || req.bidAmount.None? || !Truthy(req.bidderName) {
        return Fail(MissingFields);
      }
      var amount := req.bidAmount.value;
      if amount <= 0.0 {
        return Fail(InvalidAmount);
      }
      var id := req.auctionId.value;
      if id !in records {
        return Fail(NotFound);
      }
      var auction := records[id];
      if now > auction.auctionEndDate {
        return Fail(Ended);
      }
      if amount <= auction.currentBid {
        return Fail(BidTooLow);
      }
      auction := auction.(currentBid := amount);
      auction := auction.(bidderName := req.bidderName);
      auction := auction.(updatedAt := now);
      if !Conforms(auction) {
        return Fail(NotSaved);
      }
      records := records[id := auction];
      r := Ok(auction);
    }

    /** POST /deleteItem. */
    method DeleteItem(auctionId: Option<Id>) returns (r: Response)
      requires Valid()
      modifies this
      ensures Valid()
      ensures (r, State()) == DeleteItemStep(old(State()), auctionId)
    {
      DeleteItemPreservesValid(State(), auctionId);
      if auctionId.None? {
        return Fail(MissingFields);
      }
      var id := auctionId.value;
      if id !in records {
        return Fail(NotFound);
      }
      var deleted := records[id];
      records := records - {id};
      r := Ok(deleted);
    }
  }
}
