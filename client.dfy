/** The browser client: its form checks, which run before any request is sent, the
    two display rules, and the component state its handlers update. It talks to the
    routes server, so its requests and the auctions it shows are that server's. */
module Client {
  import opened Common
  import opened Text
  import opened AuctionModel
  import AuctionRoutes

  /** The create form. An empty number or date input is `None`. */
  datatype AuctionForm = AuctionForm(
    itemName: string,
    itemCategory: string,
    startingBid: Option<Money>,
    auctionEndDate: Option<Time>,
    itemDescription: string)

  const EmptyAuctionForm := AuctionForm("", "", None, None, "")

  /** The bid form in the bid dialog. */
  datatype BidForm = BidForm(bidAmount: Option<Money>, bidderName: string)

  const EmptyBidForm := BidForm(None, "")

  /** The problems the client reports before sending anything. */
  datatype FormError =
    | NameRequired
    | CategoryRequired
    | StartingBidNotPositive
    | EndDateRequired
    | DescriptionRequired
    | EndDateNotInFuture
    | BidderNameRequired
    | BidAmountNotPositive
    | BidNotHigher(currentBid: Money)

  // ---------------------------------------------------------------------------
  // The create form

  /** Everything the create form demands: name, category and description not blank,
      a positive starting bid, and an end date strictly after `now`. */
  predicate AuctionFormOk(f: AuctionForm, now: Time)
  {
    && !AllWhitespace(f.itemName)
    && !AllWhitespace(f.itemCategory)
    && f.startingBid.Some? && f.startingBid.value > 0.0
    && f.auctionEndDate.Some?
    && !AllWhitespace(f.itemDescription)
    && f.auctionEndDate.value > now
  }

  /** The create form's checks, first failure wins. */
  function CheckAuctionForm(f: AuctionForm, now: Time): (r: Option<FormError>)
    ensures r.None? <==> AuctionFormOk(f, now)
  {
    if Trim(f.itemName) == "" then Some(NameRequired)
    else if Trim(f.itemCategory) == "" then Some(CategoryRequired)
    else if f.startingBid.None? || f.startingBid.value <= 0.0 then Some(StartingBidNotPositive)
    else if f.auctionEndDate.None? then Some(EndDateRequired)
    else if Trim(f.itemDescription) == "" then Some(DescriptionRequired)
    else if f.auctionEndDate.value <= now then Some(EndDateNotInFuture)
    else None
  }

  /** Each problem of the create form is reported exactly when every earlier check
      passed and its own failed. */
  lemma AuctionFormFirstFailure(f: AuctionForm, now: Time)
    ensures var r := CheckAuctionForm(f, now);
      && (r == Some(NameRequired) <==> AllWhitespace(f.itemName))
      && (r == Some(CategoryRequired) <==> !AllWhitespace(f.itemName) && AllWhitespace(f.itemCategory))
      && (r == Some(StartingBidNotPositive) <==>
            && !AllWhitespace(f.itemName) && !AllWhitespace(f.itemCategory)
            && (f.startingBid.None? || f.startingBid.value <= 0.0))
      && (r == Some(EndDateRequired) <==>
            && !AllWhitespace(f.itemName) && !AllWhitespace(f.itemCategory)
            && f.startingBid.Some? && f.startingBid.value > 0.0
            && f.auctionEndDate.None?)
      && (r == Some(DescriptionRequired) <==>
            && !AllWhitespace(f.itemName) && !AllWhitespace(f.itemCategory)
            && f.startingBid.Some? && f.startingBid.value > 0.0
            && f.auctionEndDate.Some?
            && AllWhitespace(f.itemDescription))
      && (r == Some(EndDateNotInFuture) <==>
            && !AllWhitespace(f.itemName) && !AllWhitespace(f.itemCategory)
            && f.startingBid.Some? && f.startingBid.value > 0.0
            && f.auctionEndDate.Some?
            && !AllWhitespace(f.itemDescription)
            && f.auctionEndDate.value <= now)
  {
  }

  /** The body the client posts for a checked form: the text as typed, untrimmed. */
  function NewRequestOf(f: AuctionForm): AuctionRoutes.NewRequest
  {
    AuctionRoutes.NewRequest(
      Some(f.itemName), Some(f.itemCategory), f.startingBid, f.auctionEndDate, Some(f.itemDescription))
  }

  /** Whatever the create form lets through, the routes server stores. */
  lemma CheckedAuctionFormIsAccepted(s: AuctionRoutes.Store, f: AuctionForm, now: Time)
    requires CheckAuctionForm(f, now).None?
    ensures AuctionRoutes.AddNewStep(s, NewRequestOf(f), now).0.Ok?
  {
    AuctionRoutes.AddNewOutcomes(s, NewRequestOf(f), now);
  }

  /** A starting bid of 0 is refused by the client but would be stored by the server. */
  lemma ZeroStartingBidOnlyServerAccepts(s: AuctionRoutes.Store, f: AuctionForm, now: Time)
    requires !AllWhitespace(f.itemName) && !AllWhitespace(f.itemCategory) && !AllWhitespace(f.itemDescription)
    requires f.startingBid == Some(0.0) && f.auctionEndDate.Some?
    ensures CheckAuctionForm(f, now) == Some(StartingBidNotPositive)
    ensures AuctionRoutes.AddNewStep(s, NewRequestOf(f), now).0.Ok?
  {
    AuctionRoutes.AddNewOutcomes(s, NewRequestOf(f), now);
  }

  /** An end date already past is refused by the client but would be stored by the
      server, which never compares it with the time of creation. */
  lemma PastEndDateOnlyServerAccepts(s: AuctionRoutes.Store, f: AuctionForm, now: Time)
    requires !AllWhitespace(f.itemName) && !AllWhitespace(f.itemCategory) && !AllWhitespace(f.itemDescription)
    requires f.startingBid.Some? && f.startingBid.value > 0.0
    requires f.auctionEndDate.Some? && f.auctionEndDate.value <= now
    ensures CheckAuctionForm(f, now) == Some(EndDateNotInFuture)
    ensures AuctionRoutes.AddNewStep(s, NewRequestOf(f), now).0.Ok?
  {
    AuctionRoutes.AddNewOutcomes(s, NewRequestOf(f), now);
  }

  // ---------------------------------------------------------------------------
  // The bid form

  /** The bid form's checks against the auction the dialog was opened for, first
      failure wins. */
  function CheckBidForm(b: BidForm, selected: Auction): (r: Option<FormError>)
    ensures r.None? <==>
      && !AllWhitespace(b.bidderName)
      && b.bidAmount.Some? && b.bidAmount.value > 0.0
      && b.bidAmount.value > selected.currentBid
    ensures r == Some(BidderNameRequired) <==> AllWhitespace(b.bidderName)
    ensures r == Some(BidAmountNotPositive) <==>
      !AllWhitespace(b.bidderName) && (b.bidAmount.None? || b.bidAmount.value <= 0.0)
    ensures r.Some? && r.value.BidNotHigher? <==>
      && !AllWhitespace(b.bidderName)
      && b.bidAmount.Some? && b.bidAmount.value > 0.0
      && b.bidAmount.value <= selected.currentBid
  {
    if Trim(b.bidderName) == "" then Some(BidderNameRequired)
    else if b.bidAmount.None? || b.bidAmount.value <= 0.0 then Some(BidAmountNotPositive)
    else if b.bidAmount.value <= selected.currentBid then Some(BidNotHigher(selected.currentBid))
    else None
  }

  /** The body the client posts for a checked bid: the name as typed, untrimmed. */
  function BidRequestOf(b: BidForm, selected: Auction): AuctionRoutes.BidRequest
  {
    AuctionRoutes.BidRequest(Some(selected.id), b.bidAmount, Some(b.bidderName))
  }

  /** Whether the auction is over: strictly after its end date, as the server decides. */
  predicate IsAuctionEnded(endDate: Time, now: Time)
  {
    now > endDate
  }

  /** A bid the client lets through, on an auction whose copy in the client is still
      the stored one and has not ended, is taken by the server. */
  lemma CheckedBidIsAccepted(s: AuctionRoutes.Store, b: BidForm, selected: Auction, now: Time)
    requires AuctionRoutes.StoreValid(s)
    requires selected.id in s.records && s.records[selected.id] == selected
    requires !IsAuctionEnded(selected.auctionEndDate, now)
    requires CheckBidForm(b, selected).None?
    ensures AuctionRoutes.PlaceBidStep(s, BidRequestOf(b, selected), now).0.Ok?
  {
    AuctionRoutes.PlaceBidAcceptedIff(s, BidRequestOf(b, selected), now);
  }

  /** The client checks against its own copy; when another bid has since raised the
      stored one to at least this amount, the server refuses what the client allowed. */
  lemma StaleCopyBidRefused(s: AuctionRoutes.Store, b: BidForm, selected: Auction, now: Time)
    requires AuctionRoutes.StoreValid(s)
    requires selected.id in s.records && !IsAuctionEnded(s.records[selected.id].auctionEndDate, now)
    requires CheckBidForm(b, selected).None?
    requires b.bidAmount.value <= s.records[selected.id].currentBid
    ensures AuctionRoutes.PlaceBidStep(s, BidRequestOf(b, selected), now).0 == AuctionRoutes.Fail(AuctionRoutes.BidTooLow)
  {
    AuctionRoutes.PlaceBidOutcomes(s, BidRequestOf(b, selected), now);
  }

  /** The client's "ended" badge and the server's refusal of late bids use the same
      rule: for a complete, positive bid on a stored auction, the server answers
      "ended" exactly when the client shows the auction as ended. */
  lemma EndedAgreesWithServer(s: AuctionRoutes.Store, req: AuctionRoutes.BidRequest, now: Time)
    requires AuctionRoutes.StoreValid(s)
    requires AuctionRoutes.HasBidFields(req) && req.bidAmount.value > 0.0
    requires req.auctionId.value in s.records
    ensures AuctionRoutes.PlaceBidStep(s, req, now).0 == AuctionRoutes.Fail(AuctionRoutes.Ended) <==>
      IsAuctionEnded(s.records[req.auctionId.value].auctionEndDate, now)
  {
    AuctionRoutes.PlaceBidOutcomes(s, req, now);
  }

  /** The class of the bidder badge: highlighted when someone has bid. */
  function BidBadgeClass(a: Auction): (c: string)
    ensures c == "badge-primary" <==> Truthy(a.bidderName)
    ensures c == "badge-primary" || c == "badge-warning"
  {
    if Truthy(a.bidderName) then "badge-primary" else "badge-warning"
  }

  /** On a stored auction the badge is highlighted exactly when the current bid has
      moved off the starting bid. */
  lemma BadgeShowsWhetherBidPlaced(s: AuctionRoutes.Store, k: Id)
    requires AuctionRoutes.StoreValid(s) && k in s.records
    ensures BidBadgeClass(s.records[k]) == "badge-primary" <==>
      s.records[k].currentBid > s.records[k].startingBid
  {
    assert AuctionRoutes.RecordValid(k, s.records[k], s.nextId);
  }

  // ---------------------------------------------------------------------------
  // The component state

  /** What the error banners show: a form problem, or a failed request's text. */
  datatype Alert = Invalid(problem: FormError) | RequestFailed(reason: string)

  class App {
    var auctions: seq<Auction>
    var loading: bool
    var error: Option<Alert>
    var success: string
    var formData: AuctionForm
    var showBidModal: bool
    var selectedAuction: Option<Auction>
    var bidData: BidForm
    var bidError: Option<Alert>

    constructor ()
      ensures auctions == [] && !loading && error == None && success == ""
      ensures formData == EmptyAuctionForm
      ensures !showBidModal && selectedAuction == None && bidData == EmptyBidForm && bidError == None
    {
      auctions := [];
      loading := false;
      error := None;
      success := "";
      formData := EmptyAuctionForm;
      showBidModal := false;
      selectedAuction := None;
      bidData := EmptyBidForm;
      bidError := None;
    }

    /** Submitting the create form: a failed check is shown and nothing is sent;
        otherwise the request is sent, and its outcome (`failure`, the error text, or
        `None` for success) decides between clearing the form and showing the error. */
    method HandleAddAuction(now: Time, failure: Option<string>) returns (sent: Option<AuctionRoutes.NewRequest>)
      modifies this`error, this`loading, this`success, this`formData
      ensures var check := CheckAuctionForm(old(formData), now);
        && (sent.None? <==> check.Some?)
        && (check.Some? ==>
              error == Some(Invalid(check.value)) && formData == old(formData)
              && loading == old(loading) && success == old(success))
      ensures sent.Some? ==> sent.value == NewRequestOf(old(formData)) && !loading
      ensures sent.Some? && failure.None? ==>
        success == "Auction created successfully!" && formData == EmptyAuctionForm && error == None
      ensures sent.Some? && failure.Some? ==>
        && error == Some(RequestFailed("Failed to create auction: " + failure.value))
        && formData == old(formData) && success == old(success)
    {
      var check := CheckAuctionForm(formData, now);
      if check.Some? {
        error := Some(Invalid(check.value));
        return None;
      }
      loading := true;
      sent := Some(NewRequestOf(formData));
      if failure.None? {
        success := "Auction created successfully!";
        formData := EmptyAuctionForm;
        error := None;
      } else {
        error := Some(RequestFailed("Failed to create auction: " + failure.value));
      }
      loading := false;
    }

    /** Opening the bid dialog for an auction: the form and its error are cleared. */
    method HandleOpenBidModal(a: Auction)
      modifies this`selectedAuction, this`bidData, this`bidError, this`showBidModal
      ensures selectedAuction == Some(a) && bidData == EmptyBidForm && bidError == None && showBidModal
    {
      selectedAuction := Some(a);
      bidData := EmptyBidForm;
      bidError := None;
      showBidModal := true;
    }

    /** Submitting the bid form: the dialog's error is cleared, a failed check is shown
        and nothing is sent; otherwise the bid is sent, and on success the dialog
        closes, on failure the error text is shown in it. */
    method HandlePlaceBid(failure: Option<string>) returns (sent: Option<AuctionRoutes.BidRequest>)
      requires selectedAuction.Some?
      modifies this`bidError, this`loading, this`success, this`showBidModal
      ensures var check := CheckBidForm(old(bidData), old(selectedAuction).value);
        && (sent.None? <==> check.Some?)
        && (check.Some? ==>
              bidError == Some(Invalid(check.value)) && loading == old(loading)
              && showBidModal == old(showBidModal) && success == old(success))
      ensures sent.Some? ==> sent.value == BidRequestOf(old(bidData), old(selectedAuction).value) && !loading
      ensures sent.Some? && failure.None? ==>
        success == "Bid placed successfully!" && !showBidModal && bidError == None
      ensures sent.Some? && failure.Some? ==>
        && bidError == Some(RequestFailed("Failed to place bid: " + failure.value))
        && showBidModal == old(showBidModal) && success == old(success)
    {
      bidError := None;
      var selected := selectedAuction.value;
      var check := CheckBidForm(bidData, selected);
      if check.Some? {
        bidError := Some(Invalid(check.value));
        return None;
      }
      loading := true;
      sent := Some(BidRequestOf(bidData, selected));
      if failure.None? {
        success := "Bid placed successfully!";
        showBidModal := false;
      } else {
        bidError := Some(RequestFailed("Failed to place bid: " + failure.value));
      }
      loading := false;
    }
  }
}
