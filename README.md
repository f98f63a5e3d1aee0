# Auction hub: a verified model of the auction rules

This project models the auction lifecycle of the auction hub web app. A seller lists an
item with a starting bid and an end date. Bidders place bids that must beat the current
bid before the auction ends. Listings can be viewed, newest first, and deleted. The app has
two servers with different rules, and a browser client that checks its forms before it
sends anything. All three are modelled side by side:

- `AuctionModel` (`auction_model.dfy`): the auction schema of `server/models/Auction.js`.
  It covers the fields, the `trim` setters, the defaults (`currentBid` from `startingBid`,
  no bidder, timestamps) and the validators run on save.
- `AuctionRoutes` (`auction_routes.dfy`): the `/viewAll`, `/addNew`, `/placeBid` and
  `/deleteItem` handlers of `server/routes/auctionRoutes.js`.
  - Each handler is a pure step function from a collection to a response and a new
    collection. The `AuctionStore` class updates its fields in place, and its methods are
    proved to agree with the step functions.
  - A validity invariant on the collection is preserved by every request.
  - Lemmas about arbitrary sequences of requests: identifiers are never reused, bids never
    go down, and an ended auction is frozen.
- `RootServer` (`root_server.dfy`): the second server in the root `server.js`, with its
  inline schema. It has a sentinel bidder `"No bids yet"`, trims its input, has no
  end-date check and no minimum bid, and always reports a delete as done.
- `Client` (`client.dfy`): the React component of `src/App.jsx`.
  - The create-form and bid-form checks, first failure wins.
  - `isAuctionEnded` and `getBidBadgeClass`.
  - The `App` class, whose handlers update the component state.
  - Lemmas that compare what the client lets through with what the routes server accepts.
- Support modules:
  - `Text` (`text.dfy`): JavaScript's `String.prototype.trim` over ECMAScript whitespace.
  - `Tables` (`tables.dfy`): the collection scan, a loop that lists every stored document
    once.
  - `Common` (`common.dfy`): `Option`, identifiers, time, money and JavaScript truthiness
    of an optional string.

Values and time:
- Time is an integer (`Time`); money is `real`.
- A field that a request body may lack is an `Option`.
- MongoDB's fresh `ObjectId` is modelled as a counter, `nextId`, that only grows.
- The clock, and whether a request from the client fails, are method parameters.

Three behaviours of the code are easy to miss:
- A text field of only spaces passes the routes server's own missing-field check
  (`!itemName` is false for `"  "`). The schema then trims it to nothing, so the save fails
  with a server error (`NotSaved`) rather than a validation error (`BlankNameFailsOnSave`).
- The schema's `timestamps` option refreshes `updatedAt` when a bid is saved, so a bid
  changes that field as well as `currentBid` and `bidderName`.
- The root server has no end-date check and reports every delete as successful. Its inline
  schema has no minimum on bids, so it stores a negative starting bid
  (`NegativeStartingBidAccepted`).

## Model

| member | source | states |
|---|---|---|
| Text.Trim | server/models/Auction.js:5-14 | the trimmed text has no whitespace at either end, and is empty exactly when the input is all whitespace (what exactly is cut is stated by `Text.TrimIsInfix`) |
| Text.TrimIsInfix | server.js:58-63 | `trim` cuts its input into leading whitespace, the result, and a rest that is all whitespace: only whitespace is dropped, and only at the two ends |
| Text.TrimmedIsFixed | server/models/Auction.js:36-40 | text with no whitespace at its ends is left unchanged by the `trim` setter |
| Text.TrimIdempotent | server/models/Auction.js:5-14 | trimming twice gives the same text as trimming once |
| Tables.ListValues | server/routes/auctionRoutes.js:8 | the collection scan returns every stored document exactly once (same multiset of values, same count) |
| AuctionModel.New | server/models/Auction.js:3-49 | a new document has the three texts trimmed, `currentBid` defaulting to `startingBid`, a null bidder, and both timestamps set to the creation time |
| AuctionModel.Conforms | server/models/Auction.js:5-40 | a document passes the schema's validators exactly when its three required texts are non-empty and both bids are at least 0 |
| AuctionModel.NewConformsIff | server/models/Auction.js:5-40 | a new document passes the schema's validators exactly when no required text is all whitespace and neither bid is below 0 |
| AuctionRoutes.AddNewStep | server/routes/auctionRoutes.js:36-63 | a refused create leaves the collection unchanged; an accepted one stores one document under a fresh id, with `currentBid == startingBid`, no bidder and the trimmed input |
| AuctionRoutes.AddNewOutcomes | server/routes/auctionRoutes.js:36-58 | each create outcome holds exactly when its condition holds, in order: missing field, then negative starting bid, then a text blank after trimming (save fails), otherwise success |
| AuctionRoutes.ZeroStartingBidAccepted | server/routes/auctionRoutes.js:43-47 | a starting bid of exactly 0 is accepted and stored with a current bid of 0 |
| AuctionRoutes.BlankNameFailsOnSave | server/routes/auctionRoutes.js:36-58 | a name of spaces passes the handler's check but fails when the document is saved |
| AuctionRoutes.AddNewGrowsByOne | server/routes/auctionRoutes.js:49-58 | a successful create adds exactly one record, under an id not yet in use |
| AuctionRoutes.AddNewPreservesValid | server/routes/auctionRoutes.js:49-58 | a create keeps the collection valid; ids only grow, no deleted id comes back, and each kept record only evolves (fixed fields kept, bid not lower) |
| AuctionRoutes.PlaceBidStep | server/routes/auctionRoutes.js:78-118 | a refused bid leaves the collection unchanged; an accepted one, on an unended auction and above its current bid, sets that record's bid, bidder and `updatedAt` and changes nothing else |
| AuctionRoutes.PlaceBidOutcomes | server/routes/auctionRoutes.js:78-112 | each refusal holds exactly when every earlier check passed and its own failed, in the order missing fields, amount <= 0, unknown id, ended, amount not above the current bid; a valid collection never fails to save a bid |
| AuctionRoutes.PlaceBidAcceptedIff | server/routes/auctionRoutes.js:78-118 | a bid is accepted exactly when it has all fields, names a stored auction that has not ended, and beats the current bid |
| AuctionRoutes.HasEnded | server/routes/auctionRoutes.js:101 | an auction has ended exactly when the current time is strictly after its end date |
| AuctionRoutes.BidAtEndDateIsOnTime | server/routes/auctionRoutes.js:101 | a bid placed exactly at the end date is still accepted, because the check is a strict `>` |
| AuctionRoutes.PlaceBidPreservesValid | server/routes/auctionRoutes.js:114-118 | a bid keeps the collection valid, and the bid record's fixed fields stay put while its current bid only rises |
| AuctionRoutes.DeleteItemStep | server/routes/auctionRoutes.js:138-157 | a missing id fails and an unknown id is not found, both leaving the collection unchanged; otherwise exactly that record is removed and returned |
| AuctionRoutes.DeleteItemShrinksByOne | server/routes/auctionRoutes.js:146-157 | a successful delete removes one record, and the id is gone afterwards |
| AuctionRoutes.DeleteItemPreservesValid | server/routes/auctionRoutes.js:146 | a delete keeps the collection valid |
| AuctionRoutes.InsertNewestFirst | server/routes/auctionRoutes.js:8 | inserting into a newest-first list keeps it newest first and adds exactly that record |
| AuctionRoutes.SortNewestFirst | server/routes/auctionRoutes.js:8 | `sort({createdAt: -1})` yields a newest-first permutation of the records |
| AuctionRoutes.ApplyPreservesValid | server/routes/auctionRoutes.js:31-164 | any one request keeps the collection valid, never hands out an old id again, and lets each kept record only evolve |
| AuctionRoutes.RunPreservesValid | server/routes/auctionRoutes.js:31-164 | any sequence of requests keeps the collection valid, and the id counter never decreases |
| AuctionRoutes.RunNeverReusesIds | server/routes/auctionRoutes.js:49-58 | once an id has been handed out and deleted, no later request brings it back |
| AuctionRoutes.RunBidsNeverDecrease | server/routes/auctionRoutes.js:107-118 | over any sequence of requests, a surviving auction keeps its fixed fields and its current bid never goes down |
| AuctionRoutes.ApplyAfterEndLeaves | server/routes/auctionRoutes.js:100-105 | one request, if it is a bid, made after an auction's end leaves that auction as it was |
| AuctionRoutes.RunAfterEndFreezes | server/routes/auctionRoutes.js:100-105 | after its end date an auction is frozen: no sequence of later bids changes it |
| AuctionRoutes.Scenario | server/routes/auctionRoutes.js:31-157 | create at 100, then a bid of 50 is refused, 150 is taken with its bidder, 120 is refused, and a delete empties the collection |
| AuctionRoutes.AuctionStore.ViewAll | server/routes/auctionRoutes.js:6-21 | lists every stored auction once, newest first; with none, sends "No auctions found" and no count, otherwise "Auctions retrieved successfully" and the count |
| AuctionRoutes.AuctionStore.AddNew | server/routes/auctionRoutes.js:31-63 | the in-place create gives the step function's response and collection, and keeps the collection valid |
| AuctionRoutes.AuctionStore.PlaceBid | server/routes/auctionRoutes.js:73-123 | the in-place bid, which assigns fields on the fetched document and saves it, gives the step function's response and collection and keeps it valid |
| AuctionRoutes.AuctionStore.DeleteItem | server/routes/auctionRoutes.js:133-157 | the in-place delete gives the step function's response and collection and keeps it valid |
| RootServer.DocumentOf | server.js:57-64 | the document built by `/api/addNew` holds the trimmed input texts, both bids equal to the given starting bid, and the schema's default bidder "No bids yet" |
| RootServer.Conforms | server.js:17-25 | a document passes the inline schema's validators exactly when its four required texts are non-empty; neither bid has a minimum |
| RootServer.AddNewStep | server.js:47-71 | a failed create leaves the collection unchanged; a successful one stores the built document under a fresh id |
| RootServer.AddNewAcceptedIff | server.js:57-67 | a create succeeds exactly when all four texts are given and none is all whitespace and a starting bid is given; the stored bids are equal and the bidder is "No bids yet" |
| RootServer.NegativeStartingBidAccepted | server.js:17-25 | this server stores a negative starting bid, because its schema has no minimum |
| RootServer.AddNewPreservesValid | server.js:57-66 | a create keeps this server's collection valid (trimmed texts, sentinel bidder) |
| RootServer.PlaceBidStep | server.js:74-96 | a bid that is not placed changes nothing; a placed one, on a stored auction and above its bid, sets the bid and the trimmed bidder |
| RootServer.PlaceBidAcceptedIff | server.js:78-93 | a bid is placed exactly when it names a stored auction, gives a bidder and beats the current bid, whatever the end date; an unknown auction, an amount not above the current bid, and a missing amount or bidder (the save error) are each refused exactly when the earlier checks passed and its own failed |
| RootServer.SentinelBidderLooksUnbid | server.js:89-91 | a bidder named "No bids yet" is stored as such, and the auction then looks as if nobody had bid |
| RootServer.PlaceBidPreservesValid | server.js:89-91 | a bid keeps this server's collection valid |
| RootServer.DeleteItemStep | server.js:100-108 | delete always reports success; the given id is absent afterwards and nothing else is removed |
| RootServer.DeleteItemPreservesValid | server.js:102-104 | a delete keeps this server's collection valid |
| RootServer.AuctionStore.ViewAll | server.js:37-44 | lists every stored document once, in no promised order |
| RootServer.AuctionStore.AddNew | server.js:47-71 | the in-place create gives the step function's status and collection and keeps it valid |
| RootServer.AuctionStore.PlaceBid | server.js:74-97 | the in-place bid gives the step function's status and collection and keeps it valid |
| RootServer.AuctionStore.DeleteItem | server.js:100-108 | the in-place delete gives the step function's status and collection and keeps it valid |
| Client.CheckAuctionForm | src/App.jsx:75-100 | the create form passes exactly when name, category and description are not blank, the starting bid is above 0, and the end date is given and after now |
| Client.AuctionFormFirstFailure | src/App.jsx:75-100 | each create-form problem is reported exactly when every earlier check passed and its own failed |
| Client.CheckedAuctionFormIsAccepted | src/App.jsx:104-110 | whatever the create form lets through, the routes server stores |
| Client.ZeroStartingBidOnlyServerAccepts | src/App.jsx:83-86 | a starting bid of 0 is refused by the client but would be stored by the routes server |
| Client.PastEndDateOnlyServerAccepts | src/App.jsx:97-100 | an end date not after now is refused by the client but would be stored by the routes server |
| Client.CheckBidForm | src/App.jsx:145-158 | the bid form passes exactly when the bidder is not blank and the amount is positive and above the selected auction's current bid; each problem is reported in the source's order |
| Client.CheckedBidIsAccepted | src/App.jsx:145-166 | a bid the client lets through is taken by the server when the client's copy of the auction is current and the auction has not ended |
| Client.StaleCopyBidRefused | src/App.jsx:153-158 | when the stored bid has meanwhile risen to at least the amount, the server refuses a bid the client allowed |
| Client.IsAuctionEnded | src/App.jsx:215-217 | the client shows an auction as ended exactly when the current time is strictly after its end date |
| Client.EndedAgreesWithServer | src/App.jsx:215-217 | `isAuctionEnded` holds exactly when the routes server refuses a complete, positive bid as ended |
| Client.BidBadgeClass | src/App.jsx:232-237 | the badge is "badge-primary" exactly when the bidder is truthy, and "badge-warning" otherwise |
| Client.BadgeShowsWhetherBidPlaced | src/App.jsx:232-237 | on a stored auction, the badge is highlighted exactly when the current bid has moved off the starting bid |
| Client.App.constructor | src/App.jsx:11-32 | the component starts with no auctions, no messages, empty forms and the bid dialog closed |
| Client.App.HandleAddAuction | src/App.jsx:71-131 | a failed check is shown and nothing is sent; otherwise the typed form is sent, and on success the form is reset and a success message shown, on failure the error text is shown |
| Client.App.HandleOpenBidModal | src/App.jsx:133-138 | opening the dialog selects the auction, empties the bid form, clears the bid error and shows the dialog |
| Client.App.HandlePlaceBid | src/App.jsx:140-179 | a failed check is shown in the dialog and nothing is sent; otherwise the bid is sent for the selected auction, and on success the dialog closes, on failure its error is shown |

## Left out

- The MongoDB connection, the Express app setup, its middleware and logging
  (`server/server.js`, `server/config/db.js`, lines 1-14 and 110-114 of `server.js`) and
  the Vite config: plumbing with no rules in it.
- HTTP status codes and JSON envelopes are reduced to result kinds (`Response`, `Status`,
  `FormError`). Messages that embed a number (the "current bid of $…" texts) carry the
  number instead of the formatted text.
- The store error (500) of a failed database call, except a save refused by the schema's
  validators. A malformed `ObjectId` that fails the cast in `findById` is not modelled
  either: identifiers are natural numbers.
- JavaScript type coercion: `Number(...)`, `parseFloat`, the truthiness of non-string
  bodies, and comparing a form's text with a number. Inputs are typed, with optional
  fields. A non-numeric starting bid or bid amount typed into the client is not modelled.
- Date parsing and formatting (`new Date`, `toISOString`, `formatDate`,
  `getMinDateTime`). Time is an abstract integer, and the root server's end date is
  kept as text.
- Floating point: money is `real`, and the `currentBid + 0.01` display minimum and
  `toFixed` formatting are not modelled.
- The read-modify-write race between two concurrent bids on one auction: each request
  is handled atomically.
- The client's polling (`setInterval`, `fetchAuctions`), the auto-clearing message timers,
  the rendering, and the axios calls. A request's outcome is a method parameter, and
  refreshing `auctions` after a request is not modelled.
- `handleDeleteAuction` in the client, which only asks `window.confirm` and sends the
  request: the delete rules are modelled on both servers.
- RootServer.DeleteItemStep: with no id, Mongoose's `Model.findByIdAndDelete(undefined)` is
  modelled as deleting nothing.
- Both servers use the same `auctions` collection of the `auctionDB` database; the model
  gives each server a store of its own. A document created by the root server (bidder
  "No bids yet", no minimum bid) would break the routes server's invariant that an
  auction has no bidder exactly when its current bid equals its starting bid.
- AuctionRoutes.AddNewStep: the routes server does not compare the end date with the time
  of creation, so neither does the model. The client's check is modelled in
  `Client.CheckAuctionForm`.
- Client.App.HandleAddAuction: `loading` is modelled only as it is after the handler
  returns, not during the request.
