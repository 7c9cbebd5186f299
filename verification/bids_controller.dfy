/**
 * The bidding service's controller: placing a bid on an auction, and
 * listing the bids of an auction.
 *
 * The service keeps a replica of the auctions it knows about, an
 * append-only store of bids, and the sequence of events it has published.
 * When the replica lacks an auction, it asks the auction service over a
 * synchronous call, modelled as an uninterpreted lookup function.
 */
module BidsController {
  import opened Wrappers
  import opened BiddingEntities
  import Contracts

  const CannotAcceptBids := "Cannot accept bids on this auction at this time"
  const CannotBidOnOwnAuction := "You cannot bid on your own auction"

  datatype BiddingDb = BiddingDb(
    auctions: map<string, Auction>,
    bids: seq<Bid>,
    published: seq<Contracts.Event>)

  datatype BidResponse = Ok(bid: Bid) | BadRequest(message: string)

  datatype BidOutcome = BidOutcome(db: BiddingDb, response: BidResponse)

  /** The remote auction lookup: `None` when the auction service does not know the id. */
  type AuctionLookup = string -> Option<Auction>

  /**
   * The amount of the highest stored bid for the auction, whatever its
   * status, or `None` when the auction has no stored bid.
   */
  function HighBid(bids: seq<Bid>, auctionId: string): (h: Option<int>)
    ensures h.None? <==> forall i :: 0 <= i < |bids| ==> bids[i].auctionId != auctionId
    ensures h.Some? ==> exists i :: 0 <= i < |bids| && bids[i].auctionId == auctionId && bids[i].amount == h.value
    ensures h.Some? ==> forall i :: 0 <= i < |bids| && bids[i].auctionId == auctionId ==> bids[i].amount <= h.value
    decreases |bids|
  {
    if |bids| == 0 then None
    else
      var earlier := HighBid(bids[..|bids| - 1], auctionId);
      var last := bids[|bids| - 1];
      if last.auctionId != auctionId then earlier
      else if earlier.Some? && earlier.value >= last.amount then earlier
      else Some(last.amount)
  }

  /**
   * The status a bid receives, written as the controller assigns it: a bid
   * starts with the enum's default status, the "new high bid" branch may set
   * it, and the "too low" branch may then overwrite it. The contract shows
   * that the two branches are complementary, so the default never survives
   * and each status has a single, exact condition.
   */
  function StatusFor(now: int, auctionEnd: int, reservePrice: int, highBid: Option<int>, amount: int): (s: BidStatus)
    ensures s == Finished <==> auctionEnd < now
    ensures s == TooLow <==> now <= auctionEnd && highBid.Some? && amount <= highBid.value
    ensures s == Accepted <==> now <= auctionEnd && (highBid.None? || highBid.value < amount) && reservePrice < amount
    ensures s == AcceptedBelowReserve <==>
              now <= auctionEnd && (highBid.None? || highBid.value < amount) && amount <= reservePrice
  {
    if auctionEnd < now then Finished
    else
      var initial := Accepted;
      var afterHighBidCheck :=
        if (highBid.Some? && amount > highBid.value) || highBid.None? then
          (if amount > reservePrice then Accepted else AcceptedBelowReserve)
        else initial;
      if highBid.Some? && amount <= highBid.value then TooLow else afterHighBidCheck
  }

  /**
   * Places a bid of `amount` by `caller` at instant `now`. A rejected call
   * changes nothing; an admitted one stores exactly one bid and publishes
   * exactly one `BidPlaced` for it.
   */
  function PlaceBid(db: BiddingDb, lookup: AuctionLookup, auctionId: string, amount: int, caller: string, now: int): (r: BidOutcome)
    ensures auctionId !in db.auctions && lookup(auctionId).None? ==>
              r == BidOutcome(db, BadRequest(CannotAcceptBids))
    ensures auctionId in db.auctions && db.auctions[auctionId].seller == caller ==>
              r == BidOutcome(db, BadRequest(CannotBidOnOwnAuction))
    ensures auctionId !in db.auctions && lookup(auctionId).Some? && lookup(auctionId).value.seller == caller ==>
              r == BidOutcome(db, BadRequest(CannotBidOnOwnAuction))
    ensures r.response.Ok? <==>
              || (auctionId in db.auctions && db.auctions[auctionId].seller != caller)
              || (auctionId !in db.auctions && lookup(auctionId).Some? && lookup(auctionId).value.seller != caller)
    ensures r.response.Ok? ==>
              var auction := if auctionId in db.auctions then db.auctions[auctionId] else lookup(auctionId).value;
              var bid := r.response.bid;
              && bid.auctionId == auctionId && bid.bidder == caller && bid.amount == amount && bid.bidTime == now
              && bid.status == StatusFor(now, auction.auctionEnd, auction.reservePrice, HighBid(db.bids, auctionId), amount)
              && r.db.bids == db.bids + [bid]
              && r.db.published == db.published + [Contracts.BidPlaced(bid)]
              && r.db.auctions == db.auctions
  {
    var found := if auctionId in db.auctions then Some(db.auctions[auctionId]) else lookup(auctionId);
    match found
    case None => BidOutcome(db, BadRequest(CannotAcceptBids))
    case Some(auction) =>
      if auction.seller == caller then BidOutcome(db, BadRequest(CannotBidOnOwnAuction))
      else
        var status := StatusFor(now, auction.auctionEnd, auction.reservePrice, HighBid(db.bids, auctionId), amount);
        var bid := Bid(auctionId, caller, now, amount, status);
        BidOutcome(db.(bids := db.bids + [bid], published := db.published + [Contracts.BidPlaced(bid)]), Ok(bid))
  }

  /**
   * The remote lookup matters only for auctions missing from the replica:
   * with the auction in the replica, any two lookups give the same outcome.
   */
  lemma ReplicaFirst(db: BiddingDb, lookup: AuctionLookup, other: AuctionLookup, auctionId: string, amount: int, caller: string, now: int)
    requires auctionId in db.auctions
    ensures PlaceBid(db, lookup, auctionId, amount, caller, now) == PlaceBid(db, other, auctionId, amount, caller, now)
  {
  }

  /**
   * Every bid that was accepted (with or without meeting the reserve) is
   * strictly higher than every bid stored before it for the same auction.
   */
  ghost predicate AcceptedAreNewMaxima(bids: seq<Bid>) {
    forall i, j :: 0 <= i < j < |bids| && bids[i].auctionId == bids[j].auctionId && bids[j].status.IsAccepted() ==>
      bids[i].amount < bids[j].amount
  }

  /** Accepted bids of one auction have strictly increasing amounts in arrival order. */
  ghost predicate AcceptedIncreasing(bids: seq<Bid>) {
    forall i, j :: 0 <= i < j < |bids| && bids[i].auctionId == bids[j].auctionId
                   && bids[i].status.IsAccepted() && bids[j].status.IsAccepted() ==>
      bids[i].amount < bids[j].amount
  }

  lemma PlaceBidKeepsAcceptedMaxima(db: BiddingDb, lookup: AuctionLookup, auctionId: string, amount: int, caller: string, now: int)
    requires AcceptedAreNewMaxima(db.bids)
    ensures AcceptedAreNewMaxima(PlaceBid(db, lookup, auctionId, amount, caller, now).db.bids)
  {
    var r := PlaceBid(db, lookup, auctionId, amount, caller, now);
    if r.response.Ok? {
      var bids := r.db.bids;
      var n := |db.bids|;
      assert bids[..n] == db.bids;
      var high := HighBid(db.bids, auctionId);
      forall i | 0 <= i < n && bids[i].auctionId == bids[n].auctionId && bids[n].status.IsAccepted()
        ensures bids[i].amount < bids[n].amount
      {
        assert db.bids[i].auctionId == auctionId;
        assert high.Some?;
      }
    }
  }

  /** One request to `PlaceBid`. */
  datatype BidRequest = BidRequest(auctionId: string, amount: int, bidder: string, time: int)

  /** The bidding database after serving `requests` in order. */
  function Replay(db: BiddingDb, lookup: AuctionLookup, requests: seq<BidRequest>): BiddingDb
    decreases |requests|
  {
    if |requests| == 0 then db
    else
      var q := requests[0];
      Replay(PlaceBid(db, lookup, q.auctionId, q.amount, q.bidder, q.time).db, lookup, requests[1..])
  }

  /**
   * From an empty bid store, any sequence of calls, at any instants and for
   * any auctions, leaves a store whose accepted bids are each a strict new
   * maximum for their auction, and so are strictly increasing.
   */
  lemma {:induction false} ReplayKeepsAcceptedIncreasing(db: BiddingDb, lookup: AuctionLookup, requests: seq<BidRequest>)
    requires AcceptedAreNewMaxima(db.bids)
    ensures AcceptedAreNewMaxima(Replay(db, lookup, requests).bids)
    ensures AcceptedIncreasing(Replay(db, lookup, requests).bids)
    decreases |requests|
  {
    if |requests| > 0 {
      var q := requests[0];
      PlaceBidKeepsAcceptedMaxima(db, lookup, q.auctionId, q.amount, q.bidder, q.time);
      ReplayKeepsAcceptedIncreasing(PlaceBid(db, lookup, q.auctionId, q.amount, q.bidder, q.time).db, lookup, requests[1..]);
    }
  }

  /** The stored bids of one auction, in store order. */
  function BidsOf(bids: seq<Bid>, auctionId: string): (r: seq<Bid>)
    ensures forall b :: multiset(r)[b] == if b.auctionId == auctionId then multiset(bids)[b] else 0
    decreases |bids|
  {
    if |bids| == 0 then []
    else
      var last := bids[|bids| - 1];
      assert bids == bids[..|bids| - 1] + [last];
      BidsOf(bids[..|bids| - 1], auctionId) + (if last.auctionId == auctionId then [last] else [])
  }

  ghost predicate NewestFirst(bids: seq<Bid>) {
    forall i, j :: 0 <= i < j < |bids| ==> bids[i].bidTime >= bids[j].bidTime
  }

  function InsertNewestFirst(b: Bid, sorted: seq<Bid>): (r: seq<Bid>)
    requires NewestFirst(sorted)
    ensures NewestFirst(r)
    ensures multiset(r) == multiset(sorted) + multiset{b}
    decreases |sorted|
  {
    if |sorted| == 0 || b.bidTime >= sorted[0].bidTime then
      PrependNewestKeepsOrder(b, sorted);
      [b] + sorted
    else
      var rest := InsertNewestFirst(b, sorted[1..]);
      assert sorted == [sorted[0]] + sorted[1..];
      forall k | 0 <= k < |rest| ensures sorted[0].bidTime >= rest[k].bidTime {
        assert rest[k] in multiset(rest);
        if rest[k] != b {
          assert rest[k] in sorted[1..];
        }
      }
      PrependNewestKeepsOrder(sorted[0], rest);
      [sorted[0]] + rest
  }

  lemma PrependNewestKeepsOrder(b: Bid, sorted: seq<Bid>)
    requires NewestFirst(sorted)
    requires forall k :: 0 <= k < |sorted| ==> b.bidTime >= sorted[k].bidTime
    ensures NewestFirst([b] + sorted)
  {
    var r := [b] + sorted;
    forall i, j | 0 <= i < j < |r| ensures r[i].bidTime >= r[j].bidTime {
      if i > 0 {
        assert r[i] == sorted[i - 1];
      }
      assert r[j] == sorted[j - 1];
    }
  }

  function SortNewestFirst(bids: seq<Bid>): (r: seq<Bid>)
    ensures NewestFirst(r)
    ensures multiset(r) == multiset(bids)
    decreases |bids|
  {
    if |bids| == 0 then []
    else
      assert bids == [bids[0]] + bids[1..];
      InsertNewestFirst(bids[0], SortNewestFirst(bids[1..]))
  }

  /**
   * The bids of one auction, newest first: exactly the stored bids with that
   * auction id, each as often as it is stored, ordered by bid time
   * non-increasing (ties in any order).
   */
  function GetBidsForAuction(db: BiddingDb, auctionId: string): (r: seq<Bid>)
    ensures forall b :: multiset(r)[b] == if b.auctionId == auctionId then multiset(db.bids)[b] else 0
    ensures forall i :: 0 <= i < |r| ==> r[i].auctionId == auctionId
    ensures NewestFirst(r)
  {
    var r := SortNewestFirst(BidsOf(db.bids, auctionId));
    assert forall i :: 0 <= i < |r| ==> r[i] in multiset(r);
    r
  }
}
