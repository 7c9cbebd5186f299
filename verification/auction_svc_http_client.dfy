/**
 * The search service's catch-up pull: it finds the newest update among its
 * local search records (the watermark) and asks the auction service for the
 * auctions updated strictly after it. Search records are copies of auction
 * records; the date travels as text and back, which is taken as exact.
 */
module AuctionSvcHttpClient {
  import opened Wrappers
  import opened AuctionEntities
  import opened AuctionData
  import AuctionsController

  /** The greatest `updatedAt` among the local records; `None` (null) when there are none. */
  function Watermark(items: seq<Auction>): (w: Option<int>)
    ensures w.None? <==> |items| == 0
    ensures w.Some? ==> exists i :: 0 <= i < |items| && items[i].updatedAt == w.value
    ensures w.Some? ==> forall i :: 0 <= i < |items| ==> items[i].updatedAt <= w.value
    decreases |items|
  {
    if |items| == 0 then None
    else
      var earlier := Watermark(items[..|items| - 1]);
      var last := items[|items| - 1].updatedAt;
      if earlier.Some? && earlier.value >= last then earlier else Some(last)
  }

  /**
   * Being updated after the watermark is being updated after every local
   * record; with no local records, every auction qualifies.
   */
  lemma AfterWatermark(local: seq<Auction>, a: Auction)
    ensures AuctionsController.UpdatedAfter(a, Watermark(local)) <==>
              forall i :: 0 <= i < |local| ==> local[i].updatedAt < a.updatedAt
  {
  }

  /**
   * The items to add to the search database: exactly the stored auctions
   * updated strictly after the watermark, so a record stamped exactly at it
   * is not fetched again; with no local records, all of them.
   */
  method GetItemsForSearchDb(local: seq<Auction>, db: AuctionDb) returns (fetched: seq<Auction>)
    requires KeysMatchIds(db.auctions)
    ensures forall a :: a in fetched <==> a in db.auctions.Values && AuctionsController.UpdatedAfter(a, Watermark(local))
    ensures |fetched| == |AuctionsController.Matching(db.auctions, db.auctions.Keys, Watermark(local))|
    ensures AuctionsController.SortedByMake(fetched)
  {
    fetched := AuctionsController.GetAllAuctions(db, Watermark(local));
    forall a | a in db.auctions.Values && AuctionsController.UpdatedAfter(a, Watermark(local))
      ensures a in fetched
    {
      var k :| k in db.auctions && db.auctions[k] == a;
    }
  }
}
