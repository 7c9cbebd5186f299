/**
 * The auction service's HTTP controller over the auctions table and the
 * outbox. Route ids arrive as text and are bound to GUIDs first; text that
 * is not a GUID is answered with a 400 before the controller runs.
 * `saved` stands for the outcome of the request's single save: when it is
 * false nothing the request did, including its event, is committed.
 */
module AuctionsController {
  import opened Wrappers
  import opened Guids
  import opened AuctionEntities
  import opened AuctionData
  import StringOrder
  import Contracts

  /** The seller every created auction gets; the caller's identity is not consulted. */
  const HardCodedSeller := "test"
  const CouldNotSaveChanges := "Could not save changes to the DB"
  const ProblemSavingChanges := "Problem saving changes."
  const CouldNotUpdateDb := "Could not update DB."

  datatype CreateAuctionDto = CreateAuctionDto(
    make: string,
    model: string,
    year: int,
    color: string,
    mileage: int,
    imageUrl: string,
    reservePrice: int,
    auctionEnd: int)

  /** Fields left `None` (null) keep their stored value. */
  datatype UpdateAuctionDto = UpdateAuctionDto(
    make: Option<string>,
    model: Option<string>,
    color: Option<string>,
    mileage: Option<int>,
    year: Option<int>)

  datatype Response =
    | Ok
    | Found(auction: Auction)
    | Created(auction: Auction)
    | NotFound
    | BadRequest(message: string)
    | InvalidRouteId

  datatype Outcome = Outcome(db: AuctionDb, response: Response)

  /** The list filter: no date, or an update strictly after it. */
  predicate UpdatedAfter(a: Auction, date: Option<int>) {
    date.None? || a.updatedAt > date.value
  }

  ghost predicate SortedByMake(s: seq<Auction>) {
    forall i, j :: 0 <= i < j < |s| ==> StringOrder.Le(s[i].item.make, s[j].item.make)
  }

  function InsertByMake(a: Auction, sorted: seq<Auction>): (r: seq<Auction>)
    requires SortedByMake(sorted)
    ensures SortedByMake(r)
    ensures multiset(r) == multiset(sorted) + multiset{a}
    ensures |r| == |sorted| + 1
    ensures forall x :: x in r <==> x == a || x in sorted
    decreases |sorted|
  {
    if |sorted| == 0 then [a]
    else if StringOrder.Le(a.item.make, sorted[0].item.make) then
      LeadingSmallestKeepsSorted(a, sorted);
      [a] + sorted
    else
      var rest := InsertByMake(a, sorted[1..]);
      assert sorted == [sorted[0]] + sorted[1..];
      StringOrder.LeTotal(a.item.make, sorted[0].item.make);
      forall k | 0 <= k < |rest| ensures StringOrder.Le(sorted[0].item.make, rest[k].item.make) {
        assert rest[k] in multiset(rest);
        if rest[k] != a {
          assert rest[k] in sorted[1..];
        }
      }
      PrependSmallestKeepsSorted(sorted[0], rest);
      [sorted[0]] + rest
  }

  lemma LeadingSmallestKeepsSorted(a: Auction, sorted: seq<Auction>)
    requires SortedByMake(sorted) && |sorted| > 0
    requires StringOrder.Le(a.item.make, sorted[0].item.make)
    ensures SortedByMake([a] + sorted)
  {
    forall j | 0 <= j < |sorted| ensures StringOrder.Le(a.item.make, sorted[j].item.make) {
      if j > 0 {
        StringOrder.LeTransitive(a.item.make, sorted[0].item.make, sorted[j].item.make);
      }
    }
    PrependSmallestKeepsSorted(a, sorted);
  }

  lemma PrependSmallestKeepsSorted(a: Auction, sorted: seq<Auction>)
    requires SortedByMake(sorted)
    requires forall k :: 0 <= k < |sorted| ==> StringOrder.Le(a.item.make, sorted[k].item.make)
    ensures SortedByMake([a] + sorted)
  {
    var r := [a] + sorted;
    forall i, j | 0 <= i < j < |r| ensures StringOrder.Le(r[i].item.make, r[j].item.make) {
      if i == 0 {
        assert r[j] == sorted[j - 1];
      } else {
        assert r[i] == sorted[i - 1] && r[j] == sorted[j - 1];
      }
    }
  }

  /** The keys whose auctions pass the date filter. */
  ghost function Matching(auctions: map<Guid, Auction>, keys: set<Guid>, date: Option<int>): set<Guid> {
    set k | k in keys && k in auctions && UpdatedAfter(auctions[k], date)
  }

  function SortByMake(s: seq<Auction>): (r: seq<Auction>)
    ensures SortedByMake(r)
    ensures multiset(r) == multiset(s)
    decreases |s|
  {
    if |s| == 0 then []
    else
      assert s == [s[0]] + s[1..];
      InsertByMake(s[0], SortByMake(s[1..]))
  }

  /**
   * What the listing loop has collected after visiting the keys `visited`:
   * `picked[i]` is the auction under key `ks[i]`, and the keys in `ks` are
   * exactly the visited keys whose auctions pass the filter.
   */
  ghost predicate Collected(auctions: map<Guid, Auction>, date: Option<int>, visited: set<Guid>, chosen: set<Guid>, ks: seq<Guid>, picked: seq<Auction>) {
    && chosen <= visited <= auctions.Keys
    && (forall k :: k in chosen ==> UpdatedAfter(auctions[k], date))
    && (forall k :: k in visited && UpdatedAfter(auctions[k], date) ==> k in chosen)
    && |ks| == |picked| == |chosen|
    && (forall i :: 0 <= i < |ks| ==> ks[i] in chosen && picked[i] == auctions[ks[i]])
    && (forall k :: k in chosen ==> k in ks)
  }

  lemma CollectStep(auctions: map<Guid, Auction>, date: Option<int>, visited: set<Guid>, chosen: set<Guid>, ks: seq<Guid>, picked: seq<Auction>, k: Guid)
    requires Collected(auctions, date, visited, chosen, ks, picked)
    requires k in auctions && k !in visited
    ensures UpdatedAfter(auctions[k], date) ==> Collected(auctions, date, visited + {k}, chosen + {k}, ks + [k], picked + [auctions[k]])
    ensures !UpdatedAfter(auctions[k], date) ==> Collected(auctions, date, visited + {k}, chosen, ks, picked)
  {
    if UpdatedAfter(auctions[k], date) {
      assert |chosen + {k}| == |chosen| + 1;
    }
  }

  /** Visits every key once, keeping the auctions that pass the date filter, in visiting order. */
  method CollectMatching(auctions: map<Guid, Auction>, date: Option<int>) returns (picked: seq<Auction>, ghost chosen: set<Guid>, ghost ks: seq<Guid>)
    ensures Collected(auctions, date, auctions.Keys, chosen, ks, picked)
  {
    ghost var visited: set<Guid> := {};
    chosen := {};
    ks := [];
    var remaining := auctions.Keys;
    picked := [];
    while remaining != {}
      invariant remaining == auctions.Keys - visited
      invariant Collected(auctions, date, visited, chosen, ks, picked)
      decreases remaining
    {
      var k :| k in remaining;
      CollectStep(auctions, date, visited, chosen, ks, picked, k);
      if UpdatedAfter(auctions[k], date) {
        picked := picked + [auctions[k]];
        chosen := chosen + {k};
        ks := ks + [k];
      }
      visited := visited + {k};
      remaining := remaining - {k};
    }
  }

  /**
   * Lists the auctions, optionally only those updated strictly after
   * `date`, ordered by make. Each stored auction passing the filter is
   * listed once, and nothing else is.
   */
  method GetAllAuctions(db: AuctionDb, date: Option<int>) returns (r: seq<Auction>)
    requires KeysMatchIds(db.auctions)
    ensures forall a :: a in r ==> a in db.auctions.Values && UpdatedAfter(a, date)
    ensures forall k :: k in db.auctions && UpdatedAfter(db.auctions[k], date) ==> db.auctions[k] in r
    ensures |r| == |Matching(db.auctions, db.auctions.Keys, date)|
    ensures date.None? ==> |r| == |db.auctions|
    ensures SortedByMake(r)
  {
    var picked, chosen, ks := CollectMatching(db.auctions, date);
    r := SortByMake(picked);
    CollectedAll(db.auctions, date, chosen, ks, picked, r);
  }

  /** Sorting what the loop collected from every key gives the listing's contract. */
  lemma CollectedAll(auctions: map<Guid, Auction>, date: Option<int>, chosen: set<Guid>, ks: seq<Guid>, picked: seq<Auction>, r: seq<Auction>)
    requires Collected(auctions, date, auctions.Keys, chosen, ks, picked)
    requires multiset(r) == multiset(picked)
    ensures forall a :: a in r ==> a in auctions.Values && UpdatedAfter(a, date)
    ensures forall k :: k in auctions && UpdatedAfter(auctions[k], date) ==> auctions[k] in r
    ensures |r| == |Matching(auctions, auctions.Keys, date)|
    ensures date.None? ==> |r| == |auctions|
  {
    assert |multiset(r)| == |multiset(picked)|;
    forall x ensures x in r <==> x in picked {
      assert x in r <==> x in multiset(r);
    }
    forall a | a in picked ensures a in auctions.Values && UpdatedAfter(a, date) {
      var i :| 0 <= i < |picked| && picked[i] == a;
      assert ks[i] in auctions;
    }
    forall k | k in auctions && UpdatedAfter(auctions[k], date) ensures auctions[k] in picked {
      var i :| 0 <= i < |ks| && ks[i] == k;
      assert picked[i] == auctions[k];
    }
    assert chosen == Matching(auctions, auctions.Keys, date);
    if date.None? {
      assert Matching(auctions, auctions.Keys, date) == auctions.Keys;
    }
  }

  function GetAuctionById(db: AuctionDb, id: string): (r: Response)
    ensures r == InvalidRouteId <==> Parse(id).None?
    ensures r == NotFound <==> Parse(id).Some? && Parse(id).value !in db.auctions
    ensures r.Found? <==> Parse(id).Some? && Parse(id).value in db.auctions
    ensures r.Found? ==> r.auction == db.auctions[Parse(id).value]
  {
    match Parse(id)
    case None => InvalidRouteId
    case Some(key) => if key in db.auctions then Found(db.auctions[key]) else NotFound
  }

  /** The auction a create request describes, as it is added to the table. */
  function NewAuction(dto: CreateAuctionDto, id: Guid, now: int): (a: Auction)
    ensures a.id == id && a.seller == HardCodedSeller
    ensures a.status == Live && a.winner.None? && a.soldAmount.None?
    ensures a.reservePrice == dto.reservePrice && a.auctionEnd == dto.auctionEnd
    ensures a.createdAt == now && a.updatedAt == now
    ensures a.item.make == dto.make && a.item.model == dto.model && a.item.year == dto.year
    ensures a.item.color == dto.color && a.item.mileage == dto.mileage && a.item.imageUrl == dto.imageUrl
  {
    Auction(id, dto.reservePrice, HardCodedSeller, None, None, now, now, dto.auctionEnd, Live,
            Item(dto.make, dto.model, dto.year, dto.color, dto.mileage, dto.imageUrl))
  }

  /**
   * Creates an auction under the freshly generated key `newId` at instant
   * `now`. On a committed save, exactly one auction is added and exactly one
   * `AuctionCreated` reaches the outbox; otherwise nothing changes.
   */
  function CreateAuction(db: AuctionDb, dto: CreateAuctionDto, newId: Guid, now: int, saved: bool): (r: Outcome)
    requires newId !in db.auctions
    ensures !saved ==> r == Outcome(db, BadRequest(CouldNotSaveChanges))
    ensures saved ==>
              && r.db.auctions.Keys == db.auctions.Keys + {newId}
              && (forall k :: k in db.auctions ==> r.db.auctions[k] == db.auctions[k])
              && r.db.auctions[newId] == NewAuction(dto, newId, now)
              && r.db.outbox == db.outbox + [Contracts.AuctionCreated(NewAuction(dto, newId, now))]
              && r.response == Created(NewAuction(dto, newId, now))
    ensures KeysMatchIds(db.auctions) ==> KeysMatchIds(r.db.auctions)
  {
    var auction := NewAuction(dto, newId, now);
    if saved then
      Outcome(AuctionDb(db.auctions[newId := auction], db.outbox + [Contracts.AuctionCreated(auction)]), Created(auction))
    else
      Outcome(db, BadRequest(CouldNotSaveChanges))
  }

  /** The null-coalescing update of the five item fields. */
  function ApplyUpdate(a: Auction, dto: UpdateAuctionDto): (r: Auction)
    ensures dto.make.Some? ==> r.item.make == dto.make.value
    ensures dto.make.None? ==> r.item.make == a.item.make
    ensures dto.model.Some? ==> r.item.model == dto.model.value
    ensures dto.model.None? ==> r.item.model == a.item.model
    ensures dto.color.Some? ==> r.item.color == dto.color.value
    ensures dto.color.None? ==> r.item.color == a.item.color
    ensures dto.mileage.Some? ==> r.item.mileage == dto.mileage.value
    ensures dto.mileage.None? ==> r.item.mileage == a.item.mileage
    ensures dto.year.Some? ==> r.item.year == dto.year.value
    ensures dto.year.None? ==> r.item.year == a.item.year
    ensures r.item.imageUrl == a.item.imageUrl
    ensures r.(item := a.item) == a
  {
    a.(item := a.item.(
      make := dto.make.GetOr(a.item.make),
      model := dto.model.GetOr(a.item.model),
      color := dto.color.GetOr(a.item.color),
      mileage := dto.mileage.GetOr(a.item.mileage),
      year := dto.year.GetOr(a.item.year)))
  }

  /** Applying the same update twice is applying it once. */
  lemma ApplyUpdateIdempotent(a: Auction, dto: UpdateAuctionDto)
    ensures ApplyUpdate(ApplyUpdate(a, dto), dto) == ApplyUpdate(a, dto)
  {
  }

  function UpdateAuction(db: AuctionDb, id: string, dto: UpdateAuctionDto, saved: bool): (r: Outcome)
    ensures Parse(id).None? ==> r == Outcome(db, InvalidRouteId)
    ensures Parse(id).Some? && Parse(id).value !in db.auctions ==> r == Outcome(db, NotFound)
    ensures Parse(id).Some? && Parse(id).value in db.auctions && !saved ==> r == Outcome(db, BadRequest(ProblemSavingChanges))
    ensures r.response == Ok <==> Parse(id).Some? && Parse(id).value in db.auctions && saved
    ensures r.response == Ok ==>
              var key := Parse(id).value;
              && r.db.auctions.Keys == db.auctions.Keys
              && r.db.auctions[key] == ApplyUpdate(db.auctions[key], dto)
              && (forall k :: k in db.auctions && k != key ==> r.db.auctions[k] == db.auctions[k])
              && r.db.outbox == db.outbox + [Contracts.AuctionUpdated(r.db.auctions[key])]
    ensures KeysMatchIds(db.auctions) ==> KeysMatchIds(r.db.auctions)
  {
    match Parse(id)
    case None => Outcome(db, InvalidRouteId)
    case Some(key) =>
      if key !in db.auctions then Outcome(db, NotFound)
      else
        var updated := ApplyUpdate(db.auctions[key], dto);
        if saved then Outcome(AuctionDb(db.auctions[key := updated], db.outbox + [Contracts.AuctionUpdated(updated)]), Ok)
        else Outcome(db, BadRequest(ProblemSavingChanges))
  }

  /** Sending the same update twice leaves the table as one did. */
  lemma UpdateAuctionIdempotent(db: AuctionDb, id: string, dto: UpdateAuctionDto)
    requires UpdateAuction(db, id, dto, true).response == Ok
    ensures UpdateAuction(UpdateAuction(db, id, dto, true).db, id, dto, true).db.auctions
            == UpdateAuction(db, id, dto, true).db.auctions
  {
    var key := Parse(id).value;
    var once := UpdateAuction(db, id, dto, true).db;
    ApplyUpdateIdempotent(db.auctions[key], dto);
    assert once.auctions[key := ApplyUpdate(once.auctions[key], dto)] == once.auctions;
  }

  /**
   * Deletes an auction. On a committed save exactly that key is removed and
   * `AuctionDeleted` carries its printed id; otherwise nothing changes.
   */
  function DeleteAuction(db: AuctionDb, id: string, saved: bool): (r: Outcome)
    ensures Parse(id).None? ==> r == Outcome(db, InvalidRouteId)
    ensures Parse(id).Some? && Parse(id).value !in db.auctions ==> r == Outcome(db, NotFound)
    ensures Parse(id).Some? && Parse(id).value in db.auctions && !saved ==> r == Outcome(db, BadRequest(CouldNotUpdateDb))
    ensures r.response == Ok <==> Parse(id).Some? && Parse(id).value in db.auctions && saved
    ensures r.response == Ok ==>
              var key := Parse(id).value;
              && r.db.auctions.Keys == db.auctions.Keys - {key}
              && (forall k :: k in r.db.auctions ==> r.db.auctions[k] == db.auctions[k])
              && r.db.outbox == db.outbox + [Contracts.AuctionDeleted(Format(key))]
              && Parse(Format(key)) == Some(key)
    ensures KeysMatchIds(db.auctions) ==> KeysMatchIds(r.db.auctions)
  {
    match Parse(id)
    case None => Outcome(db, InvalidRouteId)
    case Some(key) =>
      if key !in db.auctions then Outcome(db, NotFound)
      else if saved then
        ParseFormat(key);
        Outcome(AuctionDb(db.auctions - {key}, db.outbox + [Contracts.AuctionDeleted(Format(key))]), Ok)
      else Outcome(db, BadRequest(CouldNotUpdateDb))
  }

  /** A created auction is found under its printed id. */
  lemma CreateThenGetById(db: AuctionDb, dto: CreateAuctionDto, newId: Guid, now: int)
    requires newId !in db.auctions
    ensures GetAuctionById(CreateAuction(db, dto, newId, now, true).db, Format(newId)) == Found(NewAuction(dto, newId, now))
  {
    ParseFormat(newId);
  }

  /** A deleted auction is no longer found, under any spelling of its id. */
  lemma DeleteThenGetById(db: AuctionDb, id: string)
    requires DeleteAuction(db, id, true).response == Ok
    ensures GetAuctionById(DeleteAuction(db, id, true).db, id) == NotFound
  {
  }
}
