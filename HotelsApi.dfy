/** The merge step of the hotel aggregator (lib/api/hotels.ts): collect the
    listed hotel ids, request each hotel's room rates, and attach each response
    to the first listed hotel with that id. The two HTTP endpoints are inputs:
    the decoded hotel list (or its failure) and a map from room-rate request to
    the rooms of its response, a missing key standing for a failed request. */
module HotelsApi {
  import opened Types

  /** One room-rate request, `GET /api/roomRates/{collectionId}/{hotelId}`. */
  datatype RateRequest = RateRequest(collectionId: string, hotelId: string)

  /** `hotelsData.map(hotel => hotel.id)` */
  function Ids(hotels: seq<Hotel>): (r: seq<string>)
    ensures |r| == |hotels|
    ensures forall i :: 0 <= i < |hotels| ==> r[i] == hotels[i].id
  {
    seq(|hotels|, i requires 0 <= i < |hotels| => hotels[i].id)
  }

  /** The requests issued for a list of ids, one per id, in list order. */
  function Requests(collectionId: string, ids: seq<string>): seq<RateRequest>
  {
    seq(|ids|, i requires 0 <= i < |ids| => RateRequest(collectionId, ids[i]))
  }

  lemma RequestsAppend(collectionId: string, ids: seq<string>, k: nat)
    requires k < |ids|
    ensures Requests(collectionId, ids[..k + 1]) == Requests(collectionId, ids[..k]) + [RateRequest(collectionId, ids[k])]
  {
  }

  /** Every request issued got a response (none failed). */
  predicate AllAnswered(requests: seq<RateRequest>, roomRates: map<RateRequest, seq<Room>>)
  {
    forall k :: 0 <= k < |requests| ==> requests[k] in roomRates
  }

  lemma AllAnsweredAppend(requests: seq<RateRequest>, request: RateRequest, roomRates: map<RateRequest, seq<Room>>)
    ensures AllAnswered(requests + [request], roomRates) <==> AllAnswered(requests, roomRates) && request in roomRates
  {
    var longer := requests + [request];
    assert forall k :: 0 <= k < |requests| ==> longer[k] == requests[k];
    assert longer[|requests|] == request;
  }

  /** `hotelsData.find(hotel => hotel.id === hotelId)`, as the position of the
      hotel found; `None` stands for `undefined`. */
  function FindFirst(hotels: seq<Hotel>, hotelId: string): (r: Option<nat>)
    ensures r.Some? ==> r.value < |hotels| && hotels[r.value].id == hotelId &&
                        forall j :: 0 <= j < r.value ==> hotels[j].id != hotelId
    ensures r.None? <==> forall j :: 0 <= j < |hotels| ==> hotels[j].id != hotelId
  {
    if hotels == [] then None
    else if hotels[0].id == hotelId then Some(0)
    else match FindFirst(hotels[1..], hotelId)
      case None => None
      case Some(k) => Some(k + 1)
  }

  /** Looking up the id of a listed hotel always finds a hotel, at that
      position or before it: `find` never gives `undefined` for such an id. */
  lemma FindListedId(hotels: seq<Hotel>, i: nat)
    requires i < |hotels|
    ensures FindFirst(hotels, hotels[i].id).Some?
    ensures FindFirst(hotels, hotels[i].id).value <= i
  {
  }

  /** `find` looks at ids only: lists with the same ids find the same position. */
  lemma {:induction false} FindFirstSeesOnlyIds(a: seq<Hotel>, b: seq<Hotel>, hotelId: string)
    requires Ids(a) == Ids(b)
    ensures FindFirst(a, hotelId) == FindFirst(b, hotelId)
  {
    assert |a| == |Ids(a)| == |Ids(b)| == |b|;
    assert forall j :: 0 <= j < |a| ==> a[j].id == Ids(a)[j] == Ids(b)[j] == b[j].id;
  }

  /** The hotel at `i` is the first in the list with its id. */
  predicate IsFirstWithId(hotels: seq<Hotel>, i: nat)
    requires i < |hotels|
  {
    FindFirst(hotels, hotels[i].id) == Some(i)
  }

  /** Hotel `b` is hotel `a` with, at most, another `rooms` value. */
  predicate SameExceptRooms(a: Hotel, b: Hotel)
  {
    a.id == b.id && a.name == b.name && a.address1 == b.address1 && a.address2 == b.address2 &&
    a.starRating == b.starRating && a.images == b.images
  }

  /** The list once the responses for the ids in `done` have been attached:
      the first hotel with each such id whose request succeeded carries that
      response's rooms; every other hotel is as listed. */
  function AttachedFor(hotels: seq<Hotel>, collectionId: string, roomRates: map<RateRequest, seq<Room>>,
                       done: set<string>): seq<Hotel>
  {
    seq(|hotels|, i requires 0 <= i < |hotels| =>
      var request := RateRequest(collectionId, hotels[i].id);
      if hotels[i].id in done && IsFirstWithId(hotels, i) && request in roomRates
      then hotels[i].(rooms := roomRates[request])
      else hotels[i])
  }

  function Elements(hotelIds: seq<string>): set<string>
  {
    set id | id in hotelIds
  }

  lemma ElementsAppend(ids: seq<string>, k: nat)
    requires k < |ids|
    ensures Elements(ids[..k + 1]) == Elements(ids[..k]) + {ids[k]}
  {
    assert ids[..k + 1] == ids[..k] + [ids[k]];
  }

  /** The list `getHotelsData` returns: every response attached. */
  function Enriched(hotels: seq<Hotel>, collectionId: string, roomRates: map<RateRequest, seq<Room>>): seq<Hotel>
  {
    AttachedFor(hotels, collectionId, roomRates, Elements(Ids(hotels)))
  }

  /** No hotel is added, removed or moved, and no field other than `rooms`
      changes, whichever responses have been attached. */
  lemma AttachedForShape(hotels: seq<Hotel>, collectionId: string, roomRates: map<RateRequest, seq<Room>>,
                         done: set<string>)
    ensures |AttachedFor(hotels, collectionId, roomRates, done)| == |hotels|
    ensures Ids(AttachedFor(hotels, collectionId, roomRates, done)) == Ids(hotels)
    ensures forall i :: 0 <= i < |hotels| ==>
              SameExceptRooms(AttachedFor(hotels, collectionId, roomRates, done)[i], hotels[i])
  {
  }

  /** Where each hotel's `rooms` comes from after the merge: the first hotel
      with a given id carries the rooms of that id's response (if the request
      succeeded); a later hotel with the same id keeps the rooms it was listed with. */
  lemma EnrichedAt(hotels: seq<Hotel>, collectionId: string, roomRates: map<RateRequest, seq<Room>>, i: nat)
    requires i < |hotels|
    ensures var request := RateRequest(collectionId, hotels[i].id);
            Enriched(hotels, collectionId, roomRates)[i].rooms ==
              if IsFirstWithId(hotels, i) && request in roomRates then roomRates[request] else hotels[i].rooms
    ensures !IsFirstWithId(hotels, i) ==> Enriched(hotels, collectionId, roomRates)[i] == hotels[i]
  {
    assert hotels[i].id in Elements(Ids(hotels));
  }

  /** With ids that are unique in the list (what the upstream API is trusted
      to send), every hotel whose request succeeded carries its own response. */
  lemma EnrichedUniqueIds(hotels: seq<Hotel>, collectionId: string, roomRates: map<RateRequest, seq<Room>>)
    requires forall i, j :: 0 <= i < j < |hotels| ==> hotels[i].id != hotels[j].id
    ensures forall i :: 0 <= i < |hotels| && RateRequest(collectionId, hotels[i].id) in roomRates ==>
              Enriched(hotels, collectionId, roomRates)[i].rooms == roomRates[RateRequest(collectionId, hotels[i].id)]
  {
    forall i | 0 <= i < |hotels|
      ensures IsFirstWithId(hotels, i)
    {
      var f := FindFirst(hotels, hotels[i].id);
      assert f.Some? && f.value <= i;
    }
    forall i | 0 <= i < |hotels| && RateRequest(collectionId, hotels[i].id) in roomRates
      ensures Enriched(hotels, collectionId, roomRates)[i].rooms == roomRates[RateRequest(collectionId, hotels[i].id)]
    {
      EnrichedAt(hotels, collectionId, roomRates, i);
    }
  }

  /** What one task of the `Promise.all` does to the list: if its request
      succeeded, `find` the first hotel with its id and set its `rooms`. */
  function AttachOne(hotels: seq<Hotel>, collectionId: string, roomRates: map<RateRequest, seq<Room>>,
                     hotelId: string): (r: seq<Hotel>)
    ensures RateRequest(collectionId, hotelId) !in roomRates ==> r == hotels
    ensures |r| == |hotels|
    ensures forall i :: 0 <= i < |hotels| ==> r[i].id == hotels[i].id
  {
    var request := RateRequest(collectionId, hotelId);
    if request !in roomRates then hotels
    else match FindFirst(hotels, hotelId)
      case None => hotels
      case Some(j) => hotels[j := hotels[j].(rooms := roomRates[request])]
  }

  /** Where one task writes: exactly the first hotel with its id gets the
      response's rooms, if the request succeeded; every other hotel is unchanged. */
  lemma AttachOneAt(hotels: seq<Hotel>, collectionId: string, roomRates: map<RateRequest, seq<Room>>,
                    hotelId: string, i: nat)
    requires i < |hotels|
    ensures var request := RateRequest(collectionId, hotelId);
            AttachOne(hotels, collectionId, roomRates, hotelId)[i] ==
              if hotels[i].id == hotelId && IsFirstWithId(hotels, i) && request in roomRates
              then hotels[i].(rooms := roomRates[request])
              else hotels[i]
  {
  }

  /** A successful task whose `find` stops at `j` writes slot `j` only. */
  lemma AttachOneWrites(hotels: seq<Hotel>, collectionId: string, roomRates: map<RateRequest, seq<Room>>,
                        hotelId: string, j: nat)
    requires RateRequest(collectionId, hotelId) in roomRates
    requires FindFirst(hotels, hotelId) == Some(j)
    ensures AttachOne(hotels, collectionId, roomRates, hotelId)
            == hotels[j := hotels[j].(rooms := roomRates[RateRequest(collectionId, hotelId)])]
  {
  }

  /** The tasks for `hotelIds` taking effect one after another, in that order. */
  function AttachEach(hotels: seq<Hotel>, collectionId: string, roomRates: map<RateRequest, seq<Room>>,
                      hotelIds: seq<string>): seq<Hotel>
    decreases |hotelIds|
  {
    if hotelIds == [] then hotels
    else AttachEach(AttachOne(hotels, collectionId, roomRates, hotelIds[0]), collectionId, roomRates, hotelIds[1..])
  }

  /** One more task takes the list from "responses for `done` attached" to
      "responses for `done` and `hotelId` attached". */
  lemma AttachOneStep(hotels: seq<Hotel>, collectionId: string, roomRates: map<RateRequest, seq<Room>>,
                      done: set<string>, hotelId: string)
    ensures AttachOne(AttachedFor(hotels, collectionId, roomRates, done), collectionId, roomRates, hotelId)
            == AttachedFor(hotels, collectionId, roomRates, done + {hotelId})
  {
    var before := AttachedFor(hotels, collectionId, roomRates, done);
    var after := AttachedFor(hotels, collectionId, roomRates, done + {hotelId});
    var result := AttachOne(before, collectionId, roomRates, hotelId);
    forall i | 0 <= i < |hotels| ensures result[i] == after[i] {
      AttachOneStepAt(hotels, collectionId, roomRates, done, hotelId, i);
    }
  }

  lemma AttachOneStepAt(hotels: seq<Hotel>, collectionId: string, roomRates: map<RateRequest, seq<Room>>,
                        done: set<string>, hotelId: string, i: nat)
    requires i < |hotels|
    ensures AttachOne(AttachedFor(hotels, collectionId, roomRates, done), collectionId, roomRates, hotelId)[i]
            == AttachedFor(hotels, collectionId, roomRates, done + {hotelId})[i]
  {
    var before := AttachedFor(hotels, collectionId, roomRates, done);
    AttachedForShape(hotels, collectionId, roomRates, done);
    // The earlier writes changed no id, so `before` has the same first hotels.
    FindFirstSeesOnlyIds(before, hotels, hotelId);
    FindFirstSeesOnlyIds(before, hotels, hotels[i].id);
    AttachOneAt(before, collectionId, roomRates, hotelId, i);
  }

  /** Completion order does not matter: the tasks for any list of ids that
      covers every listed id, taking effect in any order and any number of
      times, leave the list `getHotelsData` returns. */
  lemma {:induction false} AttachInAnyOrder(hotels: seq<Hotel>, collectionId: string,
                                            roomRates: map<RateRequest, seq<Room>>, hotelIds: seq<string>)
    requires forall i :: 0 <= i < |hotels| ==> hotels[i].id in hotelIds
    ensures AttachEach(hotels, collectionId, roomRates, hotelIds) == Enriched(hotels, collectionId, roomRates)
  {
    AttachEachFrom(hotels, collectionId, roomRates, {}, hotelIds);
    assert AttachedFor(hotels, collectionId, roomRates, {}) == hotels;
    assert Elements(hotelIds) >= Elements(Ids(hotels));
    forall i | 0 <= i < |hotels|
      ensures AttachedFor(hotels, collectionId, roomRates, Elements(hotelIds))[i]
              == Enriched(hotels, collectionId, roomRates)[i]
    {
      assert hotels[i].id in Elements(Ids(hotels));
    }
  }

  lemma {:induction false} AttachEachFrom(hotels: seq<Hotel>, collectionId: string,
                                          roomRates: map<RateRequest, seq<Room>>, done: set<string>,
                                          hotelIds: seq<string>)
    ensures AttachEach(AttachedFor(hotels, collectionId, roomRates, done), collectionId, roomRates, hotelIds)
            == AttachedFor(hotels, collectionId, roomRates, done + Elements(hotelIds))
    decreases |hotelIds|
  {
    if hotelIds == [] {
      assert done + Elements(hotelIds) == done;
    } else {
      AttachOneStep(hotels, collectionId, roomRates, done, hotelIds[0]);
      AttachEachFrom(hotels, collectionId, roomRates, done + {hotelIds[0]}, hotelIds[1..]);
      assert done + {hotelIds[0]} + Elements(hotelIds[1..])
             == done + Elements(hotelIds);
    }
  }

  /** Lines 7-15 of `getHotelsData`, the `Promise.all` run as a sequential
      loop: one room-rate request per listed hotel, in list order, and each
      successful response attached to the first hotel with its id. `ok` is
      false when any request failed, which makes `Promise.all` reject. */
  method AttachRooms(collectionId: string, hotelsData: array<Hotel>, roomRates: map<RateRequest, seq<Room>>)
    returns (ok: bool, requests: seq<RateRequest>)
    modifies hotelsData
    ensures requests == Requests(collectionId, Ids(old(hotelsData[..])))
    ensures ok <==> AllAnswered(requests, roomRates)
    ensures hotelsData[..] == Enriched(old(hotelsData[..]), collectionId, roomRates)
  {
    ghost var listed := hotelsData[..];
    var hotelIds := Ids(hotelsData[..]);
    ok, requests := true, [];
    var k := 0;
    while k < |hotelIds|
      invariant 0 <= k <= |hotelIds| == |listed|
      invariant hotelIds == Ids(listed)
      invariant requests == Requests(collectionId, hotelIds[..k])
      invariant ok <==> AllAnswered(requests, roomRates)
      invariant hotelsData[..] == AttachedFor(listed, collectionId, roomRates, Elements(hotelIds[..k]))
    {
      var hotelId := hotelIds[k];
      var request := RateRequest(collectionId, hotelId);
      AllAnsweredAppend(requests, request, roomRates);
      RequestsAppend(collectionId, hotelIds, k);
      requests := requests + [request];
      ghost var done := Elements(hotelIds[..k]);
      AttachOneStep(listed, collectionId, roomRates, done, hotelId);
      if request in roomRates {
        var hotelData := roomRates[request];
        AttachedForShape(listed, collectionId, roomRates, done);
        var found := FindFirst(hotelsData[..], hotelId);
        // `find` cannot come back `undefined`: the id was taken from this list.
        assert hotelsData[k].id == hotelId;
        FindListedId(hotelsData[..], k);
        var j := found.value;
        AttachOneWrites(hotelsData[..], collectionId, roomRates, hotelId, j);
        hotelsData[j] := hotelsData[j].(rooms := hotelData);
      } else {
        ok := false;
      }
      ElementsAppend(hotelIds, k);
      k := k + 1;
    }
    assert hotelIds[..k] == hotelIds;
  }

  /** `getHotelsData(collectionId)`: a failed hotel-list request fails the
      whole call before any room-rate request; otherwise the rooms are attached
      to a fresh array of the decoded hotels, which is returned unless a
      room-rate request failed. */
  method GetHotelsData(collectionId: string, hotelList: Option<seq<Hotel>>, roomRates: map<RateRequest, seq<Room>>)
    returns (result: Option<array<Hotel>>, requests: seq<RateRequest>)
    ensures hotelList.None? ==> result.None? && requests == []
    ensures hotelList.Some? ==> requests == Requests(collectionId, Ids(hotelList.value))
    ensures result.Some? <==> hotelList.Some? && AllAnswered(requests, roomRates)
    ensures result.Some? ==> fresh(result.value) &&
                             result.value[..] == Enriched(hotelList.value, collectionId, roomRates)
  {
    if hotelList.None? {
      return None, [];
    }
    var listed := hotelList.value;
    var hotelsData := new Hotel[|listed|](i requires 0 <= i < |listed| => listed[i]);
    assert hotelsData[..] == listed;
    var ok;
    ok, requests := AttachRooms(collectionId, hotelsData, roomRates);
    result := if ok then Some(hotelsData) else None;
  }
}
