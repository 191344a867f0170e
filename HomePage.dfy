/** The filtering logic of the listing page (pages/index.tsx): the filter state
    with its update handlers, and the two filters it drives. */
module HomePage {
  import opened Types
  import opened ArrayFilter
  import opened JsParseInt

  // ---------------------------------------------------------------------------
  // Rating filter: `hotelsData.filter(hotel => parseInt(hotel.starRating) >= filters.rating)`

  /** `parseInt(hotel.starRating) >= rating`; a comparison with NaN is false. */
  predicate MeetsRating(hotel: Hotel, rating: int)
  {
    match ParseInt(hotel.starRating)
    case None => false
    case Some(stars) => stars >= rating
  }

  function RatingTest(rating: int): Hotel -> bool
  {
    hotel => MeetsRating(hotel, rating)
  }

  /** `filteredHotels`: every shown hotel meets the minimum rating, and every
      listed hotel that meets it is shown. */
  function FilteredHotels(hotels: seq<Hotel>, filters: Filters): (r: seq<Hotel>)
    ensures forall i :: 0 <= i < |r| ==> r[i] in hotels && MeetsRating(r[i], filters.rating)
    ensures forall i :: 0 <= i < |hotels| && MeetsRating(hotels[i], filters.rating) ==> hotels[i] in r
  {
    Filter(hotels, RatingTest(filters.rating))
  }

  /** The shown hotels are exactly those whose parsed rating reaches the minimum,
      each as often as in the input, in their original relative order. */
  lemma FilteredHotelsExact(hotels: seq<Hotel>, filters: Filters)
    ensures IsSubsequence(FilteredHotels(hotels, filters), hotels)
    ensures forall h :: multiset(FilteredHotels(hotels, filters))[h] ==
                        if MeetsRating(h, filters.rating) then multiset(hotels)[h] else 0
  {
    FilterIsSubsequence(hotels, RatingTest(filters.rating));
    forall h ensures multiset(FilteredHotels(hotels, filters))[h] ==
                     if MeetsRating(h, filters.rating) then multiset(hotels)[h] else 0 {
      FilterMultiplicity(hotels, RatingTest(filters.rating), h);
    }
  }

  /** A hotel whose rating string has no leading number (NaN) is never shown,
      whatever the minimum rating, 0 included. */
  lemma UnparsableRatingExcluded(hotels: seq<Hotel>, filters: Filters, hotel: Hotel)
    requires ParseInt(hotel.starRating) == None
    ensures hotel !in FilteredHotels(hotels, filters)
  {
    FilterMultiplicity(hotels, RatingTest(filters.rating), hotel);
  }

  /** Raising the minimum rating only removes hotels: what is shown at the
      higher minimum is a subsequence of what is shown at the lower one. */
  lemma FilteredHotelsMonotone(hotels: seq<Hotel>, lower: Filters, higher: Filters)
    requires lower.rating <= higher.rating
    ensures IsSubsequence(FilteredHotels(hotels, higher), FilteredHotels(hotels, lower))
  {
    FilterMonotone(hotels, RatingTest(higher.rating), RatingTest(lower.rating));
  }

  lemma FilteredHotelsIdempotent(hotels: seq<Hotel>, filters: Filters)
    ensures FilteredHotels(FilteredHotels(hotels, filters), filters) == FilteredHotels(hotels, filters)
  {
    FilterIdempotent(hotels, RatingTest(filters.rating));
  }

  // ---------------------------------------------------------------------------
  // Occupancy filter: `filteredRooms(rooms)`

  /** The room takes at least the selected numbers of adults and of children. */
  predicate Fits(room: Room, filters: Filters)
  {
    room.occupancy.maxAdults >= filters.adults && room.occupancy.maxChildren >= filters.children
  }

  function CapacityTest(filters: Filters): Room -> bool
  {
    room => Fits(room, filters)
  }

  /** `filteredRooms(rooms)`: every kept room fits the selected guests, and
      every room that fits them is kept. */
  function FilteredRooms(rooms: seq<Room>, filters: Filters): (r: seq<Room>)
    ensures forall i :: 0 <= i < |r| ==> r[i] in rooms && Fits(r[i], filters)
    ensures forall i :: 0 <= i < |rooms| && Fits(rooms[i], filters) ==> rooms[i] in r
  {
    Filter(rooms, CapacityTest(filters))
  }

  /** A room is kept if and only if both of its capacities meet the filter;
      kept rooms keep their multiplicity and their relative order. */
  lemma FilteredRoomsExact(rooms: seq<Room>, filters: Filters)
    ensures IsSubsequence(FilteredRooms(rooms, filters), rooms)
    ensures forall i :: 0 <= i < |rooms| ==>
              (rooms[i] in FilteredRooms(rooms, filters) <==>
               rooms[i].occupancy.maxAdults >= filters.adults &&
               rooms[i].occupancy.maxChildren >= filters.children)
    ensures forall room :: multiset(FilteredRooms(rooms, filters))[room] ==
                           if Fits(room, filters) then multiset(rooms)[room] else 0
  {
    FilterIsSubsequence(rooms, CapacityTest(filters));
    forall room ensures multiset(FilteredRooms(rooms, filters))[room] ==
                        if Fits(room, filters) then multiset(rooms)[room] else 0 {
      FilterMultiplicity(rooms, CapacityTest(filters), room);
    }
  }

  lemma FilteredRoomsIdempotent(rooms: seq<Room>, filters: Filters)
    ensures FilteredRooms(FilteredRooms(rooms, filters), filters) == FilteredRooms(rooms, filters)
  {
    FilterIdempotent(rooms, CapacityTest(filters));
  }

  /** With no guests selected every room of non-negative occupancy is shown. */
  lemma FilteredRoomsNoMinimum(rooms: seq<Room>, filters: Filters)
    requires filters.adults == 0 && filters.children == 0
    requires forall i :: 0 <= i < |rooms| ==>
               rooms[i].occupancy.maxAdults >= 0 && rooms[i].occupancy.maxChildren >= 0
    ensures FilteredRooms(rooms, filters) == rooms
  {
    FilterAll(rooms, CapacityTest(filters));
  }

  /** Asking for more adults, or more children, than any room takes leaves
      nothing (the page then says that no room is available). */
  lemma FilteredRoomsTooManyGuests(rooms: seq<Room>, filters: Filters)
    requires (forall i :: 0 <= i < |rooms| ==> rooms[i].occupancy.maxAdults < filters.adults) ||
             (forall i :: 0 <= i < |rooms| ==> rooms[i].occupancy.maxChildren < filters.children)
    ensures FilteredRooms(rooms, filters) == []
  {
    FilterNone(rooms, CapacityTest(filters));
  }

  // ---------------------------------------------------------------------------
  // Filter state: `useState<IFilters>`, `setCapacity` and the rating `onChange`

  const Initial := Filters(0, 0, 0)

  function Capacity(filters: Filters, guestType: GuestType): int
  {
    match guestType
    case Adults => filters.adults
    case Children => filters.children
  }

  function Other(guestType: GuestType): GuestType
  {
    match guestType
    case Adults => Children
    case Children => Adults
  }

  /** `{...filters, [guestType]: filters[guestType] + incrementBy}`: no clamping. */
  function WithCapacity(filters: Filters, guestType: GuestType, incrementBy: int): (r: Filters)
    ensures Capacity(r, guestType) == Capacity(filters, guestType) + incrementBy
    ensures Capacity(r, Other(guestType)) == Capacity(filters, Other(guestType))
    ensures r.rating == filters.rating
  {
    match guestType
    case Adults => filters.(adults := filters.adults + incrementBy)
    case Children => filters.(children := filters.children + incrementBy)
  }

  /** `setCapacity` itself has no floor: decrementing from zero goes negative. */
  lemma SetCapacityHasNoFloor(guestType: GuestType)
    ensures Capacity(WithCapacity(Initial, guestType, -1), guestType) == -1
  {
  }

  /** What a user can do with the controls: the plus and minus buttons of a
      guest type, and choosing a star count on the rating control. */
  datatype Action = Increment(guestType: GuestType) | Decrement(guestType: GuestType) | SelectRating(stars: nat)

  /** Minus buttons are `disabled` while their count is 0; the others always work. */
  predicate Enabled(filters: Filters, action: Action)
  {
    action.Decrement? ==> Capacity(filters, action.guestType) != 0
  }

  /** The state after the user acts on a control; a disabled button does nothing. */
  function Step(filters: Filters, action: Action): (r: Filters)
    ensures !Enabled(filters, action) ==> r == filters
    ensures action.SelectRating? ==> r == filters.(rating := action.stars)
    ensures !action.SelectRating? ==> r.rating == filters.rating
    ensures forall g :: Capacity(r, g) != Capacity(filters, g) ==>
              Capacity(filters, g) != 0 || action == Increment(g)
    ensures forall g :: Capacity(r, g) != Capacity(filters, g) ==>
              Capacity(r, g) == Capacity(filters, g) + (if action == Increment(g) then 1 else -1)
    ensures forall g :: Capacity(r, g) == Capacity(filters, g) +
              (if action == Increment(g) then 1
               else if action == Decrement(g) && Capacity(filters, g) != 0 then -1
               else 0)
  {
    if !Enabled(filters, action) then filters
    else match action
      case Increment(g) => WithCapacity(filters, g, 1)
      case Decrement(g) => WithCapacity(filters, g, -1)
      case SelectRating(stars) => filters.(rating := stars)
  }

  /** The state after a whole session of user actions. */
  function Run(filters: Filters, actions: seq<Action>): Filters
    decreases |actions|
  {
    if actions == [] then filters else Run(Step(filters, actions[0]), actions[1..])
  }

  predicate CapacitiesNonNegative(filters: Filters)
  {
    filters.adults >= 0 && filters.children >= 0
  }

  /** One action, enabled or not, keeps both guest counts non-negative. */
  lemma StepKeepsCapacitiesNonNegative(filters: Filters, action: Action)
    requires CapacitiesNonNegative(filters)
    ensures CapacitiesNonNegative(Step(filters, action))
  {
    if Enabled(filters, action) && !action.SelectRating? {
      var g := action.guestType;
      assert Capacity(filters, g) >= 0 && Capacity(filters, Other(g)) >= 0;
    }
  }

  lemma {:induction false} RunKeepsCapacitiesNonNegative(filters: Filters, actions: seq<Action>)
    requires CapacitiesNonNegative(filters)
    ensures CapacitiesNonNegative(Run(filters, actions))
    decreases |actions|
  {
    if actions != [] {
      StepKeepsCapacitiesNonNegative(filters, actions[0]);
      RunKeepsCapacitiesNonNegative(Step(filters, actions[0]), actions[1..]);
    }
  }

  /** From the initial `{rating: 0, adults: 0, children: 0}`, no sequence of
      clicks makes a guest count negative: the floor comes from the disabled
      minus buttons alone. */
  lemma ReachableCapacitiesNonNegative(actions: seq<Action>)
    ensures Run(Initial, actions).adults >= 0 && Run(Initial, actions).children >= 0
  {
    RunKeepsCapacitiesNonNegative(Initial, actions);
  }

  /** The component's filter state, updated in place by the handlers. */
  class FilterState {
    var rating: int
    var adults: int
    var children: int

    function Value(): Filters
      reads this
    {
      Filters(rating, adults, children)
    }

    /** `useState<IFilters>({rating: 0, adults: 0, children: 0})` */
    constructor ()
      ensures Value() == Initial
    {
      rating, adults, children := 0, 0, 0;
    }

    /** `setCapacity(guestType, incrementBy)`: adds `incrementBy` to the named
        count, with no floor; the rating and the other count are unchanged. */
    method SetCapacity(guestType: GuestType, incrementBy: int)
      modifies this
      ensures Value() == WithCapacity(old(Value()), guestType, incrementBy)
    {
      match guestType
      case Adults => adults := adults + incrementBy;
      case Children => children := children + incrementBy;
    }

    /** The rating control's `onChange`: replaces the rating, keeps the counts. */
    method SetRating(newValue: nat)
      modifies this
      ensures Value() == old(Value()).(rating := newValue)
    {
      rating := newValue;
    }

    /** A user action on the page's controls: a click on a disabled minus
        button has no handler; every other action runs its handler. */
    method Act(action: Action)
      modifies this
      ensures Value() == Step(old(Value()), action)
      ensures CapacitiesNonNegative(old(Value())) ==> CapacitiesNonNegative(Value())
    {
      if CapacitiesNonNegative(Value()) {
        StepKeepsCapacitiesNonNegative(Value(), action);
      }
      match action
      case Increment(g) =>
        SetCapacity(g, 1);
      case Decrement(g) =>
        if Capacity(Value(), g) != 0 {
          SetCapacity(g, -1);
        }
      case SelectRating(stars) =>
        SetRating(stars);
    }
  }

  // ---------------------------------------------------------------------------
  // Worked examples

  /** Minimum rating 4 over hotels rated "3" and "5" keeps only the second. */
  lemma RatingFilterExample(h1: Hotel, h2: Hotel)
    requires h1.starRating == "3" && h2.starRating == "5"
    ensures FilteredHotels([h1, h2], Filters(4, 0, 0)) == [h2]
  {
    ParseIntSingleDigit('3');
    ParseIntSingleDigit('5');
    var p := RatingTest(4);
    assert !p(h1) && p(h2);
    assert [h1, h2][1..] == [h2] && [h2][1..] == [];
    assert Filter([h2], p) == [h2] + Filter([], p);
    assert Filter([h1, h2], p) == Filter([h2], p);
  }

  /** Two adults and no children keeps a 2+1 room and drops a 1+0 room. */
  lemma OccupancyFilterExample(r1: Room, r2: Room)
    requires r1.occupancy == Occupancy(2, 1) && r2.occupancy == Occupancy(1, 0)
    ensures FilteredRooms([r1, r2], Filters(0, 2, 0)) == [r1]
  {
    var p := CapacityTest(Filters(0, 2, 0));
    assert p(r1) && !p(r2);
    assert [r1, r2][1..] == [r2] && [r2][1..] == [];
    assert Filter([r2], p) == Filter([], p);
    assert Filter([r1, r2], p) == [r1] + Filter([r2], p);
  }
}
