/** The record shapes shared by the page and the data aggregator
    (lib/types/types.ts). They carry no behaviour. */
module Types {

  /** An optional value; also stands for JavaScript's NaN / undefined results. */
  datatype Option<+T> = None | Some(value: T)

  /** An image reference: a URL and an optional alt text. */
  datatype Image = Image(url: string, alt: Option<string>)

  /** How many guests of each kind a room can accommodate (JavaScript numbers, here integers). */
  datatype Occupancy = Occupancy(maxAdults: int, maxChildren: int)

  datatype Room = Room(
    id: string,
    name: string,
    bedConfiguration: string,
    longDescription: string,
    images: seq<Image>,
    occupancy: Occupancy)

  /** A hotel as decoded from the hotel-listing response; `rooms` is the field the
      aggregator overwrites. The star rating stays a string, as on the wire. */
  datatype Hotel = Hotel(
    id: string,
    name: string,
    address1: string,
    address2: Option<string>,
    starRating: string,
    images: seq<Image>,
    rooms: seq<Room>)

  /** The page's filter state `IFilters`: minimum star rating, adults and children. */
  datatype Filters = Filters(rating: int, adults: int, children: int)

  /** The two capacity keys `setCapacity` is called with ("adults", "children"). */
  datatype GuestType = Adults | Children
}
