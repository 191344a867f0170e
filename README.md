# Hotel listing page: filters and room-rate merge

A model of the two pieces of logic in a single-page hotel listing site (a
Next.js page over a remote hotel API):

- **The page's filters** (`pages/index.tsx`). The page keeps a filter state
  `{rating, adults, children}` that starts at all zeros. `setCapacity` adds to
  the adults or children count. The star-rating control replaces `rating`. Each
  minus button is disabled while its count is 0. From that state the page
  computes `filteredHotels`: the hotels whose `parseInt(starRating)` reaches
  `rating`. For each shown hotel it computes `filteredRooms`: the rooms whose
  `maxAdults` and `maxChildren` both reach the selected counts.
- **The merge step of `getHotelsData`** (`lib/api/hotels.ts`). It collects the
  ids of the listed hotels and issues one room-rate request per id. Each
  response's `rooms` is written into the first listed hotel with that id.

Modules, one file each:

- `Types.dfy`: the record shapes `Hotel`, `Room` and `IFilters` of
  `lib/types/types.ts`.
- `ArrayFilter.dfy`: `Array.prototype.filter`, with lemmas showing that it is
  exactly the order-preserving selection of the passing elements.
- `ParseInt.dfy`: JavaScript's `parseInt` without a radix, following ECMA-262
  section 19.2.5. It skips leading white space and line terminators, reads an
  optional sign, switches to hexadecimal after a `0x`/`0X` prefix, and reads
  the longest digit prefix. No digits means NaN, written `None`.
- `HomePage.dfy`: the two filters, with their lemmas. It also holds the filter
  state as a class (`FilterState`) whose methods are the handlers, and the
  user actions as values (`Action`, `Step`, `Run`) for the claim that the
  counts never go negative.
- `HotelsApi.dfy`: the merge loop as a method over an `array<Hotel>`
  (`AttachRooms`), proved against a reference definition of the merged list
  (`Enriched`). `GetHotelsData` wraps it with the hotel-list request.

Three behaviours of the code that the model keeps as written:

- `setCapacity` does not clamp at zero (pages/index.tsx:32). The floor comes
  only from the disabled minus buttons (pages/index.tsx:94, 106-108).
  `SetCapacityHasNoFloor` shows that the handler itself goes to -1, and
  `ReachableCapacitiesNonNegative` shows that no sequence of clicks gets there.
- A star rating with no leading number hides its hotel. `parseInt` gives NaN,
  and `NaN >= rating` is false, so such a hotel is hidden at every minimum
  rating, 0 included (`UnparsableRatingExcluded`).
- Hotel ids are not checked for uniqueness. With a repeated id, only the first
  hotel with that id receives rooms (`EnrichedAt`).

## Model

| member | source | states |
|---|---|---|
| `ArrayFilter.Filter` | pages/index.tsx:36-45 | `.filter` returns only input elements that pass the test, returns every passing input element, and is never longer than its input |
| `ArrayFilter.FilterIsSubsequence` | pages/index.tsx:36-45 | the filtered array keeps the relative order of the input |
| `ArrayFilter.FilterMultiplicity` | pages/index.tsx:36-45 | a passing element occurs in the result as often as in the input; a failing one does not occur |
| `ArrayFilter.FilterUnique` | pages/index.tsx:36-45 | any order-preserving selection with those multiplicities is the filter's result, so the two facts above determine it completely |
| `ArrayFilter.FilterOfFilter` | pages/index.tsx:36-45 | filtering by a weaker test and then a stronger one equals filtering by the stronger one alone |
| `ArrayFilter.FilterIdempotent` | pages/index.tsx:36-45 | filtering twice by the same test equals filtering once |
| `ArrayFilter.FilterMonotone` | pages/index.tsx:36-45 | what passes a stronger test is a subsequence of what passes a weaker one |
| `ArrayFilter.FilterAll` | pages/index.tsx:40-45 | a test every element passes returns the whole array |
| `ArrayFilter.FilterNone` | pages/index.tsx:40-45 | a test no element passes returns the empty array |
| `JsParseInt.LeadingWhiteSpace` | pages/index.tsx:37 | the white space `parseInt` skips: all of it is white space, and the next character is not |
| `JsParseInt.DigitPrefix` | pages/index.tsx:37 | the digits `parseInt` reads: a prefix of its input, all digits of the radix, and followed by a non-digit or nothing |
| `JsParseInt.ParseTrimmed` | pages/index.tsx:37 | `parseInt` after the white space: a number is read only from a non-empty string, a negative one only after a `-`; a string that starts with a decimal digit (and is not `0x`/`0X`) reads as a non-negative number |
| `JsParseInt.ParseInt` | pages/index.tsx:37 | ECMA-262 `parseInt` with radix undefined, `None` for NaN: the empty string is NaN, a number needs something after the leading white space, and a negative one needs a `-` there |
| `JsParseInt.DigitPrefixOfDigits` | pages/index.tsx:37 | reading digits stops exactly at the first non-digit |
| `JsParseInt.ParseIntReadsDecimalPrefix` | pages/index.tsx:37 | `parseInt(String(n) + rest)` is `n` unless `rest` continues the number (a digit, or `x`/`X` after a lone `0`) |
| `JsParseInt.ParseIntOfIntString` | pages/index.tsx:37 | round trip: `parseInt(String(n)) == n` for every integer, negatives included |
| `JsParseInt.ParseTrimmedSign` | pages/index.tsx:37 | one optional sign: `+` leaves the number read unchanged, `-` negates it, and NaN stays NaN |
| `JsParseInt.ParseIntReadsSignedDecimalPrefix` | pages/index.tsx:37 | `parseInt("+" + String(n) + rest)` is `n` and `parseInt("-" + String(n) + rest)` is `-n`, unless `rest` continues the number (`"-0"` reads as 0) |
| `JsParseInt.ParseIntNegative` | pages/index.tsx:37 | a `-` in front of a positive decimal rendering gives its negation |
| `JsParseInt.ParseIntSkipsWhiteSpace` | pages/index.tsx:37 | leading white space does not change the result |
| `JsParseInt.ParseIntSingleDigit` | pages/index.tsx:37 | a one-digit rating string reads as that digit |
| `JsParseInt.ParseIntNaN` | pages/index.tsx:37 | a string that starts with no white space, sign or digit (including the empty string) gives NaN |
| `JsParseInt.ParseIntTrailingTextExample` | pages/index.tsx:37 | `parseInt("5 stars")` is 5 |
| `JsParseInt.ParseIntFractionExample` | pages/index.tsx:37 | `parseInt(" 3.5")` is 3 |
| `JsParseInt.ParseIntHexExample` | pages/index.tsx:37 | `parseInt("0x1F")` is 31 |
| `JsParseInt.ParseIntNaNExamples` | pages/index.tsx:37 | `""`, `"n/a"` and `"-"` give NaN |
| `HomePage.FilteredHotels` | pages/index.tsx:36-38 | `filteredHotels`: every shown hotel is a listed one whose parsed rating reaches `filters.rating`, and every listed hotel whose rating reaches it is shown |
| `HomePage.FilteredHotelsExact` | pages/index.tsx:36-38 | `filteredHotels` keeps exactly the hotels whose parsed rating is at least `filters.rating`, with their multiplicity and in their original order |
| `HomePage.UnparsableRatingExcluded` | pages/index.tsx:37 | a hotel whose rating parses to NaN is never shown, at any minimum rating |
| `HomePage.FilteredHotelsMonotone` | pages/index.tsx:36-38 | the hotels shown at a higher minimum rating are a subsequence of those shown at a lower one |
| `HomePage.FilteredHotelsIdempotent` | pages/index.tsx:36-38 | filtering the shown hotels again changes nothing |
| `HomePage.FilteredRooms` | pages/index.tsx:40-46 | `filteredRooms(rooms)`: every kept room is one of `rooms` and takes the selected adults and children, and every room that takes them is kept |
| `HomePage.FilteredRoomsExact` | pages/index.tsx:40-45 | a room is kept if and only if `maxAdults >= adults` and `maxChildren >= children`, with its multiplicity and in its original order |
| `HomePage.FilteredRoomsIdempotent` | pages/index.tsx:40-45 | applying `filteredRooms` twice equals applying it once |
| `HomePage.FilteredRoomsNoMinimum` | pages/index.tsx:40-45 | with 0 adults and 0 children selected, every room of non-negative occupancy is kept |
| `HomePage.FilteredRoomsTooManyGuests` | pages/index.tsx:40-45 | more adults (or children) than every room takes leaves no room |
| `HomePage.WithCapacity` | pages/index.tsx:29-34 | `setCapacity(g, k)` on the state value: field `g` becomes its old value plus `k`; the other count and the rating are unchanged |
| `HomePage.SetCapacityHasNoFloor` | pages/index.tsx:32 | `setCapacity(g, -1)` at 0 gives -1: the handler does not clamp |
| `HomePage.Step` | pages/index.tsx:83-112 | one user action: a minus button with its count at 0 is disabled (lines 94, 106-108) and changes nothing; the rating control sets only `rating`; a guest count changes only by its own buttons, by one, and falls only from a non-zero value |
| `HomePage.StepKeepsCapacitiesNonNegative` | pages/index.tsx:94-112 | any one user action, enabled or not, keeps both counts non-negative |
| `HomePage.RunKeepsCapacitiesNonNegative` | pages/index.tsx:94-112 | any sequence of user actions keeps both counts non-negative |
| `HomePage.ReachableCapacitiesNonNegative` | pages/index.tsx:23-112 | from `{0, 0, 0}`, no sequence of clicks on the enabled controls makes `adults` or `children` negative |
| `HomePage.FilterState.constructor` | pages/index.tsx:23-27 | the filter state starts as `{rating: 0, adults: 0, children: 0}` |
| `HomePage.FilterState.SetCapacity` | pages/index.tsx:29-34 | the handler adds `incrementBy` to the named count only, with no floor |
| `HomePage.FilterState.SetRating` | pages/index.tsx:83-88 | the rating control's `onChange` sets `rating` to the chosen value and keeps both counts |
| `HomePage.FilterState.Act` | pages/index.tsx:83-112 | a user action changes the state as `Step` says (a disabled minus button does nothing) and keeps non-negative counts non-negative |
| `HomePage.RatingFilterExample` | pages/index.tsx:36-38 | hotels rated "3" and "5" at minimum rating 4: only the second is shown |
| `HomePage.OccupancyFilterExample` | pages/index.tsx:40-45 | rooms for 2+1 and 1+0 guests with 2 adults selected: only the first is kept |
| `HotelsApi.Ids` | lib/api/hotels.ts:7 | `hotelsData.map(hotel => hotel.id)`: one id per listed hotel, at the hotel's position |
| `HotelsApi.FindFirst` | lib/api/hotels.ts:13 | `find` by id gives the position of the first hotel with that id, and `undefined` only when no hotel has it |
| `HotelsApi.FindListedId` | lib/api/hotels.ts:7-14 | the id of a listed hotel is always found, so the assignment at line 14 never writes through `undefined` |
| `HotelsApi.FindFirstSeesOnlyIds` | lib/api/hotels.ts:13 | lists with the same ids give the same `find` result, so writing `rooms` never changes what later lookups find |
| `HotelsApi.AttachedForShape` | lib/api/hotels.ts:13-14 | the merge keeps the list's length and order, and no field but `rooms` changes |
| `HotelsApi.EnrichedAt` | lib/api/hotels.ts:9-14 | after the merge, the first hotel with an id has that id's response rooms (if its request succeeded); a later hotel with the same id is left exactly as listed |
| `HotelsApi.EnrichedUniqueIds` | lib/api/hotels.ts:9-14 | with unique ids, every hotel whose request succeeded carries its own response's rooms |
| `HotelsApi.AttachOne` | lib/api/hotels.ts:10-14 | one task of the `Promise.all`: a failed request changes nothing; the list keeps its length and every hotel its id |
| `HotelsApi.AttachOneAt` | lib/api/hotels.ts:10-14 | where one task writes: exactly the first hotel with the task's id gets the response's rooms (if the request succeeded); every other hotel is unchanged |
| `HotelsApi.AttachOneStep` | lib/api/hotels.ts:9-15 | one task's write takes the list from "responses for a set of ids attached" to the same set plus its own id |
| `HotelsApi.AttachInAnyOrder` | lib/api/hotels.ts:9-15 | tasks that cover every listed id give the same list whatever their completion order or repetition |
| `HotelsApi.AttachRooms` | lib/api/hotels.ts:7-15 | one request per listed hotel, keyed by (collection id, hotel id), in list order; success exactly when every request succeeded; the array ends as the merged list |
| `HotelsApi.GetHotelsData` | lib/api/hotels.ts:3-17 | a failed hotel list fails the call with no room-rate requests; otherwise it returns a fresh array holding the merged list, unless a room-rate request failed |

## Left out

- GetHotelsData: the default argument `collectionId = "OBMNG"` (lib/api/hotels.ts:3) is not modelled. Dafny has no default parameters, so the caller always passes the collection id; the page calls it without one (pages/index.tsx:194), which means `"OBMNG"`.
- HTTP requests and JSON decoding (lib/api/hotels.ts:4-5, 10-11) are outside the model. The decoded hotel list is an input (`None` when that request fails). The room-rate service is a map from request to the `rooms` of its response; a missing key is a failed request.
- AttachRooms: `Promise.all` is run as a sequential loop in list order. `AttachInAnyOrder` shows that the completion order does not matter, but only under the map abstraction, where the same request always gets the same answer. A service that answered a repeated id differently on two calls would make the last writer depend on timing; that is not modelled.
- GetHotelsData: a failed call returns `None`. Whether the successful tasks' writes happen before or after `Promise.all` rejects is not modelled; the list is discarded on failure either way.
- Hotels are values in the slots of an `array<Hotel>`. The merge rewrites a slot (`hotelsData[j] := hotelsData[j].(rooms := ...)`) where the code assigns a field of a shared object. Aliasing between two list entries is therefore not modelled; JSON decoding creates a distinct object per entry, so none arises.
- A listed hotel's `rooms` before the merge is whatever sequence the decoded list holds. JSON without that field gives `undefined` in JavaScript. This matters for a repeated id: the later hotel keeps that value, and rendering it would fail. Rendering is outside the model.
- A response without a `rooms` field, and numbers in `occupancy` that are not integers, are not modelled. Occupancies are integers.
- parseInt: JavaScript strings are UTF-16; the model reads Unicode scalar values. The result is an exact integer, not a double, so the rounding of numbers above 2^53 is not modelled. It cannot change a comparison with a rating of 0 to 5. The `-0` result is modelled as 0, which compares the same way.
- `IFilters` has an index signature, so `setCapacity` would accept any key. The page only passes `"adults"` and `"children"` (pages/index.tsx:19-20, 94-112), so the guest type is a two-value datatype.
- The MUI `Rating` control hands `null` to `onChange` when a star is cleared, and the handler casts it with `as number` (pages/index.tsx:86). This is framework behaviour, so the new rating is a natural number.
- `getStaticProps` and the Next.js build (pages/index.tsx:193-200) are not modelled. Neither is any rendering: the hero, the carousel, the read-only rating display at pages/index.tsx:148, or the "no rooms available" message.
- lib/types/types.ts has no behaviour. `HomePageProps` is not modelled; its only field is the hotel list.
