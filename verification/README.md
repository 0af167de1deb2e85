# Airline seat inventory — a Dafny model

This project models the seat inventory of a small airline booking library
(`airtravel.py`):

- a **flight** (`Flight`) is a validated flight number, an aircraft and a
  seat grid. The grid maps every seat of the aircraft's seating plan to
  either nothing or a passenger's name;
- three **aircraft** kinds supply seating plans: the Airbus A319, the
  Boeing 777 and a generic aircraft built from a row count and a
  seats-per-row count;
- the operations are constructing a flight, reading its airline code,
  parsing a seat designator such as `12F`, allocating a seat, and
  relocating a passenger;
- the read-only views are the row-major enumeration of occupied seats and
  the sorted sequence of boarding cards handed to a card printer. The model
  also covers the text of one card as the console printer frames it.

Every operation is a pure function. It returns either the updated flight
or the error the library raises (`Result<Flight, Error>`). On an error, the
caller keeps the flight it had, which matches the library: it raises before
mutating anything.

Modules, in dependency order:

| module | file | contents |
|---|---|---|
| `Wrappers` | `wrappers.dfy` | `Option`, `Result` |
| `Decimal` | `decimal.dfy` | ASCII digit strings: `isdigit`, `int(...)` of a digit string, decimal rendering of an `int` |
| `Lex` | `lex.dfy` | Python's order on strings and on `(str, str)` tuples, and `sorted` |
| `Aircraft` | `aircraft.dfy` | seating plans and the three aircraft kinds |
| `Flights` | `flights.dfy` | the flight record, construction, `getNumber`, `parse_seat`, `allocate_seat`, `relocate_passenger` |
| `Boarding` | `boarding.dfy` | `_passenger_seats` and `make_boarding_cards` |
| `Cards` | `cards.dfy` | `console_card_printer`'s card text |
| `Demo` | `demo.dfy` | the first flight built by `make_flights` and its boarding cards |

The model keeps these behaviours of the code:

- **Rows of the generic aircraft.** Its plan is `range(1, rows)`, so an
  aircraft "with 22 rows" has rows 1 to 21 only (`Demo.DemoPlan`).
- **Letters of the generic aircraft.** They are drawn from `"ABCDEFGJK"`,
  which has no `H`. The Boeing 777 plan does have an `H`.
- **Error kinds.** The constructor raises three differently worded errors:
  no airline code, airline code not upper case, and bad route number.
  Seat parsing raises three more: bad letter, non-numeric row, and row out
  of range. They are kept as six distinct `Error` values, which makes the
  order of the checks visible.
- **Order of checks in `parse_seat`.** The seat letter is checked before
  the row. So `"99Z"` reports a bad letter, not a bad row.
- **Printer's flight argument.** The card printer receives `getNumber()`,
  which is the two-letter airline code, not the whole flight number.
- **Relocating from an empty seat.** `relocate_passenger` does not require
  the source seat to be occupied. It checks the destination first, then
  parses the source.

## Model

| member | source | states |
|---|---|---|
| Aircraft.Airbus319 | airtravel.py:98-109 | the A319 plan starts at row 1 with distinct letters; it has seat 22F but neither row 23 nor letter G |
| Aircraft.Boeing777 | airtravel.py:111-123 | the 777 plan starts at row 1 with distinct letters; it has seats 55K and 1H but no row 56 |
| Aircraft.Generic | airtravel.py:125-140 | the generic plan's seats are exactly rows 1 to rows-1 with its letters; the letters are a prefix of "ABCDEFGJK", contain no H, and number seatsPerRow when that is 0 to 9 |
| Aircraft.SlicePrefix | airtravel.py:140 | Python's `s[:n]` is a prefix of `s`, of length min(n, len) for n >= 0 and max(len + n, 0) for negative n |
| Flights.EmptyRows | airtravel.py:14 | the initial grid has a key for exactly each seat of the rows and letters, and every seat is empty |
| Flights.NewFlight | airtravel.py:3-14 | construction succeeds exactly when the number is two upper-case letters then digits of value at most 9999; the flight then keeps number and aircraft, holds exactly the plan's seats and all are empty; otherwise one of the three flight-number errors |
| Flights.AirlineCodeOutcomes | airtravel.py:4-7 | the `isalpha` check fails exactly when the number is empty or one of its first two characters is not a letter; the `isupper` check then fails exactly when one of them is a lower-case letter |
| Flights.GetNumber | airtravel.py:16-17 | on a valid flight the result is the first two characters of the flight number, both upper-case letters |
| Flights.GetModel | airtravel.py:19-20 | the model is "Air Bus A319" on an A319, "Boeing 777" on a 777, and the model given at construction on a generic aircraft |
| Flights.SeatName | airtravel.py:95 | a seat's designator is its row in decimal followed by its letter: for a non-negative row the text before the letter is a digit string whose value is the row; a negative row starts with '-' |
| Flights.ParseSeat | airtravel.py:55-68 | a designator parses exactly when its last character is a plan letter and the rest is a digit string whose value is a plan row; the result is that seat; a bad letter is reported before any row error |
| Flights.ParseSeatName | airtravel.py:55-68 | parsing the designator the enumeration prints for a seat of the plan gives back that seat |
| Flights.SeatNameInjective | airtravel.py:95 | different seats get different designators |
| Flights.AllocateSeat | airtravel.py:76-82 | parse errors propagate; an occupied seat gives SeatOccupied; an empty seat gets the passenger and no other seat changes; the flight stays valid |
| Flights.AllocateTwiceFails | airtravel.py:79-82 | after a successful allocation the seat holds the passenger and allocating it again fails with SeatOccupied |
| Flights.RelocatePassenger | airtravel.py:34-42 | the destination is parsed and must be empty before the source is parsed; on success the destination gets the source's contents, the source is empty, and every other seat is unchanged |
| Flights.RelocateFromEmptySeat | airtravel.py:39-42 | relocating from an empty seat to an empty seat succeeds and changes nothing |
| Flights.RelocateRoundTrip | airtravel.py:34-42 | a successful relocation followed by the reverse relocation restores the flight exactly |
| Flights.FlightNumberExamples | airtravel.py:4-9 | "ba758" fails as not upper case, "B758" as no airline code, "BA10000" as a bad route; "BA758" succeeds with airline code "BA" |
| Flights.ParseSeatExamples | airtravel.py:55-66 | on the A319 plan, "12F" is seat (12, F); "99F" is a bad row, "12Z" a bad letter, "xF" a non-numeric row |
| Decimal.ValueFromNat | airtravel.py:95 | reading back the decimal rendering of a row number gives the number |
| Decimal.FromIntInjective | airtravel.py:95 | different row numbers render differently, negative ones included |
| Decimal.Value | airtravel.py:61 | `int(...)` of a digit string that does not start with '0' is positive |
| Decimal.ValueCanonical | airtravel.py:61 | a digit string without a leading zero is the decimal rendering of its `int(...)` value, so `str(int(s)) == s` |
| Boarding.RowKeysMembers | airtravel.py:92-94 | the walk over one row lists exactly that row's occupied seats |
| Boarding.RowKeysOrdered | airtravel.py:92-94 | with distinct letters, the walk lists a row's seats in plan-letter order |
| Boarding.AllKeysMembers | airtravel.py:91-94 | the walk over the rows lists exactly the occupied seats |
| Boarding.AllKeysOrdered | airtravel.py:91-94 | with distinct letters, the walk lists seats by row, then plan-letter order |
| Boarding.OccupiedSeats | airtravel.py:89-94 | the enumerated seats are exactly the occupied seats of the plan; with distinct letters they are in row-major order without repeats |
| Boarding.OrderedUnique | airtravel.py:91-92 | two row-major ordered sequences with the same seats are equal |
| Boarding.OccupiedSeatsUnique | airtravel.py:89-94 | the enumeration is the only row-major ordered sequence of exactly the occupied seats |
| Boarding.PassengerSeats | airtravel.py:89-95 | one pair per enumerated seat: its occupant and its designator |
| Boarding.PassengerSeatsExact | airtravel.py:89-95 | a (passenger, designator) pair is enumerated exactly when that passenger occupies a plan seat with that designator |
| Boarding.PassengerSeatsOnce | airtravel.py:89-95 | with distinct letters, no designator is enumerated twice |
| Lex.Sort | airtravel.py:85 | the sorted pairs are in ascending tuple order and are a permutation of the input |
| Lex.LessIrreflexive | airtravel.py:85 | no string is less than itself in Python's string order |
| Lex.LessTransitive | airtravel.py:85 | Python's string order is transitive |
| Lex.LessTotal | airtravel.py:85 | any two different strings are ordered one way or the other |
| Lex.PairLeqTransitive | airtravel.py:85 | the tuple order `sorted` uses on (passenger, seat) pairs is transitive |
| Lex.PairLeqTotal | airtravel.py:85 | any two pairs are comparable in the tuple order |
| Lex.PairLeqAntisymmetric | airtravel.py:85 | two pairs each no greater than the other are equal |
| Lex.SortedUnique | airtravel.py:85 | two ascending orderings of the same multiset of pairs are equal, so the sort's result is determined |
| Lex.SortExample | airtravel.py:85 | Ravi 1A, Aryan 12A and Gargie 12B sort to Aryan, Gargie, Ravi |
| Boarding.MakeBoardingCards | airtravel.py:84-86 | the printer calls are the enumerated pairs, reordered ascending by (passenger, seat), each with the airline code and the aircraft model |
| Boarding.BoardingCardsDetermined | airtravel.py:84-86 | any ascending reordering of the enumerated pairs is the call sequence, call by call |
| Boarding.BoardingCardsExact | airtravel.py:84-86 | the printer is called for (passenger, seat) exactly when that passenger occupies the seat so named |
| Boarding.BoardingCardsOnce | airtravel.py:84-86 | with distinct letters, no seat is printed twice |
| Cards.Repeat | airtravel.py:176-177 | `c * n` has length n and every character is c |
| Cards.LinesJoin | airtravel.py:179 | splitting the newline-joined card lines gives the lines back when none contains a newline |
| Cards.CardText | airtravel.py:169-179 | when no field holds a newline, the card is five lines with the content line in the middle, the two borders equal, the two banners equal, and all as wide as the content line |
| Cards.CardShape | airtravel.py:169-179 | the card is five lines: banner, border, content, border, banner; the frame lines are as wide as the content, banners are '-' between '+' corners, borders are blanks between bars |
| Demo.AllocateAll | airtravel.py:144-149 | successive allocations keep the flight valid, with the same number and aircraft |
| Demo.DemoFlight | airtravel.py:143-149 | a first flight that is built is valid, numbered "BA758", on the given aircraft |
| Demo.DemoPlan | airtravel.py:143 | the generic aircraft "with 22 rows and 6 seats" has letters ABCDEF and no row 22 |
| Demo.DemoAllocations | airtravel.py:144-149 | the six allocations of the first flight all succeed on an empty grid and fill exactly the six named seats |
| Demo.DemoSeating | airtravel.py:143-149 | the first flight is built, and each seat holds its expected passenger or nothing |
| Demo.DemoOccupied | airtravel.py:89-94 | the demo flight enumerates 1A, 2A, 2F, 12A, 12B, 12C in that order |
| Demo.DemoBoardingCards | airtravel.py:142-149 | the first flight's cards are printed in the order Aryan 12A, Deep Mala 12C, Gargie 12B, J N Sharma 2F, Ravi 1A, Rekha 2A, each with "BA" and "Airbus A319" |

## Left out

- Console output: the `print` calls at lines 13, 180 and 181 are left out. `Cards.CardText` is the text that would be printed.
- The card printer callback is not called. `Boarding.MakeBoardingCards` returns the sequence of calls it would make, as `CardCall` values.
- `make_flights`' second and third flights (lines 151-165) are left out. They repeat the same six allocations on an A319 and a 777, which the general contracts of `Flights.AllocateSeat` cover. The demonstration module models only the first flight.
- Error message texts are left out. Each message is represented by its `Error` kind.
- Flights.NewFlight: `isalpha`, `isupper` and `isdigit` are modelled on ASCII characters only. Non-ASCII letters and digits, which Python also accepts, are outside the model.
- Flights.ParseSeat: `int(...)` is modelled on ASCII digit strings only. Python's `int` also accepts a sign, surrounding whitespace and underscores. So `"-1A"` or `" 1A"` reports a non-numeric row here, but Python reports a bad row number or succeeds.
- Flights.ParseSeat: requires a non-empty designator, because the library fails on an empty one with an `IndexError` rather than a `ValueError`. `Flights.AllocateSeat` inherits this.
- Flights.RelocatePassenger: requires both designators to be non-empty. The library would still report an occupied destination before touching an empty source designator.
- Registration accessors and `getSeatingplan` are record fields here: `Aircraft.registration` and `Aircraft.plan`. `getModel` is the function `Flights.GetModel`. The aircraft's duck-typed interface becomes one `Aircraft` datatype with three constructor functions.
- The unused local at line 76 is left out.
- The per-row list of dictionaries with a placeholder at index 0 (line 14) is represented as one map from `(row, letter)` to the occupant. The list is indexed by position, and every plan the three aircraft kinds produce starts at row 1 (`Aircraft.WellFormed`, ensured by `Aircraft.Airbus319`, `Aircraft.Boeing777` and `Aircraft.Generic`), so position equals row number and both hold the same seats. A hand-built `SeatingPlan` whose first row is not 1 has no counterpart in the library; `Flights.Valid` does not exclude it, and for such a plan the map is not a model of the list.
