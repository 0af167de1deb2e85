/**
 * One flight's seat inventory: flight-number validation, seat-designator
 * parsing, and the two operations that change the seat grid. Every
 * operation is a pure function returning either the updated flight or the
 * error the source raises; on an error the caller keeps the flight it had.
 */
module Flights {
  import opened Wrappers
  import opened Decimal
  import opened Aircraft

  /** Why an operation raised `ValueError`: one kind per distinct message. */
  datatype Error =
    | NoAirlineCode       // the first two characters are not all letters
    | InvalidAirlineCode  // the first two characters are not upper case
    | InvalidRouteNumber  // the rest is not a digit string of value at most 9999
    | InvalidSeatLetter   // the designator's last character is not a letter of the plan
    | InvalidSeatRowText  // the rest of the designator is not an integer
    | InvalidRowNumber    // the row is outside the plan's rows
    | SeatOccupied        // the target seat already has a passenger

  /** The seat grid: every seat of the plan, empty or holding a passenger's name. */
  type Grid = map<(int, char), Option<string>>

  datatype Flight = Flight(number: string, aircraft: Aircraft, seating: Grid)

  /** The largest route number a flight number may carry. */
  const MaxRoute: nat := 9999

  predicate IsUpperLetter(c: char) {
    'A' <= c <= 'Z'
  }

  predicate IsLowerLetter(c: char) {
    'a' <= c <= 'z'
  }

  /** Python's `s.isalpha()` for ASCII: non-empty and all letters. */
  predicate IsAlpha(s: string) {
    |s| > 0 && forall i :: 0 <= i < |s| ==> IsUpperLetter(s[i]) || IsLowerLetter(s[i])
  }

  /** Python's `s.isupper()` for ASCII: some cased character and none lower case. */
  predicate IsUpper(s: string) {
    (exists i :: 0 <= i < |s| && IsUpperLetter(s[i]))
    && forall i :: 0 <= i < |s| ==> !IsLowerLetter(s[i])
  }

  /** Python's slice `s[n:]` for `n >= 0`. */
  function Drop(s: string, n: nat): string {
    if n <= |s| then s[n..] else []
  }

  /**
   * A flight number as the constructor accepts it, stated directly: two
   * upper-case letters followed by a non-empty digit string of value at most 9999.
   */
  predicate ValidFlightNumber(fno: string) {
    && |fno| >= 3
    && IsUpperLetter(fno[0]) && IsUpperLetter(fno[1])
    && IsDigits(fno[2..])
    && Value(fno[2..]) <= MaxRoute
  }

  /** What every flight keeps: a valid number and a grid holding exactly the plan's seats. */
  predicate Valid(f: Flight) {
    ValidFlightNumber(f.number) && f.seating.Keys == Seats(f.aircraft.plan)
  }

  /** The empty seats of one row, for the given letters. */
  function EmptyRow(row: int, letters: seq<char>): (g: Grid)
    ensures forall k :: k in g <==> k.0 == row && k.1 in letters
    ensures forall k :: k in g ==> g[k] == None
    decreases |letters|
  {
    if |letters| == 0 then map[]
    else
      assert letters == [letters[0]] + letters[1..];
      EmptyRow(row, letters[1..])[(row, letters[0]) := None]
  }

  /** The empty seats of rows `lo .. hi - 1`. */
  function EmptyRows(lo: int, hi: int, letters: seq<char>): (g: Grid)
    ensures forall k :: k in g <==> lo <= k.0 < hi && k.1 in letters
    ensures forall k :: k in g ==> g[k] == None
    decreases hi - lo
  {
    if hi <= lo then map[]
    else EmptyRow(lo, letters) + EmptyRows(lo + 1, hi, letters)
  }

  /**
   * `Flight(fno, aircraft)`: validates the flight number (letters, then upper
   * case, then the route number) and builds an all-empty grid from the plan.
   */
  function NewFlight(fno: string, aircraft: Aircraft): (r: Result<Flight, Error>)
    ensures r.Ok? <==> ValidFlightNumber(fno)
    ensures r.Ok? ==> r.value.number == fno && r.value.aircraft == aircraft && Valid(r.value)
    ensures r.Ok? ==> forall k :: k in r.value.seating ==> r.value.seating[k] == None
    ensures r.Err? ==> r.error in {NoAirlineCode, InvalidAirlineCode, InvalidRouteNumber}
  {
    var code := SlicePrefix(fno, 2);
    var route := Drop(fno, 2);
    if !IsAlpha(code) then Err(NoAirlineCode)
    else if !IsUpper(code) then Err(InvalidAirlineCode)
    else if !(IsDigits(route) && Value(route) <= MaxRoute) then Err(InvalidRouteNumber)
    else
      var plan := aircraft.plan;
      var g := EmptyRows(plan.rowLo, plan.rowHi, plan.letters);
      assert g.Keys == Seats(plan);
      Ok(Flight(fno, aircraft, g))
  }

  /** `getNumber`: the two-letter airline code, not the whole flight number. */
  function GetNumber(f: Flight): (code: string)
    ensures Valid(f) ==> |code| == 2 && code == f.number[..2]
    ensures Valid(f) ==> IsUpperLetter(code[0]) && IsUpperLetter(code[1])
  {
    SlicePrefix(f.number, 2)
  }

  /**
   * `getModel`: the aircraft's `model()`, which is fixed for the A319 and the
   * 777 and given at construction for the generic aircraft.
   */
  function GetModel(f: Flight): (m: string)
    ensures f.aircraft == Airbus319(f.aircraft.registration) ==> m == "Air Bus A319"
    ensures f.aircraft == Boeing777(f.aircraft.registration) ==> m == "Boeing 777"
    ensures forall reg, model, rows, seats ::
      f.aircraft == Generic(reg, model, rows, seats) ==> m == model
  {
    f.aircraft.model
  }

  /** The designator of a seat, `"{}{}".format(row, letter)`: e.g. "12F". */
  function SeatName(k: (int, char)): (s: string)
    ensures |s| >= 2 && s[|s| - 1] == k.1
    ensures k.0 >= 0 ==> IsDigits(s[..|s| - 1]) && Value(s[..|s| - 1]) == k.0
    ensures k.0 < 0 ==> s[0] == '-'
  {
    var s := FromInt(k.0) + [k.1];
    assert s[..|s| - 1] == FromInt(k.0);
    if k.0 >= 0 then ValueFromNat(k.0); s else s
  }

  /**
   * `parse_seat`: the last character is the letter, checked against the plan
   * first; the rest must be a digit string whose value is a row of the plan.
   */
  function ParseSeat(plan: SeatingPlan, seat: string): (r: Result<(int, char), Error>)
    requires |seat| > 0
    ensures r.Ok? ==> HasSeat(plan, r.value) && r.value.1 == seat[|seat| - 1]
    ensures r.Ok? ==> IsDigits(seat[..|seat| - 1]) && r.value.0 == Value(seat[..|seat| - 1])
    ensures r.Ok? <==>
      && seat[|seat| - 1] in plan.letters
      && IsDigits(seat[..|seat| - 1])
      && plan.rowLo <= Value(seat[..|seat| - 1]) < plan.rowHi
    ensures seat[|seat| - 1] !in plan.letters ==> r == Err(InvalidSeatLetter)
    ensures r.Err? ==> r.error in {InvalidSeatLetter, InvalidSeatRowText, InvalidRowNumber}
  {
    var letter := seat[|seat| - 1];
    if letter !in plan.letters then Err(InvalidSeatLetter)
    else
      var rowText := seat[..|seat| - 1];
      if !IsDigits(rowText) then Err(InvalidSeatRowText)
      else
        var row := Value(rowText);
        if !(plan.rowLo <= row < plan.rowHi) then Err(InvalidRowNumber)
        else Ok((row, letter))
  }

  /**
   * `allocate_seat`: on a valid, empty seat the passenger takes it and no other
   * seat changes; an occupied seat or a bad designator is an error.
   */
  function AllocateSeat(f: Flight, seat: string, passenger: string): (r: Result<Flight, Error>)
    requires Valid(f) && |seat| > 0
    ensures r.Ok? ==> Valid(r.value) && r.value.number == f.number && r.value.aircraft == f.aircraft
    ensures ParseSeat(f.aircraft.plan, seat).Err? ==> r == Err(ParseSeat(f.aircraft.plan, seat).error)
    ensures ParseSeat(f.aircraft.plan, seat).Ok? ==>
      var k := ParseSeat(f.aircraft.plan, seat).value;
      && (f.seating[k].Some? ==> r == Err(SeatOccupied))
      && (f.seating[k].None? ==>
            && r.Ok?
            && r.value.seating[k] == Some(passenger)
            && forall k' :: k' in f.seating && k' != k ==> r.value.seating[k'] == f.seating[k'])
  {
    match ParseSeat(f.aircraft.plan, seat)
    case Err(e) => Err(e)
    case Ok(k) =>
      if f.seating[k].Some? then Err(SeatOccupied)
      else Ok(f.(seating := f.seating[k := Some(passenger)]))
  }

  /**
   * `relocate_passenger`: the destination is parsed and checked for an occupant
   * before the source is parsed at all; then the destination takes whatever
   * the source held (possibly nothing) and the source is emptied.
   */
  function RelocatePassenger(f: Flight, fromSeat: string, toSeat: string): (r: Result<Flight, Error>)
    requires Valid(f) && |fromSeat| > 0 && |toSeat| > 0
    ensures r.Ok? ==> Valid(r.value) && r.value.number == f.number && r.value.aircraft == f.aircraft
    ensures ParseSeat(f.aircraft.plan, toSeat).Err? ==> r == Err(ParseSeat(f.aircraft.plan, toSeat).error)
    ensures ParseSeat(f.aircraft.plan, toSeat).Ok? ==>
      var kt := ParseSeat(f.aircraft.plan, toSeat).value;
      && (f.seating[kt].Some? ==> r == Err(SeatOccupied))
      && (f.seating[kt].None? && ParseSeat(f.aircraft.plan, fromSeat).Err? ==>
            r == Err(ParseSeat(f.aircraft.plan, fromSeat).error))
      && (f.seating[kt].None? && ParseSeat(f.aircraft.plan, fromSeat).Ok? ==>
            var kf := ParseSeat(f.aircraft.plan, fromSeat).value;
            && r.Ok?
            && r.value.seating[kt] == f.seating[kf]
            && r.value.seating[kf] == None
            && forall k :: k in f.seating && k != kt && k != kf ==> r.value.seating[k] == f.seating[k])
  {
    match ParseSeat(f.aircraft.plan, toSeat)
    case Err(e) => Err(e)
    case Ok(kt) =>
      if f.seating[kt].Some? then Err(SeatOccupied)
      else
        match ParseSeat(f.aircraft.plan, fromSeat)
        case Err(e) => Err(e)
        case Ok(kf) =>
          var moved := f.seating[kt := f.seating[kf]];
          Ok(f.(seating := moved[kf := None]))
  }

  /**
   * The two airline-code checks in terms of the first (up to) two characters:
   * a missing code is an empty number or a non-letter among them; a code in
   * the wrong case is letters only, at least one of them lower case.
   */
  lemma AirlineCodeOutcomes(fno: string, aircraft: Aircraft)
    ensures NewFlight(fno, aircraft) == Err(NoAirlineCode) <==>
      |fno| == 0 || exists i :: 0 <= i < |fno| && i < 2 && !IsUpperLetter(fno[i]) && !IsLowerLetter(fno[i])
    ensures NewFlight(fno, aircraft) == Err(InvalidAirlineCode) <==>
      && |fno| > 0
      && (forall i :: 0 <= i < |fno| && i < 2 ==> IsUpperLetter(fno[i]) || IsLowerLetter(fno[i]))
      && (exists i :: 0 <= i < |fno| && i < 2 && IsLowerLetter(fno[i]))
  {
    var code := SlicePrefix(fno, 2);
    assert |code| == if |fno| < 2 then |fno| else 2;
    assert forall i :: 0 <= i < |code| ==> code[i] == fno[i];
  }

  /** Parsing the designator of a seat of the plan gives back that seat. */
  lemma ParseSeatName(plan: SeatingPlan, k: (int, char))
    requires HasSeat(plan, k) && k.0 >= 0
    ensures ParseSeat(plan, SeatName(k)) == Ok(k)
  {
    var s := SeatName(k);
    assert s[..|s| - 1] == FromInt(k.0) == FromNat(k.0);
    ValueFromNat(k.0);
  }

  /** Different seats have different designators. */
  lemma SeatNameInjective(a: (int, char), b: (int, char))
    requires SeatName(a) == SeatName(b)
    ensures a == b
  {
    var s := SeatName(a);
    assert FromInt(a.0) == s[..|s| - 1] == FromInt(b.0);
    FromIntInjective(a.0, b.0);
  }

  /**
   * After a successful allocation the seat holds the passenger, and allocating
   * it again fails with `SeatOccupied`, the first passenger keeping it.
   */
  lemma AllocateTwiceFails(f: Flight, seat: string, p: string, q: string)
    requires Valid(f) && |seat| > 0
    requires AllocateSeat(f, seat, p).Ok?
    ensures var g := AllocateSeat(f, seat, p).value;
      && ParseSeat(g.aircraft.plan, seat).Ok?
      && g.seating[ParseSeat(g.aircraft.plan, seat).value] == Some(p)
      && AllocateSeat(g, seat, q) == Err(SeatOccupied)
  {
  }

  /** Relocating from an empty seat to an empty seat leaves the flight as it was. */
  lemma RelocateFromEmptySeat(f: Flight, fromSeat: string, toSeat: string)
    requires Valid(f) && |fromSeat| > 0 && |toSeat| > 0
    requires ParseSeat(f.aircraft.plan, fromSeat).Ok?
    requires f.seating[ParseSeat(f.aircraft.plan, fromSeat).value] == None
    requires ParseSeat(f.aircraft.plan, toSeat).Ok?
    requires f.seating[ParseSeat(f.aircraft.plan, toSeat).value] == None
    ensures RelocatePassenger(f, fromSeat, toSeat) == Ok(f)
  {
    var g := RelocatePassenger(f, fromSeat, toSeat).value;
    assert g.seating == f.seating;
  }

  /** A successful relocation is undone by relocating back. */
  lemma RelocateRoundTrip(f: Flight, fromSeat: string, toSeat: string)
    requires Valid(f) && |fromSeat| > 0 && |toSeat| > 0
    requires RelocatePassenger(f, fromSeat, toSeat).Ok?
    ensures RelocatePassenger(RelocatePassenger(f, fromSeat, toSeat).value, toSeat, fromSeat) == Ok(f)
  {
    var plan := f.aircraft.plan;
    var g := RelocatePassenger(f, fromSeat, toSeat).value;
    var kt := ParseSeat(plan, toSeat).value;
    var kf := ParseSeat(plan, fromSeat).value;
    var h := RelocatePassenger(g, toSeat, fromSeat).value;
    assert h.seating == f.seating;
  }

  lemma LowerCaseCodeExample(a: Aircraft)
    ensures NewFlight("ba758", a) == Err(InvalidAirlineCode)
  {
    assert SlicePrefix("ba758", 2) == "ba";
    assert !IsUpper("ba") by { assert IsLowerLetter("ba"[0]); }
  }

  lemma ShortCodeExample(a: Aircraft)
    ensures NewFlight("B758", a) == Err(NoAirlineCode)
  {
    assert SlicePrefix("B758", 2) == "B7";
    assert !IsAlpha("B7") by { assert !IsUpperLetter("B7"[1]) && !IsLowerLetter("B7"[1]); }
  }

  lemma LargeRouteExample(a: Aircraft)
    ensures NewFlight("BA10000", a) == Err(InvalidRouteNumber)
  {
    assert SlicePrefix("BA10000", 2) == "BA";
    assert Drop("BA10000", 2) == "10000";
    assert Value("10000") == 10000 by {
      assert "10000"[..4] == "1000" && "1000"[..3] == "100" && "100"[..2] == "10" && "10"[..1] == "1";
    }
  }

  lemma ValidNumberExample(a: Aircraft)
    ensures NewFlight("BA758", a).Ok? && GetNumber(NewFlight("BA758", a).value) == "BA"
  {
    assert SlicePrefix("BA758", 2) == "BA";
    assert Drop("BA758", 2) == "758";
    assert Value("758") == 758 by {
      assert "758"[..2] == "75" && "75"[..1] == "7";
    }
  }

  /** Boundary flight numbers: the lower-case, short-code and too-large cases fail. */
  lemma FlightNumberExamples(a: Aircraft)
    ensures NewFlight("ba758", a) == Err(InvalidAirlineCode)
    ensures NewFlight("B758", a) == Err(NoAirlineCode)
    ensures NewFlight("BA10000", a) == Err(InvalidRouteNumber)
    ensures NewFlight("BA758", a).Ok? && GetNumber(NewFlight("BA758", a).value) == "BA"
  {
    LowerCaseCodeExample(a);
    ShortCodeExample(a);
    LargeRouteExample(a);
    ValidNumberExample(a);
  }

  /** Seat designators on the 22-row, six-letter A319 plan. */
  lemma ParseSeatExamples()
    ensures ParseSeat(Airbus319("G-EUPT").plan, "12F") == Ok((12, 'F'))
    ensures ParseSeat(Airbus319("G-EUPT").plan, "99F") == Err(InvalidRowNumber)
    ensures ParseSeat(Airbus319("G-EUPT").plan, "12Z") == Err(InvalidSeatLetter)
    ensures ParseSeat(Airbus319("G-EUPT").plan, "xF") == Err(InvalidSeatRowText)
  {
    assert "12F"[..2] == "12" && "12"[..1] == "1";
    assert Value("12") == 12;
    assert "12F"[2] == 'F' && 'F' in "ABCDEF";
    assert "99F"[..2] == "99" && "99"[..1] == "9";
    assert 'Z' !in "ABCDEF";
    assert "xF"[..1] == "x";
  }
}
