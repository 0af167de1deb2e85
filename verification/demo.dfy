/**
 * The first flight of the demonstration driver: "BA758" on a generic
 * aircraft built with 22 rows and 6 seats per row, six allocations, and
 * the order in which its boarding cards are printed.
 */
module Demo {
  import opened Wrappers
  import opened Decimal
  import opened Aircraft
  import opened Flights
  import opened Lex
  import opened Boarding

  /** Allocates each `(designator, passenger)` in turn, stopping at the first error. */
  function AllocateAll(f: Flight, requests: seq<(string, string)>): (r: Result<Flight, Error>)
    requires Valid(f)
    requires forall i :: 0 <= i < |requests| ==> |requests[i].0| > 0
    ensures r.Ok? ==> Valid(r.value) && r.value.number == f.number && r.value.aircraft == f.aircraft
    decreases |requests|
  {
    if |requests| == 0 then Ok(f)
    else
      match AllocateSeat(f, requests[0].0, requests[0].1)
      case Err(e) => Err(e)
      case Ok(g) => AllocateAll(g, requests[1..])
  }

  const DemoRequests: seq<(string, string)> := [
    ("12A", "Aryan Bhardwaj"), ("12B", "Gargie Bhardwaj"), ("12C", "Deep Mala"),
    ("1A", "Ravi Datt Sharma"), ("2F", "J N Sharma"), ("2A", "Rekha Kumari")]

  /** `make_flights`' first flight, on the aircraft `a`. */
  function DemoFlight(a: Aircraft): (r: Result<Flight, Error>)
    ensures r.Ok? ==> Valid(r.value) && r.value.aircraft == a && r.value.number == "BA758"
  {
    match NewFlight("BA758", a)
    case Err(e) => Err(e)
    case Ok(f) => AllocateAll(f, DemoRequests)
  }

  /** Who sits where after the six allocations. */
  function Expected(k: (int, char)): Option<string> {
    if k == (12, 'A') then Some("Aryan Bhardwaj")
    else if k == (12, 'B') then Some("Gargie Bhardwaj")
    else if k == (12, 'C') then Some("Deep Mala")
    else if k == (1, 'A') then Some("Ravi Datt Sharma")
    else if k == (2, 'F') then Some("J N Sharma")
    else if k == (2, 'A') then Some("Rekha Kumari")
    else None
  }

  /** The generic aircraft with 22 rows has rows 1 to 21 only. */
  lemma DemoPlan()
    ensures Generic("G-TURS", "Airbus A319", 22, 6).plan == SeatingPlan(1, 22, "ABCDEF")
    ensures !HasSeat(Generic("G-TURS", "Airbus A319", 22, 6).plan, (22, 'A'))
  {
    assert SlicePrefix(GenericLetters, 6) == "ABCDEF";
  }

  lemma DemoDesignators(plan: SeatingPlan)
    requires plan == SeatingPlan(1, 22, "ABCDEF")
    ensures ParseSeat(plan, "12A") == Ok((12, 'A'))
    ensures ParseSeat(plan, "12B") == Ok((12, 'B'))
    ensures ParseSeat(plan, "12C") == Ok((12, 'C'))
    ensures ParseSeat(plan, "1A") == Ok((1, 'A'))
    ensures ParseSeat(plan, "2F") == Ok((2, 'F'))
    ensures ParseSeat(plan, "2A") == Ok((2, 'A'))
  {
    assert Value("12") == 12 by { assert "12"[..1] == "1"; }
    assert "12A"[..2] == "12" && "12B"[..2] == "12" && "12C"[..2] == "12";
    assert "1A"[..1] == "1" && "2F"[..1] == "2" && "2A"[..1] == "2";
  }

  /** One allocation on an empty seat fills it and keeps the rest. */
  lemma StepAllocate(f: Flight, seat: string, p: string, k: (int, char))
    requires Valid(f) && |seat| > 0
    requires ParseSeat(f.aircraft.plan, seat) == Ok(k) && f.seating[k] == None
    ensures AllocateSeat(f, seat, p) == Ok(f.(seating := f.seating[k := Some(p)]))
    ensures Valid(f.(seating := f.seating[k := Some(p)]))
  {
  }

  /** Allocating a list of requests whose first seat is empty is filling it, then allocating the rest. */
  lemma AllocateFirst(f: Flight, requests: seq<(string, string)>, k: (int, char))
    requires Valid(f) && |requests| > 0
    requires forall i :: 0 <= i < |requests| ==> |requests[i].0| > 0
    requires ParseSeat(f.aircraft.plan, requests[0].0) == Ok(k) && f.seating[k] == None
    ensures Valid(f.(seating := f.seating[k := Some(requests[0].1)]))
    ensures AllocateAll(f, requests) == AllocateAll(f.(seating := f.seating[k := Some(requests[0].1)]), requests[1..])
  {
    StepAllocate(f, requests[0].0, requests[0].1, k);
  }

  /** The grid after the first three allocations, all in row 12. */
  function FillFirst(g: Grid): Grid {
    g[(12, 'A') := Some("Aryan Bhardwaj")][(12, 'B') := Some("Gargie Bhardwaj")][(12, 'C') := Some("Deep Mala")]
  }

  /** The grid after the last three allocations, in rows 1 and 2. */
  function FillLast(g: Grid): Grid {
    g[(1, 'A') := Some("Ravi Datt Sharma")][(2, 'F') := Some("J N Sharma")][(2, 'A') := Some("Rekha Kumari")]
  }

  /** The grid after the six allocations, written as updates. */
  function FillDemo(g: Grid): Grid {
    FillLast(FillFirst(g))
  }

  lemma FillFirstKeeps(g: Grid)
    requires (1, 'A') in g && (2, 'F') in g && (2, 'A') in g
    ensures FillFirst(g)[(1, 'A')] == g[(1, 'A')] && FillFirst(g)[(2, 'F')] == g[(2, 'F')]
    ensures FillFirst(g)[(2, 'A')] == g[(2, 'A')]
  {
  }

  lemma FillDemoExpected(g: Grid)
    requires forall k :: k in g ==> g[k] == None
    ensures forall k :: k in FillDemo(g) ==> FillDemo(g)[k] == Expected(k)
  {
  }

  /** The first three allocations, in row 12. */
  lemma DemoFirstThree(f0: Flight)
    requires Valid(f0) && f0.aircraft.plan == SeatingPlan(1, 22, "ABCDEF")
    requires forall k :: k in f0.seating ==> f0.seating[k] == None
    ensures Valid(f0.(seating := FillFirst(f0.seating)))
    ensures AllocateAll(f0, DemoRequests) == AllocateAll(f0.(seating := FillFirst(f0.seating)), DemoRequests[3..])
  {
    DemoDesignators(f0.aircraft.plan);
    var r := DemoRequests;
    var f1 := f0.(seating := f0.seating[(12, 'A') := Some("Aryan Bhardwaj")]);
    var f2 := f1.(seating := f1.seating[(12, 'B') := Some("Gargie Bhardwaj")]);
    AllocateFirst(f0, r, (12, 'A'));
    AllocateFirst(f1, r[1..], (12, 'B'));
    AllocateFirst(f2, r[2..], (12, 'C'));
  }

  /** The last three allocations, in rows 1 and 2. */
  lemma DemoLastThree(f3: Flight)
    requires Valid(f3) && f3.aircraft.plan == SeatingPlan(1, 22, "ABCDEF")
    requires f3.seating[(1, 'A')] == None && f3.seating[(2, 'F')] == None && f3.seating[(2, 'A')] == None
    ensures AllocateAll(f3, DemoRequests[3..]) == Ok(f3.(seating := FillLast(f3.seating)))
  {
    DemoDesignators(f3.aircraft.plan);
    var r := DemoRequests[3..];
    var f4 := f3.(seating := f3.seating[(1, 'A') := Some("Ravi Datt Sharma")]);
    var f5 := f4.(seating := f4.seating[(2, 'F') := Some("J N Sharma")]);
    AllocateFirst(f3, r, (1, 'A'));
    AllocateFirst(f4, r[1..], (2, 'F'));
    AllocateFirst(f5, r[2..], (2, 'A'));
  }

  /** The six allocations on an empty grid of the demo plan all succeed. */
  lemma DemoAllocations(f0: Flight)
    requires Valid(f0) && f0.aircraft.plan == SeatingPlan(1, 22, "ABCDEF")
    requires forall k :: k in f0.seating ==> f0.seating[k] == None
    ensures AllocateAll(f0, DemoRequests) == Ok(f0.(seating := FillDemo(f0.seating)))
  {
    DemoFirstThree(f0);
    assert (1, 'A') in f0.seating && (2, 'F') in f0.seating && (2, 'A') in f0.seating by {
      assert HasSeat(f0.aircraft.plan, (1, 'A')) && HasSeat(f0.aircraft.plan, (2, 'F'));
      assert HasSeat(f0.aircraft.plan, (2, 'A'));
    }
    FillFirstKeeps(f0.seating);
    DemoLastThree(f0.(seating := FillFirst(f0.seating)));
  }

  /** All six allocations succeed and leave exactly the expected occupants. */
  lemma DemoSeating(a: Aircraft)
    requires a.plan == SeatingPlan(1, 22, "ABCDEF")
    ensures DemoFlight(a).Ok?
    ensures forall k :: k in DemoFlight(a).value.seating ==> DemoFlight(a).value.seating[k] == Expected(k)
  {
    assert "BA758"[2..] == "758";
    assert Value("758") == 758 by { assert "758"[..2] == "75" && "75"[..1] == "7"; }
    var f0 := NewFlight("BA758", a).value;
    DemoAllocations(f0);
    FillDemoExpected(f0.seating);
  }

  lemma DemoOrder(plan: SeatingPlan)
    requires plan.letters == "ABCDEF"
    ensures StrictlyOrdered(plan, [(1, 'A'), (2, 'A'), (2, 'F'), (12, 'A'), (12, 'B'), (12, 'C')])
  {
    assert IndexOf(plan.letters, 'A') == 0 && IndexOf(plan.letters, 'B') == 1;
    assert IndexOf(plan.letters, 'C') == 2 && IndexOf(plan.letters, 'F') == 5;
  }

  lemma ExpectedInPlan(plan: SeatingPlan, k: (int, char))
    requires plan == SeatingPlan(1, 22, "ABCDEF")
    requires k in [(1, 'A'), (2, 'A'), (2, 'F'), (12, 'A'), (12, 'B'), (12, 'C')]
    ensures HasSeat(plan, k) && Expected(k).Some?
  {
  }

  lemma ExpectedListed(k: (int, char))
    requires Expected(k).Some?
    ensures k in [(1, 'A'), (2, 'A'), (2, 'F'), (12, 'A'), (12, 'B'), (12, 'C')]
  {
  }

  /** The occupied seats of the demo flight, walked row by row. */
  lemma DemoOccupied(f: Flight)
    requires Valid(f) && f.aircraft.plan == SeatingPlan(1, 22, "ABCDEF")
    requires forall k :: k in f.seating ==> f.seating[k] == Expected(k)
    ensures OccupiedSeats(f) == [(1, 'A'), (2, 'A'), (2, 'F'), (12, 'A'), (12, 'B'), (12, 'C')]
  {
    var ls := [(1, 'A'), (2, 'A'), (2, 'F'), (12, 'A'), (12, 'B'), (12, 'C')];
    DemoOrder(f.aircraft.plan);
    forall k
      ensures k in ls <==> HasSeat(f.aircraft.plan, k) && f.seating[k].Some?
    {
      if k in ls {
        ExpectedInPlan(f.aircraft.plan, k);
      }
      if HasSeat(f.aircraft.plan, k) {
        assert k in f.seating;
        if f.seating[k].Some? {
          ExpectedListed(k);
        }
      }
    }
    OccupiedSeatsUnique(f, ls);
  }

  lemma DemoSeatNames()
    ensures SeatName((1, 'A')) == "1A" && SeatName((2, 'A')) == "2A" && SeatName((2, 'F')) == "2F"
    ensures SeatName((12, 'A')) == "12A" && SeatName((12, 'B')) == "12B" && SeatName((12, 'C')) == "12C"
  {
    assert FromInt(1) == "1" && FromInt(2) == "2";
    assert FromInt(12) == "12" by { assert FromNat(12) == FromNat(1) + [DigitChar(2)]; }
  }

  /** The pairs read off the demo grid at the demo seats. */
  lemma DemoPairs(g: Grid, ks: seq<(int, char)>, ps: seq<(string, string)>)
    requires ks == [(1, 'A'), (2, 'A'), (2, 'F'), (12, 'A'), (12, 'B'), (12, 'C')]
    requires forall k :: k in g ==> g[k] == Expected(k)
    requires forall i :: 0 <= i < |ks| ==> ks[i] in g
    requires |ps| == |ks|
    requires forall i :: 0 <= i < |ps| ==> g[ks[i]] == Some(ps[i].0) && ps[i].1 == SeatName(ks[i])
    ensures ps == [
      ("Ravi Datt Sharma", "1A"), ("Rekha Kumari", "2A"), ("J N Sharma", "2F"),
      ("Aryan Bhardwaj", "12A"), ("Gargie Bhardwaj", "12B"), ("Deep Mala", "12C")]
  {
    DemoSeatNames();
  }

  lemma DemoPassengerSeats(f: Flight)
    requires Valid(f) && f.aircraft.plan == SeatingPlan(1, 22, "ABCDEF")
    requires forall k :: k in f.seating ==> f.seating[k] == Expected(k)
    ensures PassengerSeats(f) == [
      ("Ravi Datt Sharma", "1A"), ("Rekha Kumari", "2A"), ("J N Sharma", "2F"),
      ("Aryan Bhardwaj", "12A"), ("Gargie Bhardwaj", "12B"), ("Deep Mala", "12C")]
  {
    DemoOccupied(f);
    var ks := OccupiedSeats(f);
    assert forall i :: 0 <= i < |ks| ==> ks[i] in f.seating by {
      forall i | 0 <= i < |ks|
        ensures ks[i] in f.seating
      {
        assert ks[i] in ks;
      }
    }
    DemoPairs(f.seating, ks, PassengerSeats(f));
  }

  /** The six passenger names in code-point order. */
  lemma DemoNamesOrdered()
    ensures Less("Aryan Bhardwaj", "Deep Mala") && Less("Deep Mala", "Gargie Bhardwaj")
    ensures Less("Gargie Bhardwaj", "J N Sharma") && Less("J N Sharma", "Ravi Datt Sharma")
    ensures Less("Ravi Datt Sharma", "Rekha Kumari")
  {
    assert Less("Ravi Datt Sharma", "Rekha Kumari") by {
      assert "Ravi Datt Sharma"[1..] == "avi Datt Sharma" && "Rekha Kumari"[1..] == "ekha Kumari";
    }
  }

  /** The demo's pairs in `(passenger, seat)` order. */
  lemma DemoSorted(t: seq<(string, string)>)
    requires t == [
      ("Aryan Bhardwaj", "12A"), ("Deep Mala", "12C"), ("Gargie Bhardwaj", "12B"),
      ("J N Sharma", "2F"), ("Ravi Datt Sharma", "1A"), ("Rekha Kumari", "2A")]
    ensures Sorted(t)
  {
    DemoNamesOrdered();
    assert forall i :: 0 <= i < |t| - 1 ==> PairLeq(t[i], t[i + 1]);
    SortedByNeighbours(t);
  }

  /** The sorted pairs are a rearrangement of the pairs in seat order. */
  lemma DemoPermuted(t: seq<(string, string)>)
    requires t == [
      ("Aryan Bhardwaj", "12A"), ("Deep Mala", "12C"), ("Gargie Bhardwaj", "12B"),
      ("J N Sharma", "2F"), ("Ravi Datt Sharma", "1A"), ("Rekha Kumari", "2A")]
    ensures multiset(t) == multiset([
      ("Ravi Datt Sharma", "1A"), ("Rekha Kumari", "2A"), ("J N Sharma", "2F"),
      ("Aryan Bhardwaj", "12A"), ("Gargie Bhardwaj", "12B"), ("Deep Mala", "12C")])
  {
  }

  lemma DemoCalls(calls: seq<CardCall>, t: seq<(string, string)>, code: string, model: string)
    requires t == [
      ("Aryan Bhardwaj", "12A"), ("Deep Mala", "12C"), ("Gargie Bhardwaj", "12B"),
      ("J N Sharma", "2F"), ("Ravi Datt Sharma", "1A"), ("Rekha Kumari", "2A")]
    requires code == "BA" && model == "Airbus A319"
    requires |calls| == |t|
    requires forall i :: 0 <= i < |t| ==> calls[i] == CardCall(t[i].0, t[i].1, code, model)
    ensures calls == [
      CardCall("Aryan Bhardwaj", "12A", "BA", "Airbus A319"),
      CardCall("Deep Mala", "12C", "BA", "Airbus A319"),
      CardCall("Gargie Bhardwaj", "12B", "BA", "Airbus A319"),
      CardCall("J N Sharma", "2F", "BA", "Airbus A319"),
      CardCall("Ravi Datt Sharma", "1A", "BA", "Airbus A319"),
      CardCall("Rekha Kumari", "2A", "BA", "Airbus A319")]
  {
  }

  lemma DemoCode(f: Flight)
    requires f.number == "BA758"
    ensures GetNumber(f) == "BA"
  {
  }

  /** The cards of any flight whose passengers, in seat order, are the demo's. */
  lemma DemoCardsOfSeats(f: Flight)
    requires Valid(f) && GetNumber(f) == "BA" && f.aircraft.model == "Airbus A319"
    requires PassengerSeats(f) == [
      ("Ravi Datt Sharma", "1A"), ("Rekha Kumari", "2A"), ("J N Sharma", "2F"),
      ("Aryan Bhardwaj", "12A"), ("Gargie Bhardwaj", "12B"), ("Deep Mala", "12C")]
    ensures MakeBoardingCards(f) == [
      CardCall("Aryan Bhardwaj", "12A", "BA", "Airbus A319"),
      CardCall("Deep Mala", "12C", "BA", "Airbus A319"),
      CardCall("Gargie Bhardwaj", "12B", "BA", "Airbus A319"),
      CardCall("J N Sharma", "2F", "BA", "Airbus A319"),
      CardCall("Ravi Datt Sharma", "1A", "BA", "Airbus A319"),
      CardCall("Rekha Kumari", "2A", "BA", "Airbus A319")]
  {
    var t := [
      ("Aryan Bhardwaj", "12A"), ("Deep Mala", "12C"), ("Gargie Bhardwaj", "12B"),
      ("J N Sharma", "2F"), ("Ravi Datt Sharma", "1A"), ("Rekha Kumari", "2A")];
    DemoSorted(t);
    DemoPermuted(t);
    BoardingCardsDetermined(f, t);
    DemoCalls(MakeBoardingCards(f), t, GetNumber(f), f.aircraft.model);
  }

  /** The cards of any flight numbered "BA758" whose grid holds the demo's passengers. */
  lemma DemoCardsOf(f: Flight)
    requires Valid(f) && f.aircraft.plan == SeatingPlan(1, 22, "ABCDEF")
    requires f.number == "BA758" && f.aircraft.model == "Airbus A319"
    requires forall k :: k in f.seating ==> f.seating[k] == Expected(k)
    ensures MakeBoardingCards(f) == [
      CardCall("Aryan Bhardwaj", "12A", "BA", "Airbus A319"),
      CardCall("Deep Mala", "12C", "BA", "Airbus A319"),
      CardCall("Gargie Bhardwaj", "12B", "BA", "Airbus A319"),
      CardCall("J N Sharma", "2F", "BA", "Airbus A319"),
      CardCall("Ravi Datt Sharma", "1A", "BA", "Airbus A319"),
      CardCall("Rekha Kumari", "2A", "BA", "Airbus A319")]
  {
    DemoCode(f);
    DemoPassengerSeats(f);
    DemoCardsOfSeats(f);
  }

  /**
   * The demonstration flight's boarding cards come out in passenger-name
   * order, each with the airline code "BA" and the aircraft's model.
   */
  lemma DemoBoardingCards(a: Aircraft)
    requires a == Generic("G-TURS", "Airbus A319", 22, 6)
    ensures DemoFlight(a).Ok?
    ensures MakeBoardingCards(DemoFlight(a).value) == [
      CardCall("Aryan Bhardwaj", "12A", "BA", "Airbus A319"),
      CardCall("Deep Mala", "12C", "BA", "Airbus A319"),
      CardCall("Gargie Bhardwaj", "12B", "BA", "Airbus A319"),
      CardCall("J N Sharma", "2F", "BA", "Airbus A319"),
      CardCall("Ravi Datt Sharma", "1A", "BA", "Airbus A319"),
      CardCall("Rekha Kumari", "2A", "BA", "Airbus A319")]
  {
    DemoPlan();
    DemoSeating(a);
    DemoCardsOf(DemoFlight(a).value);
  }
}
