/**
 * The read-only views of a flight: the row-major enumeration of occupied
 * seats and the sorted sequence of boarding-card printer calls.
 */
module Boarding {
  import opened Wrappers
  import opened Aircraft
  import opened Flights
  import opened Lex

  /** Position of the first occurrence of `c` in `s`. */
  function IndexOf(s: seq<char>, c: char): (i: nat)
    requires c in s
    ensures i < |s| && s[i] == c
    ensures forall j :: 0 <= j < i ==> s[j] != c
  {
    if s[0] == c then 0 else 1 + IndexOf(s[1..], c)
  }

  lemma IndexOfDistinct(s: seq<char>, j: int)
    requires DistinctLetters(s) && 0 <= j < |s|
    ensures IndexOf(s, s[j]) == j
  {
  }

  /** Row-major order of seats: by row, then by the letter's place in the plan. */
  predicate SeatBefore(plan: SeatingPlan, a: (int, char), b: (int, char)) {
    && a.1 in plan.letters && b.1 in plan.letters
    && (a.0 < b.0 || (a.0 == b.0 && IndexOf(plan.letters, a.1) < IndexOf(plan.letters, b.1)))
  }

  /** Every seat of `ks` comes before every later one, in row-major order. */
  predicate StrictlyOrdered(plan: SeatingPlan, ks: seq<(int, char)>) {
    forall a, b :: 0 <= a < b < |ks| ==> SeatBefore(plan, ks[a], ks[b])
  }

  /** Two row-major ordered sequences holding the same seats are equal. */
  lemma {:induction false} OrderedUnique(plan: SeatingPlan, ks: seq<(int, char)>, ls: seq<(int, char)>)
    requires StrictlyOrdered(plan, ks) && StrictlyOrdered(plan, ls)
    requires forall k :: k in ks <==> k in ls
    ensures ks == ls
    decreases |ks|
  {
    assert |ls| > 0 ==> ls[0] in ls;
    if |ks| > 0 {
      assert ks[0] in ls && ls[0] in ks;
      var j :| 0 <= j < |ls| && ls[j] == ks[0];
      var i :| 0 <= i < |ks| && ks[i] == ls[0];
      assert ks[0] == ls[0];
      forall k
        ensures k in ks[1..] <==> k in ls[1..]
      {
        assert ks == [ks[0]] + ks[1..] && ls == [ls[0]] + ls[1..];
        if k in ks[1..] {
          var a :| 0 <= a < |ks[1..]| && ks[1..][a] == k;
          assert SeatBefore(plan, ks[0], ks[a + 1]);
          assert k != ls[0] && k in ls;
        }
        if k in ls[1..] {
          var b :| 0 <= b < |ls[1..]| && ls[1..][b] == k;
          assert SeatBefore(plan, ls[0], ls[b + 1]);
          assert k != ks[0] && k in ks;
        }
      }
      OrderedUnique(plan, ks[1..], ls[1..]);
      assert ks == [ks[0]] + ks[1..] && ls == [ls[0]] + ls[1..];
    }
  }

  /** The grid has an entry for every seat of the plan. */
  ghost predicate Covers(plan: SeatingPlan, grid: Grid) {
    forall k :: HasSeat(plan, k) ==> k in grid
  }

  /** A seat comes before every seat of its row whose letter is later in the plan. */
  lemma HeadBeforeRow(plan: SeatingPlan, row: int, i: nat, rest: seq<(int, char)>)
    requires DistinctLetters(plan.letters) && i < |plan.letters|
    requires forall b :: 0 <= b < |rest| ==> rest[b].0 == row && rest[b].1 in plan.letters[i + 1..]
    ensures forall b :: 0 <= b < |rest| ==> SeatBefore(plan, (row, plan.letters[i]), rest[b])
  {
    forall b | 0 <= b < |rest|
      ensures SeatBefore(plan, (row, plan.letters[i]), rest[b])
    {
      var j :| i + 1 <= j < |plan.letters| && plan.letters[j] == rest[b].1;
      IndexOfDistinct(plan.letters, i);
      IndexOfDistinct(plan.letters, j);
    }
  }

  /** The occupied seats of `row` whose letters are `letters[i..]`, in letter order. */
  function RowKeys(plan: SeatingPlan, grid: Grid, row: int, i: nat): seq<(int, char)>
    requires Covers(plan, grid)
    requires plan.rowLo <= row < plan.rowHi && i <= |plan.letters|
    decreases |plan.letters| - i
  {
    if i == |plan.letters| then []
    else
      var k := (row, plan.letters[i]);
      assert HasSeat(plan, k);
      if grid[k].Some? then [k] + RowKeys(plan, grid, row, i + 1)
      else RowKeys(plan, grid, row, i + 1)
  }

  /** The row walk lists exactly the occupied seats of the row among `letters[i..]`. */
  lemma {:induction false} RowKeysMembers(plan: SeatingPlan, grid: Grid, row: int, i: nat)
    requires Covers(plan, grid)
    requires plan.rowLo <= row < plan.rowHi && i <= |plan.letters|
    ensures forall k :: k in RowKeys(plan, grid, row, i) <==>
      HasSeat(plan, k) && k.0 == row && k.1 in plan.letters[i..] && grid[k].Some?
    decreases |plan.letters| - i
  {
    if i < |plan.letters| {
      RowKeysMembers(plan, grid, row, i + 1);
      assert plan.letters[i..] == [plan.letters[i]] + plan.letters[i + 1..];
    }
  }

  /** A seat before every seat of an ordered sequence can head it. */
  lemma ConsOrdered(plan: SeatingPlan, k: (int, char), rest: seq<(int, char)>)
    requires StrictlyOrdered(plan, rest)
    requires forall b :: 0 <= b < |rest| ==> SeatBefore(plan, k, rest[b])
    ensures StrictlyOrdered(plan, [k] + rest)
  {
    var ks := [k] + rest;
    forall a, b | 0 <= a < b < |ks|
      ensures SeatBefore(plan, ks[a], ks[b])
    {
      if a > 0 {
        assert ks[a] == rest[a - 1] && ks[b] == rest[b - 1];
      }
    }
  }

  /** Every seat the row walk lists is in the row, with a letter from `letters[i..]`. */
  lemma RowKeysInRow(plan: SeatingPlan, grid: Grid, row: int, i: nat)
    requires Covers(plan, grid)
    requires plan.rowLo <= row < plan.rowHi && i <= |plan.letters|
    ensures forall b :: 0 <= b < |RowKeys(plan, grid, row, i)| ==>
      RowKeys(plan, grid, row, i)[b].0 == row && RowKeys(plan, grid, row, i)[b].1 in plan.letters[i..]
  {
    var ks := RowKeys(plan, grid, row, i);
    RowKeysMembers(plan, grid, row, i);
    forall b | 0 <= b < |ks|
      ensures ks[b].0 == row && ks[b].1 in plan.letters[i..]
    {
      assert ks[b] in ks;
    }
  }

  /** With distinct letters, the row walk lists its seats in letter order. */
  lemma {:induction false} RowKeysOrdered(plan: SeatingPlan, grid: Grid, row: int, i: nat)
    requires Covers(plan, grid) && DistinctLetters(plan.letters)
    requires plan.rowLo <= row < plan.rowHi && i <= |plan.letters|
    ensures StrictlyOrdered(plan, RowKeys(plan, grid, row, i))
    decreases |plan.letters| - i
  {
    if i < |plan.letters| {
      var k := (row, plan.letters[i]);
      var rest := RowKeys(plan, grid, row, i + 1);
      RowKeysOrdered(plan, grid, row, i + 1);
      assert HasSeat(plan, k);
      if grid[k].Some? {
        RowKeysInRow(plan, grid, row, i + 1);
        HeadBeforeRow(plan, row, i, rest);
        ConsOrdered(plan, k, rest);
      }
    }
  }

  /** The occupied seats of rows `row ..`, in row-major order. */
  function AllKeys(plan: SeatingPlan, grid: Grid, row: int): seq<(int, char)>
    requires Covers(plan, grid)
    requires plan.rowLo <= row
    decreases plan.rowHi - row
  {
    if row >= plan.rowHi then []
    else RowKeys(plan, grid, row, 0) + AllKeys(plan, grid, row + 1)
  }

  /** The grid walk from `row` lists exactly the occupied seats of rows `row ..`. */
  lemma {:induction false} AllKeysMembers(plan: SeatingPlan, grid: Grid, row: int)
    requires Covers(plan, grid)
    requires plan.rowLo <= row
    ensures forall k :: k in AllKeys(plan, grid, row) <==> HasSeat(plan, k) && row <= k.0 && grid[k].Some?
    decreases plan.rowHi - row
  {
    if row < plan.rowHi {
      RowKeysMembers(plan, grid, row, 0);
      AllKeysMembers(plan, grid, row + 1);
      assert plan.letters[0..] == plan.letters;
    }
  }

  /** With distinct letters, the grid walk lists its seats in row-major order. */
  lemma {:induction false} AllKeysOrdered(plan: SeatingPlan, grid: Grid, row: int)
    requires Covers(plan, grid) && DistinctLetters(plan.letters)
    requires plan.rowLo <= row
    ensures StrictlyOrdered(plan, AllKeys(plan, grid, row))
    decreases plan.rowHi - row
  {
    if row < plan.rowHi {
      var first := RowKeys(plan, grid, row, 0);
      var rest := AllKeys(plan, grid, row + 1);
      RowKeysMembers(plan, grid, row, 0);
      RowKeysOrdered(plan, grid, row, 0);
      AllKeysMembers(plan, grid, row + 1);
      AllKeysOrdered(plan, grid, row + 1);
      var ks := first + rest;
      forall a, b | 0 <= a < b < |ks|
        ensures SeatBefore(plan, ks[a], ks[b])
      {
        if b < |first| {
          assert ks[a] == first[a] && ks[b] == first[b];
        } else if a >= |first| {
          assert ks[a] == rest[a - |first|] && ks[b] == rest[b - |first|];
        } else {
          assert ks[a] == first[a] && ks[b] == rest[b - |first|];
          assert first[a] in first && rest[b - |first|] in rest;
        }
      }
    }
  }

  /** `_passenger_seats`' walk over the grid: the occupied seats, row-major. */
  function OccupiedSeats(f: Flight): (ks: seq<(int, char)>)
    requires Valid(f)
    ensures forall k :: k in ks <==> HasSeat(f.aircraft.plan, k) && f.seating[k].Some?
    ensures DistinctLetters(f.aircraft.plan.letters) ==> StrictlyOrdered(f.aircraft.plan, ks)
    ensures DistinctLetters(f.aircraft.plan.letters) ==> forall a, b :: 0 <= a < b < |ks| ==> ks[a] != ks[b]
  {
    var plan := f.aircraft.plan;
    AllKeysMembers(plan, f.seating, plan.rowLo);
    assert DistinctLetters(plan.letters) ==> StrictlyOrdered(plan, AllKeys(plan, f.seating, plan.rowLo)) by {
      if DistinctLetters(plan.letters) {
        AllKeysOrdered(plan, f.seating, plan.rowLo);
      }
    }
    AllKeys(plan, f.seating, plan.rowLo)
  }

  /**
   * The enumeration is the only row-major ordered sequence of exactly the
   * occupied seats.
   */
  lemma OccupiedSeatsUnique(f: Flight, ls: seq<(int, char)>)
    requires Valid(f) && DistinctLetters(f.aircraft.plan.letters)
    requires StrictlyOrdered(f.aircraft.plan, ls)
    requires forall k :: k in ls <==> HasSeat(f.aircraft.plan, k) && f.seating[k].Some?
    ensures OccupiedSeats(f) == ls
  {
    OrderedUnique(f.aircraft.plan, OccupiedSeats(f), ls);
  }

  /** `_passenger_seats`: one `(passenger, designator)` pair per occupied seat, row-major. */
  function PassengerSeats(f: Flight): (ps: seq<(string, string)>)
    requires Valid(f)
    ensures |ps| == |OccupiedSeats(f)|
    ensures forall i :: 0 <= i < |ps| ==>
      && f.seating[OccupiedSeats(f)[i]] == Some(ps[i].0)
      && ps[i].1 == SeatName(OccupiedSeats(f)[i])
  {
    var ks := OccupiedSeats(f);
    seq(|ks|, i requires 0 <= i < |ks| => (f.seating[ks[i]].value, SeatName(ks[i])))
  }

  /** The pairs read off `grid` at the seats `ks` are those of the occupants of `ks`. */
  lemma PairsAtSeats(grid: Grid, ks: seq<(int, char)>, ps: seq<(string, string)>,
                      name: ((int, char)) -> string, p: string, s: string)
    requires forall i :: 0 <= i < |ks| ==> ks[i] in grid
    requires |ps| == |ks|
    requires forall i :: 0 <= i < |ps| ==> grid[ks[i]] == Some(ps[i].0) && ps[i].1 == name(ks[i])
    ensures (p, s) in ps <==> exists k :: k in ks && grid[k] == Some(p) && name(k) == s
  {
    if (p, s) in ps {
      var i :| 0 <= i < |ps| && ps[i] == (p, s);
      assert ks[i] in ks;
    }
    if exists k :: k in ks && grid[k] == Some(p) && name(k) == s {
      var k :| k in ks && grid[k] == Some(p) && name(k) == s;
      var i :| 0 <= i < |ks| && ks[i] == k;
      assert ps[i] == (p, s);
    }
  }

  /** A pair is enumerated exactly when its passenger occupies the seat it names. */
  lemma PassengerSeatsExact(f: Flight, p: string, s: string)
    requires Valid(f)
    ensures (p, s) in PassengerSeats(f) <==>
      exists k :: HasSeat(f.aircraft.plan, k) && f.seating[k] == Some(p) && SeatName(k) == s
  {
    var ks := OccupiedSeats(f);
    assert forall i :: 0 <= i < |ks| ==> ks[i] in f.seating by {
      forall i | 0 <= i < |ks|
        ensures ks[i] in f.seating
      {
        assert ks[i] in ks;
      }
    }
    PairsAtSeats(f.seating, ks, PassengerSeats(f), SeatName, p, s);
  }

  /** No seat is enumerated twice. */
  lemma PassengerSeatsOnce(f: Flight)
    requires Valid(f) && DistinctLetters(f.aircraft.plan.letters)
    ensures SecondsDistinct(PassengerSeats(f))
  {
    var ps := PassengerSeats(f);
    var ks := OccupiedSeats(f);
    forall i, j | 0 <= i < j < |ps|
      ensures ps[i].1 != ps[j].1
    {
      if ps[i].1 == ps[j].1 {
        SeatNameInjective(ks[i], ks[j]);
      }
    }
  }

  /** No two pairs of `s` share their second component. */
  predicate SecondsDistinct(s: seq<(string, string)>) {
    forall i, j :: 0 <= i < j < |s| ==> s[i].1 != s[j].1
  }

  lemma CountTwice(t: seq<(string, string)>, i: int, j: int)
    requires 0 <= i < j < |t| && t[i] == t[j]
    ensures multiset(t)[t[i]] >= 2
  {
    assert t == t[..j] + [t[j]] + t[j + 1..];
    assert t[..j][i] == t[i];
    assert t[i] in multiset(t[..j]);
  }

  lemma CountOnce(s: seq<(string, string)>, a: int)
    requires SecondsDistinct(s) && 0 <= a < |s|
    ensures multiset(s)[s[a]] == 1
  {
    assert s == s[..a] + [s[a]] + s[a + 1..];
    assert s[a] !in s[..a];
    assert s[a] !in s[a + 1..];
  }

  /** Reordering a sequence keeps its second components distinct. */
  lemma PermutationKeepsSecondsDistinct(s: seq<(string, string)>, t: seq<(string, string)>)
    requires multiset(s) == multiset(t) && SecondsDistinct(s)
    ensures SecondsDistinct(t)
  {
    forall i, j | 0 <= i < j < |t|
      ensures t[i].1 != t[j].1
    {
      assert t[i] in multiset(s) && t[j] in multiset(s);
      var a :| 0 <= a < |s| && s[a] == t[i];
      var b :| 0 <= b < |s| && s[b] == t[j];
      if t[i].1 == t[j].1 && a == b {
        CountTwice(t, i, j);
        CountOnce(s, a);
      }
    }
  }

  /** The arguments of one call of the card printer. */
  datatype CardCall = CardCall(passenger: string, seat: string, flightNumber: string, model: string)

  function CallPairs(calls: seq<CardCall>): (ps: seq<(string, string)>)
    ensures |ps| == |calls|
    ensures forall i :: 0 <= i < |calls| ==> ps[i] == (calls[i].passenger, calls[i].seat)
  {
    seq(|calls|, i requires 0 <= i < |calls| => (calls[i].passenger, calls[i].seat))
  }

  /**
   * `make_boarding_cards`: the printer calls, one per enumerated pair, in
   * ascending `(passenger, seat)` order, each with the airline code and the model.
   */
  function MakeBoardingCards(f: Flight): (calls: seq<CardCall>)
    requires Valid(f)
    ensures forall i :: 0 <= i < |calls| ==>
      calls[i].flightNumber == GetNumber(f) && calls[i].model == f.aircraft.model
    ensures Sorted(CallPairs(calls))
    ensures multiset(CallPairs(calls)) == multiset(PassengerSeats(f))
  {
    var sorted := Sort(PassengerSeats(f));
    var calls := seq(|sorted|, i requires 0 <= i < |sorted| =>
      CardCall(sorted[i].0, sorted[i].1, GetNumber(f), GetModel(f)));
    assert CallPairs(calls) == sorted;
    calls
  }

  /**
   * The calls are fixed by the enumeration alone: any sorted reordering of
   * the enumerated pairs, each with the airline code and the model, is them.
   */
  lemma BoardingCardsDetermined(f: Flight, t: seq<(string, string)>)
    requires Valid(f)
    requires Sorted(t) && multiset(t) == multiset(PassengerSeats(f))
    ensures |MakeBoardingCards(f)| == |t|
    ensures forall i :: 0 <= i < |t| ==>
      MakeBoardingCards(f)[i] == CardCall(t[i].0, t[i].1, GetNumber(f), f.aircraft.model)
  {
    var calls := MakeBoardingCards(f);
    SortedUnique(CallPairs(calls), t);
  }

  /**
   * The printer is called for a `(passenger, seat)` exactly when that passenger
   * occupies the seat so named, and never twice for one seat.
   */
  lemma BoardingCardsExact(f: Flight, p: string, s: string)
    requires Valid(f)
    ensures (exists i :: 0 <= i < |MakeBoardingCards(f)| &&
               MakeBoardingCards(f)[i].passenger == p && MakeBoardingCards(f)[i].seat == s)
            <==>
            (exists k :: HasSeat(f.aircraft.plan, k) && f.seating[k] == Some(p) && SeatName(k) == s)
  {
    var calls := MakeBoardingCards(f);
    var cp := CallPairs(calls);
    PassengerSeatsExact(f, p, s);
    assert (p, s) in cp <==> (p, s) in multiset(PassengerSeats(f));
    if (p, s) in cp {
      var i :| 0 <= i < |cp| && cp[i] == (p, s);
      assert calls[i].passenger == p && calls[i].seat == s;
    }
  }

  lemma BoardingCardsOnce(f: Flight)
    requires Valid(f) && DistinctLetters(f.aircraft.plan.letters)
    ensures forall i, j :: 0 <= i < j < |MakeBoardingCards(f)| ==>
      MakeBoardingCards(f)[i].seat != MakeBoardingCards(f)[j].seat
  {
    PassengerSeatsOnce(f);
    PermutationKeepsSecondsDistinct(PassengerSeats(f), CallPairs(MakeBoardingCards(f)));
  }
}
