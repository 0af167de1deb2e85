/**
 * Aircraft types and their seating plans. The source's three duck-typed
 * aircraft classes become three constructor functions of one record.
 */
module Aircraft {

  /**
   * A seating plan: the rows `rowLo .. rowHi - 1` (Python's `range(rowLo, rowHi)`)
   * and the seat letters of every row, in cabin order.
   */
  datatype SeatingPlan = SeatingPlan(rowLo: int, rowHi: int, letters: seq<char>)

  /** An aircraft: its registration, its model name and its seating plan. */
  datatype Aircraft = Aircraft(registration: string, model: string, plan: SeatingPlan)

  /** The seat letters the generic aircraft draws its plan from; there is no 'H'. */
  const GenericLetters: string := "ABCDEFGJK"

  /** The seat `(row, letter)` is part of the plan. */
  predicate HasSeat(plan: SeatingPlan, k: (int, char)) {
    plan.rowLo <= k.0 < plan.rowHi && k.1 in plan.letters
  }

  /** Every seat of the plan, as a set of `(row, letter)` keys. */
  function Seats(plan: SeatingPlan): (s: set<(int, char)>)
    ensures forall k :: k in s <==> HasSeat(plan, k)
  {
    set r, l | plan.rowLo <= r < plan.rowHi && l in plan.letters :: (r, l)
  }

  predicate DistinctLetters(letters: seq<char>) {
    forall i, j :: 0 <= i < j < |letters| ==> letters[i] != letters[j]
  }

  /**
   * The shape every plan of the three aircraft kinds has: rows start at 1
   * (so the source's per-row list, whose index 0 is a placeholder, is indexed
   * by the row number itself) and no letter repeats.
   */
  predicate WellFormed(plan: SeatingPlan) {
    plan.rowLo == 1 && DistinctLetters(plan.letters)
  }

  /** Python's slice `s[:n]`, where a negative `n` counts from the end. */
  function SlicePrefix(s: string, n: int): (r: string)
    ensures r <= s
    ensures n >= 0 ==> |r| == if n < |s| then n else |s|
    ensures n < 0 ==> |r| == if -n < |s| then |s| + n else 0
  {
    if n >= 0 then (if n < |s| then s[..n] else s)
    else (if -n < |s| then s[..|s| + n] else [])
  }

  function Airbus319(registration: string): (a: Aircraft)
    ensures a.registration == registration
    ensures WellFormed(a.plan)
    ensures HasSeat(a.plan, (22, 'F')) && !HasSeat(a.plan, (23, 'A')) && !HasSeat(a.plan, (1, 'G'))
  {
    Aircraft(registration, "Air Bus A319", SeatingPlan(1, 23, "ABCDEF"))
  }

  function Boeing777(registration: string): (a: Aircraft)
    ensures a.registration == registration
    ensures WellFormed(a.plan)
    ensures HasSeat(a.plan, (55, 'K')) && HasSeat(a.plan, (1, 'H')) && !HasSeat(a.plan, (56, 'A'))
  {
    Aircraft(registration, "Boeing 777", SeatingPlan(1, 56, "ABCDEFGHJK"))
  }

  /**
   * The generic aircraft with `rows` and `seatsPerRow`. Its plan holds the rows
   * `1 .. rows - 1` only, and its letters are a prefix of "ABCDEFGJK".
   */
  function Generic(registration: string, model: string, rows: int, seatsPerRow: int): (a: Aircraft)
    ensures a.registration == registration && a.model == model
    ensures WellFormed(a.plan)
    ensures forall k :: HasSeat(a.plan, k) <==> 1 <= k.0 <= rows - 1 && k.1 in a.plan.letters
    ensures a.plan.letters <= GenericLetters && 'H' !in a.plan.letters
    ensures 0 <= seatsPerRow <= 9 ==> |a.plan.letters| == seatsPerRow
  {
    Aircraft(registration, model, SeatingPlan(1, rows, SlicePrefix(GenericLetters, seatsPerRow)))
  }
}
