/**
 * The text of one boarding card as the console printer frames it: the
 * content line between two blank border lines and two banners, each as
 * wide as the content line, joined by newlines.
 */
module Cards {

  /** `c * n` for a one-character string `c`. */
  function Repeat(c: char, n: nat): (s: string)
    ensures |s| == n
    ensures forall i :: 0 <= i < n ==> s[i] == c
  {
    if n == 0 then [] else [c] + Repeat(c, n - 1)
  }

  /** `'\n'.join(lines)`. */
  function Join(lines: seq<string>): string {
    if |lines| == 0 then ""
    else if |lines| == 1 then lines[0]
    else lines[0] + "\n" + Join(lines[1..])
  }

  /** `s.split('\n')`: the pieces between newlines, always at least one. */
  function Lines(s: string): (ls: seq<string>)
    ensures |ls| >= 1
  {
    if |s| == 0 then [""]
    else
      var rest := Lines(s[1..]);
      if s[0] == '\n' then [""] + rest else [[s[0]] + rest[0]] + rest[1..]
  }

  lemma {:induction false} LinesSingle(a: string)
    requires '\n' !in a
    ensures Lines(a) == [a]
  {
    if |a| > 0 {
      assert '\n' !in a[1..];
      LinesSingle(a[1..]);
      assert a == [a[0]] + a[1..];
    }
  }

  lemma {:induction false} LinesAppend(a: string, b: string)
    requires '\n' !in a
    ensures Lines(a + "\n" + b) == [a] + Lines(b)
  {
    if |a| == 0 {
      assert a + "\n" + b == "\n" + b;
      assert ("\n" + b)[1..] == b;
    } else {
      assert (a + "\n" + b)[1..] == a[1..] + "\n" + b;
      assert '\n' !in a[1..];
      LinesAppend(a[1..], b);
      assert a == [a[0]] + a[1..];
    }
  }

  /** Splitting joined lines that hold no newline gives the lines back. */
  lemma {:induction false} LinesJoin(lines: seq<string>)
    requires |lines| >= 1
    requires forall i :: 0 <= i < |lines| ==> '\n' !in lines[i]
    ensures Lines(Join(lines)) == lines
    decreases |lines|
  {
    if |lines| == 1 {
      LinesSingle(lines[0]);
    } else {
      LinesAppend(lines[0], Join(lines[1..]));
      LinesJoin(lines[1..]);
      assert lines == [lines[0]] + lines[1..];
    }
  }

  /** The content line: all four fields between two bars. */
  function ContentLine(passenger: string, seat: string, flightNumber: string, aircraft: string): string {
    "|Name:" + passenger + "  Flight: " + flightNumber + " Seat: " + seat + " Aircraft: " + aircraft + " |"
  }

  /**
   * `console_card_printer`'s card, without the printing: when no field holds
   * a newline it is five lines, the content line in the middle, framed by
   * two equal borders and two equal banners as wide as the content line.
   */
  function CardText(passenger: string, seat: string, flightNumber: string, aircraft: string): (card: string)
    ensures '\n' !in passenger && '\n' !in seat && '\n' !in flightNumber && '\n' !in aircraft ==>
      var ls := Lines(card);
      && |ls| == 5
      && ls[2] == ContentLine(passenger, seat, flightNumber, aircraft)
      && ls[0] == ls[4] && ls[1] == ls[3]
      && |ls[0]| == |ls[2]| && |ls[1]| == |ls[2]|
  {
    var output := ContentLine(passenger, seat, flightNumber, aircraft);
    var banner := "+" + Repeat('-', |output| - 2) + "+";
    var border := "|" + Repeat(' ', |output| - 2) + "|";
    var lines := [banner, border, output, border, banner];
    assert '\n' !in passenger && '\n' !in seat && '\n' !in flightNumber && '\n' !in aircraft ==>
      Lines(Join(lines)) == lines by {
      if '\n' !in passenger && '\n' !in seat && '\n' !in flightNumber && '\n' !in aircraft {
        assert '\n' !in output;
        assert '\n' !in banner && '\n' !in border;
        LinesJoin(lines);
      }
    }
    Join(lines)
  }

  /**
   * When no field holds a newline, the card is five lines: banner, border,
   * content, border, banner, the frame lines exactly as wide as the content,
   * the banners dashes between '+' corners and the borders blanks between bars.
   */
  lemma CardShape(passenger: string, seat: string, flightNumber: string, aircraft: string)
    requires '\n' !in passenger && '\n' !in seat && '\n' !in flightNumber && '\n' !in aircraft
    ensures var ls := Lines(CardText(passenger, seat, flightNumber, aircraft));
      && |ls| == 5
      && ls[2] == ContentLine(passenger, seat, flightNumber, aircraft)
      && ls[0] == ls[4] && ls[1] == ls[3]
      && |ls[0]| == |ls[2]| && |ls[1]| == |ls[2]|
      && ls[0][0] == '+' && ls[0][|ls[0]| - 1] == '+'
      && (forall i :: 0 < i < |ls[0]| - 1 ==> ls[0][i] == '-')
      && ls[1][0] == '|' && ls[1][|ls[1]| - 1] == '|'
      && (forall i :: 0 < i < |ls[1]| - 1 ==> ls[1][i] == ' ')
  {
    var output := ContentLine(passenger, seat, flightNumber, aircraft);
    var banner := "+" + Repeat('-', |output| - 2) + "+";
    var border := "|" + Repeat(' ', |output| - 2) + "|";
    var lines := [banner, border, output, border, banner];
    assert '\n' !in output;
    assert '\n' !in banner && '\n' !in border;
    LinesJoin(lines);
  }
}
