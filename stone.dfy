/**
 * A stone of the Go board: immutable coordinates and colour, a mutable
 * reference to the group it belongs to, and the list of stones it captured.
 * A stone without coordinates is a pass.
 */
module Rubykon {
  import opened Wrappers

  /** Stone colours. Colours are Ruby symbols, so any other symbol is possible too. */
  datatype Color = Black | White | Empty | Other(name: string)

  /** The board's empty colour (`Board::EMPTY_COLOR`). */
  const EmptyColor: Color := Empty

  /** A connected group of stones; its contents are not part of this model. */
  class Group {
    constructor () {}
  }

  /** The colour of the opponent: black becomes white, everything else black. */
  function OtherColor(c: Color): (r: Color)
    ensures r == Black || r == White
    ensures r == White <==> c == Black
    ensures (c == Black || c == White) ==> r != c
  {
    if c == Black then White else Black
  }

  lemma OtherColorInvolution(c: Color)
    requires c == Black || c == White
    ensures OtherColor(OtherColor(c)) == c
  {
  }

  // ---------------------------------------------------------------------
  // Decimal rendering of integers, as Ruby's string interpolation does it.

  predicate IsDigit(ch: char) {
    '0' <= ch <= '9'
  }

  predicate AllDigits(s: string) {
    forall i :: 0 <= i < |s| ==> IsDigit(s[i])
  }

  function DigitChar(d: nat): (ch: char)
    requires d < 10
    ensures IsDigit(ch)
  {
    ['0', '1', '2', '3', '4', '5', '6', '7', '8', '9'][d]
  }

  function DigitValue(ch: char): nat
    requires IsDigit(ch)
  {
    ch as int - '0' as int
  }

  lemma DigitRoundTrip(d: nat)
    requires d < 10
    ensures DigitValue(DigitChar(d)) == d
  {
  }

  /** Decimal digits of n, most significant first, no leading zeros. */
  function NatToString(n: nat): (s: string)
    ensures s != [] && AllDigits(s)
  {
    if n < 10 then [DigitChar(n)] else NatToString(n / 10) + [DigitChar(n % 10)]
  }

  /** The value of a string of decimal digits. */
  function ParseDigits(s: string): nat
    requires AllDigits(s)
  {
    if s == [] then 0 else ParseDigits(s[..|s| - 1]) * 10 + DigitValue(s[|s| - 1])
  }

  lemma {:induction false} NatToStringRoundTrip(n: nat)
    ensures ParseDigits(NatToString(n)) == n
  {
    var s := NatToString(n);
    DigitRoundTrip(n % 10);
    if n < 10 {
      assert s[..0] == [];
    } else {
      NatToStringRoundTrip(n / 10);
      assert s[..|s| - 1] == NatToString(n / 10);
      assert ParseDigits(s) == (n / 10) * 10 + n % 10;
    }
  }

  /** Ruby's `to_s` of an optional integer: nil renders as the empty string. */
  function ShowCoordinate(c: Option<int>): (s: string)
    ensures c.Some? && c.value >= 0 ==> s != [] && AllDigits(s)
    ensures c.None? ==> s == []
  {
    match c
    case None => ""
    case Some(n) => if n < 0 then "-" + NatToString(-n) else NatToString(n)
  }

  /** The identifier "x-y" of a coordinate pair. */
  function CoordinateIdentifier(x: Option<int>, y: Option<int>): string {
    ShowCoordinate(x) + "-" + ShowCoordinate(y)
  }

  /** Index of the first '-' in s, or |s| if there is none. */
  function FirstDash(s: string): (k: nat)
    ensures k <= |s|
    ensures k < |s| ==> s[k] == '-'
    ensures forall i :: 0 <= i < k ==> s[i] != '-'
  {
    if s == [] then 0 else if s[0] == '-' then 0 else 1 + FirstDash(s[1..])
  }

  /**
   * Reads back the coordinates of an identifier whose coordinates are
   * non-negative: the digits before the first '-' and the digits after it.
   */
  function ParseIdentifier(id: string): Option<(nat, nat)> {
    var k := FirstDash(id);
    if k < |id| && AllDigits(id[..k]) && AllDigits(id[k + 1..]) then
      Some((ParseDigits(id[..k]), ParseDigits(id[k + 1..])))
    else
      None
  }

  lemma {:induction false} IdentifierRoundTrip(x: nat, y: nat)
    ensures ParseIdentifier(CoordinateIdentifier(Some(x), Some(y))) == Some((x, y))
  {
    var dx, dy := NatToString(x), NatToString(y);
    var id := dx + "-" + dy;
    assert id == CoordinateIdentifier(Some(x), Some(y));
    assert FirstDash(id) == |dx| by {
      FirstDashAfterDigits(dx, dy);
    }
    assert id[..|dx|] == dx;
    assert id[|dx| + 1..] == dy;
    NatToStringRoundTrip(x);
    NatToStringRoundTrip(y);
  }

  lemma {:induction false} FirstDashAfterDigits(d: string, rest: string)
    requires AllDigits(d)
    ensures FirstDash(d + "-" + rest) == |d|
  {
    if d != [] {
      assert (d + "-" + rest)[1..] == d[1..] + "-" + rest;
      FirstDashAfterDigits(d[1..], rest);
    }
  }

  /** The round trip of `IdentifierRoundTrip`, for optional coordinates. */
  lemma CoordinateRoundTrip(x: Option<int>, y: Option<int>)
    ensures x.Some? && x.value >= 0 && y.Some? && y.value >= 0 ==>
              ParseIdentifier(CoordinateIdentifier(x, y)) == Some((x.value, y.value))
  {
    if x.Some? && x.value >= 0 && y.Some? && y.value >= 0 {
      IdentifierRoundTrip(x.value, y.value);
    }
  }

  /** Two non-negative coordinate pairs share an identifier exactly when they are equal. */
  lemma IdentifierInjective(x1: nat, y1: nat, x2: nat, y2: nat)
    ensures CoordinateIdentifier(Some(x1), Some(y1)) == CoordinateIdentifier(Some(x2), Some(y2))
            <==> x1 == x2 && y1 == y2
  {
    if CoordinateIdentifier(Some(x1), Some(y1)) == CoordinateIdentifier(Some(x2), Some(y2)) {
      IdentifierRoundTrip(x1, y1);
      IdentifierRoundTrip(x2, y2);
    }
  }

  // ---------------------------------------------------------------------

  class Stone {
    const x: Option<int>
    const y: Option<int>
    const color: Color
    var group: Group?
    var captures: Option<seq<Stone>>

    constructor (x: Option<int>, y: Option<int>, color: Color)
      ensures this.x == x && this.y == y && this.color == color
      ensures group == null && captures == None
    {
      this.x := x;
      this.y := y;
      this.color := color;
      group := null;
      captures := None;
    }

    /** Leaves the current group. */
    method Remove()
      modifies this`group
      ensures group == null
    {
      group := null;
    }

    /** Becomes a member of g. */
    method Join(g: Group?)
      modifies this`group
      ensures group == g
    {
      group := g;
    }

    function EnemyColor(): (r: Color)
      ensures r == OtherColor(color)
      ensures (color == Black || color == White) ==> r != color
    {
      OtherColor(color)
    }

    /** Appends the given stones to the list of captured stones, creating it if unset. */
    method Capture(stones: seq<Stone>) returns (r: seq<Stone>)
      modifies this`captures
      ensures r == (if old(captures).Some? then old(captures).value else []) + stones
      ensures captures == Some(r)
    {
      var earlier := if captures.Some? then captures.value else [];
      r := earlier + stones;
      captures := Some(r);
    }

    /** `empty?`: an empty-coloured stone is neither black nor white, and its enemy is black. */
    predicate IsEmpty()
      ensures IsEmpty() ==> color != Black && color != White && EnemyColor() == Black
    {
      color == EmptyColor
    }

    /**
     * `pass?`: a stone missing a coordinate. Its identifier then begins or
     * ends with the dash, which a stone with non-negative coordinates never does.
     */
    predicate IsPass()
      ensures x.None? ==> IsPass() && Identifier()[0] == '-'
      ensures y.None? ==> IsPass() && Identifier()[|Identifier()| - 1] == '-'
      ensures !IsPass() && x.value >= 0 && y.value >= 0 ==>
                Identifier()[0] != '-' && Identifier()[|Identifier()| - 1] != '-'
    {
      x.None? || y.None?
    }

    /** Structural equality: colour and coordinates, ignoring group and captures. */
    predicate Equals(other: Stone)
      ensures Equals(other) ==> Identifier() == other.Identifier() && EnemyColor() == other.EnemyColor()
      ensures (color, x, y) != (other.color, other.x, other.y) ==> !Equals(other)
    {
      color == other.color && x == other.x && y == other.y
    }

    function Identifier(): (id: string)
      ensures x.Some? && x.value >= 0 && y.Some? && y.value >= 0 ==>
                ParseIdentifier(id) == Some((x.value, y.value))
    {
      CoordinateRoundTrip(x, y);
      CoordinateIdentifier(x, y)
    }
  }

  lemma EqualsIsEquivalence(a: Stone, b: Stone, c: Stone)
    ensures a.Equals(a)
    ensures a.Equals(b) ==> b.Equals(a)
    ensures a.Equals(b) && b.Equals(c) ==> a.Equals(c)
  {
  }

  /**
   * Everything a stone answers about itself apart from its group and captures
   * is determined by colour and coordinates, so equal stones agree on it.
   */
  lemma EqualsRespectsQueries(a: Stone, b: Stone)
    requires a.Equals(b)
    ensures a.IsPass() == b.IsPass() && a.IsEmpty() == b.IsEmpty()
    ensures a.EnemyColor() == b.EnemyColor() && a.Identifier() == b.Identifier()
  {
  }

  /** For non-negative coordinates, stones share an identifier exactly when their coordinates match. */
  lemma IdentifierMatchesCoordinates(a: Stone, b: Stone)
    requires a.x.Some? && a.x.value >= 0 && a.y.Some? && a.y.value >= 0
    requires b.x.Some? && b.x.value >= 0 && b.y.Some? && b.y.value >= 0
    ensures a.Identifier() == b.Identifier() <==> a.x == b.x && a.y == b.y
  {
    IdentifierInjective(a.x.value, a.y.value, b.x.value, b.y.value);
  }
}
