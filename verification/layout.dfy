/**
 The keyboard geometry of `thumb_key_loss`: a 3x3 grid of keys numbered 1 to 9
 row by row from the top left, the symbol table read from the layout rows, and
 the little vector algebra the loss is computed with. A symbol sits on a
 primary key and is reached from it by swiping towards a secondary key; a
 secondary key of 5 (the centre) means a plain tap.
 */
module Layout {

  /** A grid coordinate; x grows to the right, y grows upwards, (0, 0) is key 5. */
  datatype Point = Point(x: int, y: int)

  /** (primary key, secondary key) of one symbol. */
  datatype Position = Position(primary: int, secondary: int)

  /** One row of the layout file. */
  datatype Row = Row(symbol: string, position: Position)

  /** `coord`: the grid coordinate of key `pos`. Python's `%` and `//` round
      towards minus infinity; with the divisor 3 they agree with Dafny's. */
  function Coord(pos: int): (c: Point)
    ensures -1 <= c.x <= 1
    ensures 1 <= pos <= 9 <==> -1 <= c.y <= 1
    ensures pos == 3 * (1 - c.y) + c.x + 2
  {
    var p := pos - 1;
    Point(p % 3 - 1, 1 - p / 3)
  }

  /** The key a grid coordinate belongs to. */
  function Index(c: Point): int
  {
    3 * (1 - c.y) + c.x + 2
  }

  /** Every coordinate with x in {-1, 0, 1} is the coordinate of exactly one key. */
  lemma CoordOfIndex(c: Point)
    requires -1 <= c.x <= 1
    ensures Coord(Index(c)) == c
  {
    var p := Index(c) - 1;
    assert p == 3 * (1 - c.y) + (c.x + 1);
    assert p % 3 == c.x + 1 && p / 3 == 1 - c.y;
  }

  /** Different keys have different coordinates. */
  lemma CoordInjective(p: int, q: int)
    requires Coord(p) == Coord(q)
    ensures p == q
  {
  }

  lemma CentreIsOrigin()
    ensures Coord(5) == Point(0, 0)
    ensures forall pos | 1 <= pos <= 9 && pos != 5 :: Coord(pos) != Point(0, 0)
  {
  }

  /** `delta`: the vector from `a` to `b`. */
  function Delta(a: Point, b: Point): (d: Point)
    ensures Add(a, d) == b
    ensures d == Point(0, 0) <==> a == b
  {
    Point(b.x - a.x, b.y - a.y)
  }

  /** `add`: `a` moved by `b`. */
  function Add(a: Point, b: Point): (r: Point)
    ensures r == a <==> b == Point(0, 0)
  {
    Point(a.x + b.x, a.y + b.y)
  }

  /** Moving by the vector between two points leads from one to the other, and back. */
  lemma DeltaAddInverse(a: Point, b: Point)
    ensures Add(a, Delta(a, b)) == b
    ensures Delta(a, Add(a, b)) == b
  {
  }

  /** `dest`: where the thumb ends after typing a symbol, its primary key moved by
      the offset of its secondary key from the centre. */
  function Dest(p: Position): (d: Point)
    ensures Delta(Coord(p.primary), d) == Coord(p.secondary)
    ensures p.secondary == 5 <==> d == Coord(p.primary)
  {
    Add(Coord(p.primary), Coord(p.secondary))
  }

  /** Row `i` is the last one naming its symbol. */
  ghost predicate LastNaming(rows: seq<Row>, i: int)
    requires 0 <= i < |rows|
  {
    forall j | i < j < |rows| :: rows[j].symbol != rows[i].symbol
  }

  /** Some row names `s`. */
  ghost predicate Named(rows: seq<Row>, s: string)
  {
    exists i | 0 <= i < |rows| :: rows[i].symbol == s
  }

  /** The rows before the last name the same symbols, and the last row may add one. */
  lemma NamedSnoc(rows: seq<Row>)
    requires |rows| > 0
    ensures forall s :: Named(rows, s) <==> Named(rows[..|rows| - 1], s) || s == rows[|rows| - 1].symbol
  {
    var init := rows[..|rows| - 1];
    forall s | Named(rows, s) && s != rows[|rows| - 1].symbol
      ensures Named(init, s)
    {
      var i :| 0 <= i < |rows| && rows[i].symbol == s;
      assert init[i] == rows[i];
    }
    forall s | Named(init, s)
      ensures Named(rows, s)
    {
      var i :| 0 <= i < |init| && init[i].symbol == s;
      assert rows[i] == init[i];
    }
    assert Named(rows, rows[|rows| - 1].symbol);
  }

  /** A row that is the last to name its symbol is so among the rows before the last, too. */
  lemma LastNamingSnoc(rows: seq<Row>, i: int)
    requires 0 <= i < |rows| - 1 && LastNaming(rows, i)
    ensures LastNaming(rows[..|rows| - 1], i)
    ensures rows[i].symbol != rows[|rows| - 1].symbol
  {
  }

  /** `positions`: the layout rows read in order, a later row for the same
      symbol replacing an earlier one. */
  function Positions(rows: seq<Row>): (m: map<string, Position>)
    ensures forall s :: s in m <==> Named(rows, s)
    ensures forall i | 0 <= i < |rows| && LastNaming(rows, i) ::
              rows[i].symbol in m && m[rows[i].symbol] == rows[i].position
    decreases |rows|
  {
    if |rows| == 0 then map[]
    else
      var init, last := rows[..|rows| - 1], rows[|rows| - 1];
      NamedSnoc(rows);
      forall i | 0 <= i < |init| && LastNaming(rows, i)
        ensures LastNaming(init, i) && init[i] == rows[i] && rows[i].symbol != last.symbol
      {
        LastNamingSnoc(rows, i);
      }
      Positions(init)[last.symbol := last.position]
  }

  /** A symbol named twice takes the position of its later row. */
  lemma LaterRowWins()
    ensures Positions([Row("a", Position(1, 5)), Row("b", Position(2, 5)), Row("a", Position(3, 4))])
         == map["a" := Position(3, 4), "b" := Position(2, 5)]
  {
    var r1 := [Row("a", Position(1, 5))];
    var r2 := r1 + [Row("b", Position(2, 5))];
    var rows := r2 + [Row("a", Position(3, 4))];
    assert rows[..2] == r2 && r2[..1] == r1 && r1[..0] == [];
    assert Positions(r1) == map["a" := Position(1, 5)];
    assert Positions(r2) == map["a" := Position(1, 5), "b" := Position(2, 5)];
  }
}
