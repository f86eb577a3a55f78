/** Sorting the result table of the query console by a clicked column (apps/web/components/EmailQueryConsole.tsx). */
module QuerySort {
  import opened Options
  import opened StableSort

  datatype Cell = Undefined | Null | Num(n: real) | Str(s: string)

  type Row = map<string, Cell>

  datatype Direction = Asc | Desc

  /** `localeCompare` orders strings by some key; `show` is `String` on numbers. */
  datatype Locale = Locale(key: string -> real, show: real -> string)

  function CellOf(row: Row, column: string): Cell {
    if column in row then row[column] else Undefined
  }

  predicate Absent(c: Cell) {
    c.Null? || c.Undefined?
  }

  function Sign(x: real): int {
    if x < 0.0 then -1 else if x > 0.0 then 1 else 0
  }

  function Text(loc: Locale, c: Cell): string {
    match c
    case Num(n) => loc.show(n)
    case Str(s) => s
    case _ => ""
  }

  /** The comparator, by the sign of its result; `dir` is 1 or -1. */
  function Compare(loc: Locale, dir: int, a: Cell, b: Cell): int {
    if a == b then 0
    else if Absent(a) then 1
    else if Absent(b) then -1
    else if a.Num? && b.Num? then Sign(a.n - b.n) * dir
    else Sign(loc.key(Text(loc, a)) - loc.key(Text(loc, b))) * dir
  }

  /** The function that the click handler passes to `sort`. */
  function RowComparator(loc: Locale, dir: int, column: string): Comparator<Row> {
    (a, b) => Compare(loc, dir, CellOf(a, column), CellOf(b, column))
  }

  function Cells(rows: seq<Row>, column: string): set<Cell> {
    set r | r in rows :: CellOf(r, column)
  }

  // ---------- When the comparator is consistent ----------

  /** The string collates between the two numbers, of which the smaller one collates behind the greater, or alike. */
  predicate Between(loc: Locale, x: Cell, y: Cell, s: Cell) {
    && x.Num? && y.Num? && s.Str? && x.n < y.n
    && loc.key(loc.show(y.n)) <= loc.key(s.s) <= loc.key(loc.show(x.n))
  }

  /** Between two numbers that collate against their numeric order, or alike, there collates no string. */
  ghost predicate NoStringBetween(loc: Locale, cells: set<Cell>) {
    forall x, y, s | x in cells && y in cells && s in cells :: !Between(loc, x, y, s)
  }

  /** A column that can be sorted: not both nulls and missing values, and no string between two such numbers. */
  ghost predicate SortsProperly(loc: Locale, cells: set<Cell>) {
    !(Null in cells && Undefined in cells) && NoStringBetween(loc, cells)
  }

  lemma CompareAntisymmetric(loc: Locale, dir: int, a: Cell, b: Cell)
    requires dir == 1 || dir == -1
    requires !(Absent(a) && Absent(b) && a != b)
    ensures Compare(loc, dir, a, b) == -Compare(loc, dir, b, a)
  {
  }

  lemma CompareTransitive(loc: Locale, dir: int, cells: set<Cell>, a: Cell, b: Cell, c: Cell)
    requires dir == 1 || dir == -1
    requires SortsProperly(loc, cells) && a in cells && b in cells && c in cells
    requires Compare(loc, dir, a, b) <= 0 && Compare(loc, dir, b, c) <= 0
    ensures Compare(loc, dir, a, c) <= 0
  {
    assert !Between(loc, a, c, b) && !Between(loc, c, a, b) && !Between(loc, a, b, c) && !Between(loc, b, a, c);
    assert !Between(loc, b, c, a) && !Between(loc, c, b, a);
  }

  /** The comparator on the cells themselves. */
  function CellComparator(loc: Locale, dir: int): Comparator<Cell> {
    (a, b) => Compare(loc, dir, a, b)
  }

  /** A string between two such numbers closes a circle. */
  lemma StringBetweenCycles(loc: Locale, dir: int, cells: set<Cell>, x: Cell, y: Cell, s: Cell)
    requires (dir == 1 || dir == -1) && x in cells && y in cells && s in cells
    requires Between(loc, x, y, s)
    ensures !Consistent(CellComparator(loc, dir), cells)
  {
    var cmp := CellComparator(loc, dir);
    var first, last := if dir == 1 then y else x, if dir == 1 then x else y;
    assert cmp(first, s) <= 0 && cmp(s, last) <= 0 && cmp(first, last) > 0;
  }

  /** For every column, the comparator is a total preorder if and only if the column does not have both a null and
      a missing value, of which each compares as the greater one, and no string collates between two numbers that
      collate against their numeric order. */
  lemma ConsistentIffSortsProperly(loc: Locale, dir: int, cells: set<Cell>)
    requires dir == 1 || dir == -1
    ensures Consistent(CellComparator(loc, dir), cells) <==> SortsProperly(loc, cells)
  {
    var cmp := CellComparator(loc, dir);
    if Null in cells && Undefined in cells {
      assert cmp(Null, Undefined) == 1 == cmp(Undefined, Null);
    } else if !NoStringBetween(loc, cells) {
      var x, y, s :| x in cells && y in cells && s in cells && Between(loc, x, y, s);
      StringBetweenCycles(loc, dir, cells, x, y, s);
    } else {
      forall x, y | x in cells && y in cells
        ensures cmp(x, y) <= 0 <==> cmp(y, x) >= 0
      {
        CompareAntisymmetric(loc, dir, x, y);
      }
      forall x, y, z | x in cells && y in cells && z in cells && cmp(x, y) <= 0 && cmp(y, z) <= 0
        ensures cmp(x, z) <= 0
      {
        CompareTransitive(loc, dir, cells, x, y, z);
      }
    }
  }

  predicate OneKindPresent(cells: set<Cell>) {
    (forall c :: c in cells && !Absent(c) ==> c.Num?) || (forall c :: c in cells && !Absent(c) ==> c.Str?)
  }

  /** So with present values of one kind, whatever the locale, the absent values alone decide. */
  lemma ConsistentIffOneAbsentKind(loc: Locale, dir: int, cells: set<Cell>)
    requires (dir == 1 || dir == -1) && OneKindPresent(cells)
    ensures Consistent(CellComparator(loc, dir), cells) <==> !(Null in cells && Undefined in cells)
  {
    ConsistentIffSortsProperly(loc, dir, cells);
  }

  /** The comparator on rows is consistent when it is on their cells. */
  lemma RowsConsistent(loc: Locale, dir: int, column: string, rows: seq<Row>)
    requires Consistent(CellComparator(loc, dir), Cells(rows, column))
    ensures Consistent(RowComparator(loc, dir, column), Elements(rows))
  {
    var cmp, cells := CellComparator(loc, dir), Cells(rows, column);
    forall x | x in Elements(rows)
      ensures CellOf(x, column) in cells
    {
    }
    var rowCmp := RowComparator(loc, dir, column);
    assert forall x, y :: rowCmp(x, y) == cmp(CellOf(x, column), CellOf(y, column));
  }

  lemma CellsConsistent(loc: Locale, dir: int, column: string, rows: seq<Row>)
    requires Consistent(RowComparator(loc, dir, column), Elements(rows))
    ensures Consistent(CellComparator(loc, dir), Cells(rows, column))
  {
    var cmp, rowCmp := CellComparator(loc, dir), RowComparator(loc, dir, column);
    forall x, y | x in Cells(rows, column) && y in Cells(rows, column)
      ensures cmp(x, y) <= 0 <==> cmp(y, x) >= 0
    {
      var a: Row :| a in rows && CellOf(a, column) == x;
      var b: Row :| b in rows && CellOf(b, column) == y;
      assert rowCmp(a, b) == cmp(x, y) && rowCmp(b, a) == cmp(y, x);
    }
    forall x, y, z | x in Cells(rows, column) && y in Cells(rows, column) && z in Cells(rows, column)
                     && cmp(x, y) <= 0 && cmp(y, z) <= 0
      ensures cmp(x, z) <= 0
    {
      var a: Row :| a in rows && CellOf(a, column) == x;
      var b: Row :| b in rows && CellOf(b, column) == y;
      var c: Row :| c in rows && CellOf(c, column) == z;
      assert rowCmp(a, b) == cmp(x, y) && rowCmp(b, c) == cmp(y, z) && rowCmp(a, c) == cmp(x, z);
    }
  }

  /** Some row has a null in the column, and some row has nothing there at all. */
  ghost predicate MixesAbsent(column: string, rows: seq<Row>) {
    && (exists a: Row :: a in rows && column in a && a[column] == Null)
    && (exists b: Row :: b in rows && (column !in b || b[column] == Undefined))
  }

  /** Some row has a string in the column that collates between the numbers of two rows, of which the smaller one
      collates behind the greater one, or alike. */
  ghost predicate StringBetween(loc: Locale, column: string, rows: seq<Row>) {
    exists a: Row, b: Row, c: Row | a in rows && b in rows && c in rows && column in a && column in b && column in c ::
      Between(loc, a[column], b[column], c[column])
  }

  lemma MixesIff(column: string, rows: seq<Row>)
    ensures Null in Cells(rows, column) && Undefined in Cells(rows, column) <==> MixesAbsent(column, rows)
  {
    if Null in Cells(rows, column) && Undefined in Cells(rows, column) {
      var a: Row :| a in rows && CellOf(a, column) == Null;
      var b: Row :| b in rows && CellOf(b, column) == Undefined;
    }
    assert forall a :: a in rows ==> CellOf(a, column) in Cells(rows, column);
  }

  lemma StringBetweenIff(loc: Locale, column: string, rows: seq<Row>)
    ensures NoStringBetween(loc, Cells(rows, column)) <==> !StringBetween(loc, column, rows)
  {
    var cells := Cells(rows, column);
    if !NoStringBetween(loc, cells) {
      var x, y, s :| x in cells && y in cells && s in cells && Between(loc, x, y, s);
      var a: Row :| a in rows && CellOf(a, column) == x;
      var b: Row :| b in rows && CellOf(b, column) == y;
      var c: Row :| c in rows && CellOf(c, column) == s;
      assert column in a && column in b && column in c;
      assert Between(loc, a[column], b[column], c[column]);
    } else {
      forall a: Row, b: Row, c: Row | a in rows && b in rows && c in rows && column in a && column in b && column in c
        ensures !Between(loc, a[column], b[column], c[column])
      {
        assert CellOf(a, column) in cells && CellOf(b, column) in cells && CellOf(c, column) in cells;
      }
    }
  }

  /** Of the rows themselves: the comparator is a total preorder on them if and only if they do not mix nulls and
      missing values, and have no string between two such numbers. */
  lemma RowsConsistentIff(loc: Locale, dir: int, column: string, rows: seq<Row>)
    requires dir == 1 || dir == -1
    ensures Consistent(RowComparator(loc, dir, column), Elements(rows)) <==>
            !MixesAbsent(column, rows) && !StringBetween(loc, column, rows)
  {
    ConsistentIffSortsProperly(loc, dir, Cells(rows, column));
    MixesIff(column, rows);
    StringBetweenIff(loc, column, rows);
    if Consistent(RowComparator(loc, dir, column), Elements(rows)) {
      CellsConsistent(loc, dir, column, rows);
    } else if Consistent(CellComparator(loc, dir), Cells(rows, column)) {
      RowsConsistent(loc, dir, column, rows);
    }
  }

  /** The string "5" is between the numbers 10 and 9 wherever digits collate in their order. */
  lemma MixedColumnCycles(loc: Locale)
    requires loc.show(9.0) == "9" && loc.show(10.0) == "10"
    requires loc.key("10") < loc.key("5") < loc.key("9")
    ensures Compare(loc, 1, Num(9.0), Num(10.0)) < 0
    ensures Compare(loc, 1, Num(10.0), Str("5")) < 0
    ensures Compare(loc, 1, Str("5"), Num(9.0)) < 0
    ensures !Consistent(CellComparator(loc, 1), {Num(9.0), Num(10.0), Str("5")})
  {
    var cells := {Num(9.0), Num(10.0), Str("5")};
    StringBetweenCycles(loc, 1, cells, Num(9.0), Num(10.0), Str("5"));
  }

  // ---------- What a click leaves on the screen ----------

  datatype View = View(sortColumn: Option<string>, sortDirection: Direction, rows: Option<seq<Row>>)

  /** The direction that the header shows after a click on the column. */
  function NextDirection(view: View, column: string): Direction {
    if view.sortColumn == Some(column) && view.sortDirection == Asc then Desc else Asc
  }

  function Opposite(direction: Direction): Direction {
    if direction == Asc then Desc else Asc
  }

  /** The direction after a number of further clicks on the column. */
  function DirectionAfter(view: View, column: string, clicks: nat): Direction
    decreases clicks
  {
    if clicks == 0 then view.sortDirection
    else
      var next := view.(sortColumn := Some(column), sortDirection := NextDirection(view, column));
      DirectionAfter(next, column, clicks - 1)
  }

  lemma {:induction false} FurtherClicks(view: View, column: string, clicks: nat)
    requires view.sortColumn == Some(column)
    ensures DirectionAfter(view, column, clicks) ==
            if clicks % 2 == 0 then view.sortDirection else Opposite(view.sortDirection)
    decreases clicks
  {
    if clicks > 0 {
      FurtherClicks(view.(sortDirection := NextDirection(view, column)), column, clicks - 1);
    }
  }

  /** Clicking a column that was not the sorted one shows ascending after an odd number of clicks, and descending
      after an even one. */
  lemma ClicksAlternate(view: View, column: string, clicks: nat)
    requires view.sortColumn != Some(column) && clicks > 0
    ensures DirectionAfter(view, column, clicks) == if clicks % 2 == 1 then Asc else Desc
  {
    FurtherClicks(view.(sortColumn := Some(column), sortDirection := NextDirection(view, column)), column, clicks - 1);
  }

  function Factor(direction: Direction): int {
    if direction == Desc then -1 else 1
  }

  /** Two present cells are in the order that the direction asks for. */
  predicate InDirection(loc: Locale, direction: Direction, a: Cell, b: Cell) {
    if a.Num? && b.Num? then (if direction == Asc then a.n <= b.n else a.n >= b.n)
    else
      var x, y := loc.key(Text(loc, a)), loc.key(Text(loc, b));
      if direction == Asc then x <= y else x >= y
  }

  /** Nothing of the row is shown in the column. */
  predicate ShowsNothing(row: Row, column: string) {
    column !in row || Absent(row[column])
  }

  ghost predicate WellDisplayed(loc: Locale, direction: Direction, column: string, rows: seq<Row>) {
    forall i, j :: 0 <= i < j < |rows| ==>
      && (ShowsNothing(rows[i], column) ==> ShowsNothing(rows[j], column))
      && (!ShowsNothing(rows[i], column) && !ShowsNothing(rows[j], column) ==>
            InDirection(loc, direction, rows[i][column], rows[j][column]))
  }

  /** A column that can be sorted: after the click it shows a stable permutation of its rows, in the displayed
      direction, with absent values last in both directions. */
  lemma ClickSortsColumn(loc: Locale, direction: Direction, column: string, before: seq<Row>, after: seq<Row>)
    requires SortsProperly(loc, Cells(before, column))
    requires JsSorted(RowComparator(loc, Factor(direction), column), before, after)
    ensures multiset(after) == multiset(before) && Stable(RowComparator(loc, Factor(direction), column), before, after)
    ensures WellDisplayed(loc, direction, column, after)
  {
    var dir := Factor(direction);
    var cmp := RowComparator(loc, dir, column);
    ConsistentIffSortsProperly(loc, dir, Cells(before, column));
    RowsConsistent(loc, dir, column, before);
    forall i, j | 0 <= i < j < |after|
      ensures ShowsNothing(after[i], column) ==> ShowsNothing(after[j], column)
      ensures !ShowsNothing(after[i], column) && !ShowsNothing(after[j], column) ==>
                InDirection(loc, direction, after[i][column], after[j][column])
    {
      assert cmp(after[i], after[j]) <= 0;
      DisplayedPair(loc, direction, CellOf(after[i], column), CellOf(after[j], column));
    }
  }

  lemma DisplayedPair(loc: Locale, direction: Direction, a: Cell, b: Cell)
    requires Compare(loc, Factor(direction), a, b) <= 0
    ensures Absent(a) ==> Absent(b)
    ensures !Absent(a) && !Absent(b) ==> InDirection(loc, direction, a, b)
  {
  }

  class QueryConsole {
    const locale: Locale
    var sortColumn: Option<string>
    var sortDirection: Direction
    var rows: Option<seq<Row>>

    constructor (locale: Locale)
      ensures this.locale == locale && Model() == View(None, Asc, None)
    {
      this.locale := locale;
      sortColumn, sortDirection, rows := None, Asc, None;
    }

    ghost function Model(): View
      reads this
    {
      View(sortColumn, sortDirection, rows)
    }

    /** Sorts with the factor computed from the state before the click. */
    method HandleSortChange(column: string)
      modifies this
      ensures sortColumn == Some(column) && sortDirection == NextDirection(old(Model()), column)
      ensures sortDirection == if old(sortColumn) == Some(column) then Opposite(old(sortDirection)) else Asc
      ensures old(rows).None? ==> rows == None
      ensures old(rows).Some? ==>
                rows.Some? && JsSorted(RowComparator(locale, Factor(sortDirection), column), old(rows).value, rows.value)
      ensures old(rows).Some? && SortsProperly(locale, Cells(old(rows).value, column)) ==>
                WellDisplayed(locale, sortDirection, column, rows.value)
    {
      var dir := if sortColumn == Some(column) && sortDirection == Asc then -1 else 1;
      if sortColumn == Some(column) {
        sortDirection := if sortDirection == Asc then Desc else Asc;
      } else {
        sortColumn, sortDirection := Some(column), Asc;
      }
      if rows.Some? {
        var sorted := Sort(RowComparator(locale, dir, column), rows.value);
        if SortsProperly(locale, Cells(rows.value, column)) {
          ClickSortsColumn(locale, sortDirection, column, rows.value, sorted);
        }
        rows := Some(sorted);
      }
    }
  }
}
