/** One cell of the grid: its click guard, its grid placement and its class list. */
module Box {
  import opened Wrappers

  datatype BoxProps = BoxProps(showBorder: bool, row: int, col: int, isGreen: bool)

  /** `boxClicked`: the `onClick(row, col)` call a click makes, or none for a box without border. */
  function Clicked(p: BoxProps): (call: Option<(int, int)>)
    ensures call.None? <==> !p.showBorder
    ensures call.Some? ==> call.value == (p.row, p.col)
  {
    if !p.showBorder then None else Some((p.row, p.col))
  }

  /** `style={{ gridRow: row + 1, gridColumn: col + 1 }}`: CSS grid lines are 1-based. */
  function Placement(p: BoxProps): (gridRowColumn: (int, int))
    ensures gridRowColumn == (p.row + 1, p.col + 1)
    ensures p.row >= 0 && p.col >= 0 ==> gridRowColumn.0 >= 1 && gridRowColumn.1 >= 1
  {
    (p.row + 1, p.col + 1)
  }

  /** Different cells are placed on different grid lines. */
  lemma PlacementInjective(p: BoxProps, q: BoxProps)
    ensures Placement(p) == Placement(q) <==> (p.row, p.col) == (q.row, q.col)
  {
  }

  /** `classNames(...)`: the non-empty class names, in argument order. */
  function ClassNames(parts: seq<string>): (names: seq<string>)
    ensures |names| <= |parts|
    ensures forall c :: c in names <==> c in parts && c != ""
  {
    if parts == [] then []
    else (if parts[0] == "" then [] else [parts[0]]) + ClassNames(parts[1..])
  }

  /** The names of `a + b` are those of `a` followed by those of `b`: argument order is kept. */
  lemma {:induction false} ClassNamesAppend(a: seq<string>, b: seq<string>)
    ensures ClassNames(a + b) == ClassNames(a) + ClassNames(b)
    decreases |a|
  {
    if a != [] {
      assert (a + b)[0] == a[0] && (a + b)[1..] == a[1..] + b;
      ClassNamesAppend(a[1..], b);
    } else {
      assert a + b == b;
    }
  }

  /** The class list of a box: `box`, then `border` and `green` when their props are set. */
  function BoxClasses(p: BoxProps): (classes: seq<string>)
    ensures classes == ["box"] + (if p.showBorder then ["border"] else []) + (if p.isGreen then ["green"] else [])
  {
    var border, green := if p.showBorder then "border" else "", if p.isGreen then "green" else "";
    var parts := ["box", border, green];
    assert parts[1..] == [border, green] && parts[1..][1..] == [green] && [green][1..] == [];
    assert ClassNames([green]) == if p.isGreen then ["green"] else [];
    assert ClassNames([border, green]) == (if p.showBorder then ["border"] else []) + ClassNames([green]);
    ClassNames(parts)
  }

  /** The border class is present exactly when `showBorder`, the green class exactly when `isGreen`. */
  lemma BoxClassesExact(p: BoxProps)
    ensures "box" in BoxClasses(p)
    ensures "border" in BoxClasses(p) <==> p.showBorder
    ensures "green" in BoxClasses(p) <==> p.isGreen
  {
  }
}
