/**
 * The grid component: the clicked cells are kept in `order`; once there are as many clicks
 * as `1` cells in the layout, an interval pops the last click each tick until none is left.
 */
module CubeGrid {
  import Box

  /** `BOX_DATA`: `1` marks a clickable cell, `0` an empty one. */
  const BoxData: seq<seq<int>> := [[1, 1, 1], [1, 0, 0], [1, 1, 1]]

  predicate InGrid(r: int, c: int) {
    0 <= r < |BoxData| && 0 <= c < |BoxData[r]|
  }

  /** The layout is three rows of three cells; the only empty cells are `(1, 1)` and `(1, 2)`. */
  lemma BoxDataLayout()
    ensures |BoxData| == 3 && forall r :: 0 <= r < 3 ==> |BoxData[r]| == 3
    ensures forall r, c :: InGrid(r, c) ==> (BoxData[r][c] == 0 <==> (r, c) in {(1, 1), (1, 2)})
    ensures forall r, c :: InGrid(r, c) ==> BoxData[r][c] in {0, 1}
  {
  }

  /** `row.filter(b => b === 1)`. */
  function Ones(row: seq<int>): (r: seq<int>)
    ensures |r| <= |row|
    ensures forall i :: 0 <= i < |r| ==> r[i] == 1
  {
    if row == [] then [] else (if row[0] == 1 then [1] else []) + Ones(row[1..])
  }

  /** `BOX_DATA.flatMap(box => box.filter(b => b === 1))`. */
  function FlatOnes(rows: seq<seq<int>>): seq<int> {
    if rows == [] then [] else Ones(rows[0]) + FlatOnes(rows[1..])
  }

  /** `order.flatMap(() => 1)`: one `1` per click. */
  function FlatMapOne<T>(s: seq<T>): (r: seq<int>)
    ensures |r| == |s|
  {
    if s == [] then [] else [1] + FlatMapOne(s[1..])
  }

  /** The number of clicks that starts the countdown. */
  function RequiredClicks(): nat {
    |FlatOnes(BoxData)|
  }

  lemma RequiredClicksIsSeven()
    ensures RequiredClicks() == 7
  {
    assert Ones([1, 1, 1]) == [1, 1, 1] by {
      assert [1, 1, 1][1..] == [1, 1] && [1, 1][1..] == [1];
    }
    assert Ones([1, 0, 0]) == [1] by {
      assert [1, 0, 0][1..] == [0, 0] && [0, 0][1..] == [0];
    }
    assert FlatOnes(BoxData) == [1, 1, 1] + [1] + [1, 1, 1] by {
      assert BoxData[1..] == [[1, 0, 0], [1, 1, 1]];
      assert BoxData[1..][1..] == [[1, 1, 1]];
    }
  }

  /** The effect's test `!(flatOrder.length < flatData.length)`. */
  predicate CountdownDue(order: seq<(int, int)>) {
    |FlatMapOne(order)| >= RequiredClicks()
  }

  /** The countdown is due exactly when at least seven clicks are recorded. */
  lemma CountdownDueExactly(order: seq<(int, int)>)
    ensures CountdownDue(order) <==> |order| >= 7
  {
    RequiredClicksIsSeven();
  }

  /** The updater of one interval tick: `[]` when at most one click is left, else all but the last. */
  function Popped(order: seq<(int, int)>): (r: seq<(int, int)>)
    ensures order != [] ==> |r| == |order| - 1
    ensures r <= order
  {
    if |order| <= 1 then [] else order[..|order| - 1]
  }

  /** The order after `n` ticks. */
  function AfterTicks(order: seq<(int, int)>, n: nat): seq<(int, int)>
    decreases n
  {
    if n == 0 then order else AfterTicks(Popped(order), n - 1)
  }

  /** A countdown from `|order|` clicks keeps a shrinking prefix and is empty after `|order|` ticks. */
  lemma {:induction false} CountdownEmpties(order: seq<(int, int)>, n: nat)
    requires n <= |order|
    ensures AfterTicks(order, n) == order[..|order| - n]
    decreases n
  {
    if n > 0 {
      CountdownEmpties(Popped(order), n - 1);
      assert Popped(order) == order[..|order| - 1];
      assert Popped(order)[..|Popped(order)| - (n - 1)] == order[..|order| - n];
    } else {
      assert order[..|order|] == order;
    }
  }

  /** The countdown is empty after `n` ticks exactly when `n` is at least the number of clicks. */
  lemma {:induction false} CountdownReachesEmpty(order: seq<(int, int)>, n: nat)
    ensures AfterTicks(order, n) == [] <==> n >= |order|
    decreases n
  {
    if n > 0 {
      CountdownReachesEmpty(Popped(order), n - 1);
    }
  }

  /** `order.filter(box => box[0] === r && box[1] === c).length`. */
  function MatchCount(order: seq<(int, int)>, r: int, c: int): nat {
    if order == [] then 0 else (if order[0] == (r, c) then 1 else 0) + MatchCount(order[1..], r, c)
  }

  /** `isGreen` as the component computes it. */
  predicate IsGreen(order: seq<(int, int)>, r: int, c: int) {
    MatchCount(order, r, c) > 0
  }

  /** A cell's filter count is positive exactly when the cell has been clicked. */
  lemma {:induction false} IsGreenIffClicked(order: seq<(int, int)>, r: int, c: int)
    ensures IsGreen(order, r, c) <==> (r, c) in order
    decreases |order|
  {
    if order != [] {
      IsGreenIffClicked(order[1..], r, c);
      assert (r, c) in order <==> order[0] == (r, c) || (r, c) in order[1..];
    }
  }

  /** The props the grid gives the box at `(r, c)`. */
  function CellProps(order: seq<(int, int)>, r: int, c: int): (p: Box.BoxProps)
    requires InGrid(r, c)
    ensures p.row == r && p.col == c
    ensures p.showBorder <==> BoxData[r][c] == 1
    ensures p.isGreen <==> BoxData[r][c] == 1 && (r, c) in order
  {
    IsGreenIffClicked(order, r, c);
    if BoxData[r][c] == 1 then Box.BoxProps(true, r, c, IsGreen(order, r, c))
    else Box.BoxProps(false, r, c, false)
  }

  /** The rendered grid: row by row, the props of every cell. */
  function Render(order: seq<(int, int)>): (grid: seq<seq<Box.BoxProps>>)
    ensures |grid| == |BoxData|
    ensures forall r :: 0 <= r < |grid| ==> |grid[r]| == |BoxData[r]|
  {
    seq(|BoxData|, r requires 0 <= r < |BoxData| =>
      seq(|BoxData[r]|, c requires 0 <= c < |BoxData[r]| => CellProps(order, r, c)))
  }

  /**
   * Every cell is rendered at its own coordinates, with a border exactly when it is a `1` cell,
   * and green exactly when it is a `1` cell that has been clicked.
   */
  lemma RenderedCell(order: seq<(int, int)>, r: int, c: int)
    requires InGrid(r, c)
    ensures var p := Render(order)[r][c];
      && p.row == r && p.col == c
      && (p.showBorder <==> BoxData[r][c] == 1)
      && (p.isGreen <==> BoxData[r][c] == 1 && (r, c) in order)
  {
    IsGreenIffClicked(order, r, c);
  }

  /** The grid's state: the clicks and whether a countdown interval is stored in `intervalRef`. */
  class Grid {
    var order: seq<(int, int)>
    var running: bool

    constructor ()
      ensures order == [] && !running
    {
      order := [];
      running := false;
    }

    /** The effect on `[order]`: start the countdown once enough clicks are recorded. */
    method Effect()
      modifies this
      ensures order == old(order)
      ensures running == (old(running) || CountdownDue(order))
    {
      if CountdownDue(order) {
        running := true;
      }
    }

    /** `saveNewOrder(row, col)`: the click is appended, then the effect runs. */
    method Click(row: int, col: int)
      modifies this
      ensures order == old(order) + [(row, col)]
      ensures running == (old(running) || CountdownDue(order))
    {
      order := order + [(row, col)];
      Effect();
    }

    /** One interval tick: drop the last click; at one click or fewer, clear to `[]` and stop; then the effect runs. */
    method Tick()
      modifies this
      ensures order == Popped(old(order))
      ensures |old(order)| <= 1 ==> order == [] && !running
      ensures |old(order)| > 1 ==> running == (old(running) || CountdownDue(order))
    {
      if |order| <= 1 {
        if running {
          running := false;
        }
        order := [];
      } else {
        order := order[..|order| - 1];
      }
      Effect();
      CountdownDueExactly(order);
    }

    /** A click on the rendered box at `(r, c)`: the box's guard decides whether `saveNewOrder` runs. */
    method Press(r: int, c: int)
      requires InGrid(r, c)
      modifies this
      ensures BoxData[r][c] == 0 ==> order == old(order) && running == old(running)
      ensures BoxData[r][c] == 1 ==> order == old(order) + [(r, c)]
      ensures BoxData[r][c] == 1 ==> running == (old(running) || CountdownDue(order))
    {
      var call := Box.Clicked(CellProps(order, r, c));
      if call.Some? {
        Click(call.value.0, call.value.1);
      }
    }
  }
}
