/** Treetop tree house (2022/src/bin/day08.rs): a square grid of tree
    heights; part 1 counts the trees visible from outside the grid, part 2
    finds the best scenic score, the product of the viewing distances in
    the four directions. */
module Y2022Day08 {
  import opened Wrappers
  import opened Text
  import opened Seqs

  /** A grid of heights as a sequence of rows (`Array2<u8>` in the source). */
  type Grid = seq<seq<nat>>

  // ---------------------------------------------------------------------
  // Parsing

  /** One character read as a `u8`: only a decimal digit is accepted. */
  function Digit(c: char): (r: Result<nat>)
    ensures r.Ok? <==> IsDigit(c)
    ensures r.Ok? ==> r.value == DigitValue(c)
    ensures r.Err? ==> r.error == InvalidDigit()
  {
    if IsDigit(c) then Ok(DigitValue(c)) else Err(InvalidDigit())
  }

  /** One line of the grid: it parses iff it is all digits, to their
      values; otherwise the `u8` parse error. */
  function ParseRow(l: string): (r: Result<seq<nat>>)
    ensures r.Ok? <==> AllDigits(l)
    ensures AllDigits(l) ==> r.value == DigitsOf(l)
    ensures r.Err? ==> r.error == InvalidDigit()
  {
    var r := CollectMap(l, Digit);
    if r.Ok? then
      assert forall k | 0 <= k < |l| :: r.value[k] == DigitValue(l[k]);
      r
    else r
  }

  /** The heights a line of digits stands for. */
  function DigitsOf(l: string): (r: seq<nat>)
    requires AllDigits(l)
    ensures |r| == |l|
  {
    seq(|l|, k requires 0 <= k < |l| => DigitValue(l[k]))
  }

  /** `parse_input` over the lines of the input: the side is the first
      line's length; every character must be a digit, and there must be
      exactly side * side of them. */
  function ParseLines(ls: seq<string>): (r: Result<Grid>)
    ensures ls == [] ==> r == Err("No lines")
    ensures r.Ok? ==> |r.value| == |ls[0]| && Rect(r.value, |ls[0]|)
  {
    if ls == [] then Err("No lines")
    else
      var n := |ls[0]|;
      match CollectMap(ls, ParseRow)
      case Err(e) => Err(e)
      case Ok(rows) =>
        var mat := Concat(rows);
        if |mat| != n * n then Err("weird shape") else Ok(Shape(mat, n, n))
  }

  /** `parse_input`: a parsed grid is square, its side the first line's
      length. */
  function ParseInput(input: string): (r: Result<Grid>)
    ensures r.Ok? ==> Lines(input) != [] && |r.value| == |Lines(input)[0]| && Rect(r.value, |r.value|)
  {
    ParseLines(Lines(input))
  }

  /** Reading the lines row by row: all of them must be digits. */
  lemma RowsParse(ls: seq<string>)
    ensures var r := CollectMap(ls, ParseRow);
      && (r.Ok? <==> forall i | 0 <= i < |ls| :: AllDigits(ls[i]))
      && (r.Ok? ==> |r.value| == |ls| && forall i | 0 <= i < |ls| :: r.value[i] == DigitsOf(ls[i]))
      && (r.Err? ==> r.error == InvalidDigit())
  {
    var r := CollectMap(ls, ParseRow);
    if r.Ok? {
      forall i | 0 <= i < |ls| ensures r.value[i] == DigitsOf(ls[i]) {
        assert Ok(r.value[i]) == ParseRow(ls[i]);
      }
    } else {
      var i :| 0 <= i < |ls| && ParseRow(ls[i]) == Err(r.error);
    }
  }

  lemma {:induction false} SameLengths(rows: seq<seq<nat>>, ls: seq<string>)
    requires |rows| == |ls| && forall i | 0 <= i < |ls| :: |rows[i]| == |ls[i]|
    ensures TotalLength(rows) == TotalLength(ls)
  {
    if rows != [] {
      SameLengths(rows[1..], ls[1..]);
    }
  }

  /** The input is accepted exactly when it has a line, every character
      is a digit and there are as many as the first line's length squared;
      a bad character gives the `u8` parse error and a wrong count the
      shape error. */
  lemma ParseMeaning(ls: seq<string>)
    ensures ParseLines(ls).Ok? <==>
              ls != [] && (forall i | 0 <= i < |ls| :: AllDigits(ls[i]))
              && TotalLength(ls) == |ls[0]| * |ls[0]|
    ensures ls != [] && !(forall i | 0 <= i < |ls| :: AllDigits(ls[i])) ==>
              ParseLines(ls) == Err(InvalidDigit())
    ensures (ls != [] && (forall i | 0 <= i < |ls| :: AllDigits(ls[i]))
             && TotalLength(ls) != |ls[0]| * |ls[0]|) ==> ParseLines(ls) == Err("weird shape")
  {
    RowsParse(ls);
    var r := CollectMap(ls, ParseRow);
    if r.Ok? {
      ConcatLength(r.value);
      SameLengths(r.value, ls);
    }
  }

  /** A square block of digit lines is read as the heights it shows. */
  lemma ParseSquare(ls: seq<string>)
    requires forall i | 0 <= i < |ls| :: |ls[i]| == |ls| && AllDigits(ls[i])
    requires ls != []
    ensures ParseLines(ls) == Ok(seq(|ls|, i requires 0 <= i < |ls| => DigitsOf(ls[i])))
  {
    RowsParse(ls);
    var rows := CollectMap(ls, ParseRow).value;
    assert rows == seq(|ls|, i requires 0 <= i < |ls| => DigitsOf(ls[i]));
    ShapeConcat(rows, |ls|);
  }

  // ---------------------------------------------------------------------
  // Part 1: visibility

  /** A tree is visible from above when every tree above it in its column
      is strictly lower: always in the first row. */
  predicate VisibleFromUp(g: Grid, w: nat, i: nat, j: nat)
    requires Rect(g, w) && i < |g| && j < w
  {
    forall k | 0 <= k < i :: g[k][j] < g[i][j]
  }

  function Taller(a: nat, b: nat): nat { if a >= b then a else b }

  /** The tallest tree of column `j` in the first `i` rows. */
  function ColMax(g: Grid, w: nat, i: nat, j: nat): nat
    requires Rect(g, w) && 1 <= i <= |g| && j < w
  {
    if i == 1 then g[0][j] else Taller(ColMax(g, w, i - 1, j), g[i - 1][j])
  }

  /** Being taller than the running maximum is being taller than every
      tree above. */
  lemma {:induction false} ColMaxMeaning(g: Grid, w: nat, i: nat, j: nat, h: nat)
    requires Rect(g, w) && 1 <= i <= |g| && j < w
    ensures h > ColMax(g, w, i, j) <==> forall k | 0 <= k < i :: g[k][j] < h
  {
    if i > 1 {
      ColMaxMeaning(g, w, i - 1, j, h);
    }
  }

  /** The state of `seeable_from_up` after `i` rows. */
  ghost predicate Swept(grid: Grid, w: nat, i: nat, maxHeight: Option<seq<nat>>, seeable: array2<bool>)
    reads seeable
  {
    && Rect(grid, w) && i <= |grid|
    && seeable.Length0 == |grid| && seeable.Length1 == w
    && (i == 0 <==> maxHeight.None?)
    && (maxHeight.Some? ==>
          |maxHeight.value| == w && forall j | 0 <= j < w :: maxHeight.value[j] == ColMax(grid, w, i, j))
    && forall a, b | 0 <= a < i && 0 <= b < w :: seeable[a, b] == VisibleFromUp(grid, w, a, b)
  }

  /** The first row: all visible, and the running maximum is that row. */
  method FirstRow(grid: Grid, w: nat, seeable: array2<bool>) returns (maxHeight: Option<seq<nat>>)
    requires Swept(grid, w, 0, None, seeable) && |grid| > 0
    modifies seeable
    ensures Swept(grid, w, 1, maxHeight, seeable)
  {
    maxHeight := Some(grid[0]);
    for j := 0 to w
      invariant forall b | 0 <= b < j :: seeable[0, b]
    {
      seeable[0, j] := true;
    }
  }

  /** A later row: a tree is visible when taller than the running maximum
      of its column, which then takes this row into account. */
  method LaterRow(grid: Grid, w: nat, i: nat, m: seq<nat>, seeable: array2<bool>) returns (maxHeight: Option<seq<nat>>)
    requires Swept(grid, w, i, Some(m), seeable) && i < |grid|
    modifies seeable
    ensures Swept(grid, w, i + 1, maxHeight, seeable)
  {
    var m' := m;
    for j := 0 to w
      invariant |m'| == w
      invariant forall b | 0 <= b < j :: m'[b] == ColMax(grid, w, i + 1, b)
      invariant forall b | j <= b < w :: m'[b] == m[b]
      invariant forall a, b | 0 <= a < |grid| && a != i && 0 <= b < w :: seeable[a, b] == old(seeable[a, b])
      invariant forall b | 0 <= b < j :: seeable[i, b] == VisibleFromUp(grid, w, i, b)
    {
      ColMaxMeaning(grid, w, i, j, grid[i][j]);
      seeable[i, j] := grid[i][j] > m'[j];
      m' := m'[j := Taller(m'[j], grid[i][j])];
    }
    maxHeight := Some(m');
  }

  /** `seeable_from_up`: one sweep from the top, keeping the tallest tree
      seen so far in every column. */
  method SeeableFromUp(grid: Grid, w: nat) returns (seeable: array2<bool>)
    requires Rect(grid, w)
    ensures fresh(seeable)
    ensures seeable.Length0 == |grid| && seeable.Length1 == w
    ensures forall i, j | 0 <= i < |grid| && 0 <= j < w :: seeable[i, j] == VisibleFromUp(grid, w, i, j)
  {
    var maxHeight: Option<seq<nat>> := None;
    seeable := new bool[|grid|, w]((i, j) => false);
    for i := 0 to |grid|
      invariant Swept(grid, w, i, maxHeight, seeable)
    {
      if maxHeight.None? {
        maxHeight := FirstRow(grid, w, seeable);
      } else {
        maxHeight := LaterRow(grid, w, i, maxHeight.value, seeable);
      }
    }
  }

  /** The grid upside down (`invert_axis(Axis(0))`). */
  function Flip(g: Grid, w: nat): (r: Grid)
    requires Rect(g, w)
    ensures |r| == |g| && Rect(r, w)
  {
    seq(|g|, i requires 0 <= i < |g| => g[|g| - 1 - i])
  }

  /** Rows become columns (`swap_axes(0, 1)`). */
  function Transpose(g: Grid, w: nat): (r: Grid)
    requires Rect(g, w)
    ensures |r| == w && Rect(r, |g|)
  {
    seq(w, j requires 0 <= j < w => seq(|g|, i requires 0 <= i < |g| => g[i][j]))
  }

  predicate VisibleFromDown(g: Grid, w: nat, i: nat, j: nat)
    requires Rect(g, w) && i < |g| && j < w
  {
    forall k | i < k < |g| :: g[k][j] < g[i][j]
  }

  predicate VisibleFromLeft(g: Grid, w: nat, i: nat, j: nat)
    requires Rect(g, w) && i < |g| && j < w
  {
    forall k | 0 <= k < j :: g[i][k] < g[i][j]
  }

  predicate VisibleFromRight(g: Grid, w: nat, i: nat, j: nat)
    requires Rect(g, w) && i < |g| && j < w
  {
    forall k | j < k < w :: g[i][k] < g[i][j]
  }

  /** A tree is visible from outside when it is visible along at least one
      of the four directions. */
  predicate Visible(g: Grid, w: nat, i: nat, j: nat)
    requires Rect(g, w) && i < |g| && j < w
  {
    VisibleFromUp(g, w, i, j) || VisibleFromDown(g, w, i, j)
    || VisibleFromLeft(g, w, i, j) || VisibleFromRight(g, w, i, j)
  }

  /** Sweeping the upside-down grid from the top sweeps the grid from the
      bottom. */
  lemma DownView(g: Grid, w: nat, i: nat, j: nat)
    requires Rect(g, w) && i < |g| && j < w
    ensures VisibleFromUp(Flip(g, w), w, |g| - 1 - i, j) <==> VisibleFromDown(g, w, i, j)
  {
    var f := Flip(g, w);
    var n := |g|;
    if VisibleFromUp(f, w, n - 1 - i, j) {
      forall k | i < k < n ensures g[k][j] < g[i][j] {
        assert f[n - 1 - k][j] == g[k][j];
      }
    }
    if VisibleFromDown(g, w, i, j) {
      forall k | 0 <= k < n - 1 - i ensures f[k][j] < f[n - 1 - i][j] {
        assert f[k][j] == g[n - 1 - k][j];
      }
    }
  }

  /** Sweeping the transposed grid from the top sweeps the grid from the
      left. */
  lemma LeftView(g: Grid, w: nat, i: nat, j: nat)
    requires Rect(g, w) && i < |g| && j < w
    ensures VisibleFromUp(Transpose(g, w), |g|, j, i) <==> VisibleFromLeft(g, w, i, j)
  {
    var t := Transpose(g, w);
    if VisibleFromUp(t, |g|, j, i) {
      forall k | 0 <= k < j ensures g[i][k] < g[i][j] {
        assert t[k][i] == g[i][k];
      }
    }
  }

  /** Sweeping the transposed grid upside down sweeps the grid from the
      right. */
  lemma RightView(g: Grid, w: nat, i: nat, j: nat)
    requires Rect(g, w) && i < |g| && j < w
    ensures VisibleFromUp(Flip(Transpose(g, w), |g|), |g|, w - 1 - j, i) <==> VisibleFromRight(g, w, i, j)
  {
    var t := Flip(Transpose(g, w), |g|);
    if VisibleFromUp(t, |g|, w - 1 - j, i) {
      forall k | j < k < w ensures g[i][k] < g[i][j] {
        assert t[w - 1 - k][i] == g[i][k];
      }
    }
    if VisibleFromRight(g, w, i, j) {
      forall k | 0 <= k < w - 1 - j ensures t[k][i] < t[w - 1 - j][i] {
        assert t[k][i] == g[i][w - 1 - k];
      }
    }
  }

  /** Trees on the edge are always visible. */
  lemma BoundaryVisible(g: Grid, w: nat, i: nat, j: nat)
    requires Rect(g, w) && i < |g| && j < w
    requires i == 0 || i == |g| - 1 || j == 0 || j == w - 1
    ensures Visible(g, w, i, j)
  {
  }

  /** The visible trees of row `i` among its first `j` cells. */
  function RowVisible(g: Grid, w: nat, i: nat, j: nat): nat
    requires Rect(g, w) && i < |g| && j <= w
  {
    if j == 0 then 0 else RowVisible(g, w, i, j - 1) + (if Visible(g, w, i, j - 1) then 1 else 0)
  }

  /** The visible trees of the first `i` rows. */
  function VisibleCount(g: Grid, w: nat, i: nat): nat
    requires Rect(g, w) && i <= |g|
  {
    if i == 0 then 0 else VisibleCount(g, w, i - 1) + RowVisible(g, w, i - 1, w)
  }

  lemma {:induction false} RowVisibleBounds(g: Grid, w: nat, i: nat, j: nat)
    requires Rect(g, w) && i < |g| && j <= w
    ensures RowVisible(g, w, i, j) <= j
    ensures i == 0 || i == |g| - 1 ==> RowVisible(g, w, i, j) == j
  {
    if j > 0 {
      RowVisibleBounds(g, w, i, j - 1);
      if i == 0 || i == |g| - 1 {
        BoundaryVisible(g, w, i, j - 1);
      }
    }
  }

  lemma {:induction false} VisibleCountBound(g: Grid, w: nat, i: nat)
    requires Rect(g, w) && i <= |g|
    ensures VisibleCount(g, w, i) <= i * w
    ensures i >= 1 ==> VisibleCount(g, w, i) >= w
  {
    if i > 0 {
      VisibleCountBound(g, w, i - 1);
      RowVisibleBounds(g, w, i - 1, w);
      assert i * w == (i - 1) * w + w;
      if i == 1 {
        RowVisibleBounds(g, w, 0, w);
      }
    }
  }

  /** The whole first row is counted and nothing is counted twice: the
      count lies between the side and the number of trees. */
  lemma VisibleCountBounds(g: Grid, w: nat)
    requires Rect(g, w) && |g| >= 1
    ensures w <= VisibleCount(g, w, |g|) <= |g| * w
  {
    VisibleCountBound(g, w, |g|);
  }

  /** One cell of the combination `up |= down | left | right`, read through
      the views the other three sweeps were made on. */
  method CombineCell(grid: Grid, w: nat, up: array2<bool>, down: array2<bool>, left: array2<bool>,
                     right: array2<bool>, i: nat, j: nat)
    requires Rect(grid, w) && i < |grid| && j < w
    requires up.Length0 == |grid| && up.Length1 == w && up[i, j] == VisibleFromUp(grid, w, i, j)
    requires down.Length0 == |grid| && down.Length1 == w
    requires down[|grid| - 1 - i, j] == VisibleFromUp(Flip(grid, w), w, |grid| - 1 - i, j)
    requires left.Length0 == w && left.Length1 == |grid|
    requires left[j, i] == VisibleFromUp(Transpose(grid, w), |grid|, j, i)
    requires right.Length0 == w && right.Length1 == |grid|
    requires right[w - 1 - j, i] == VisibleFromUp(Flip(Transpose(grid, w), |grid|), |grid|, w - 1 - j, i)
    requires up != down && up != left && up != right
    modifies up
    ensures forall a, b | 0 <= a < |grid| && 0 <= b < w :: up[a, b] == if a == i && b == j then Visible(grid, w, i, j) else old(up[a, b])
  {
    DownView(grid, w, i, j);
    LeftView(grid, w, i, j);
    RightView(grid, w, i, j);
    up[i, j] := up[i, j] || down[|grid| - 1 - i, j] || left[j, i] || right[w - 1 - j, i];
  }

  /** The four sweeps combined into `up`, cell by cell. */
  method Combine(grid: Grid, w: nat, up: array2<bool>, down: array2<bool>, left: array2<bool>, right: array2<bool>)
    requires Rect(grid, w)
    requires up.Length0 == |grid| && up.Length1 == w && down.Length0 == |grid| && down.Length1 == w
    requires left.Length0 == w && left.Length1 == |grid| && right.Length0 == w && right.Length1 == |grid|
    requires forall a, b | 0 <= a < |grid| && 0 <= b < w :: up[a, b] == VisibleFromUp(grid, w, a, b)
    requires forall a, b | 0 <= a < |grid| && 0 <= b < w :: down[a, b] == VisibleFromUp(Flip(grid, w), w, a, b)
    requires forall a, b | 0 <= a < w && 0 <= b < |grid| :: left[a, b] == VisibleFromUp(Transpose(grid, w), |grid|, a, b)
    requires forall a, b | 0 <= a < w && 0 <= b < |grid| ::
               right[a, b] == VisibleFromUp(Flip(Transpose(grid, w), |grid|), |grid|, a, b)
    requires up != down && up != left && up != right
    modifies up
    ensures forall a, b | 0 <= a < |grid| && 0 <= b < w :: up[a, b] == Visible(grid, w, a, b)
  {
    for i := 0 to |grid|
      invariant forall a, b | 0 <= a < i && 0 <= b < w :: up[a, b] == Visible(grid, w, a, b)
      invariant forall a, b | i <= a < |grid| && 0 <= b < w :: up[a, b] == VisibleFromUp(grid, w, a, b)
    {
      for j := 0 to w
        invariant forall a, b | 0 <= a < i && 0 <= b < w :: up[a, b] == Visible(grid, w, a, b)
        invariant forall b | 0 <= b < j :: up[i, b] == Visible(grid, w, i, b)
        invariant forall a, b | i <= a < |grid| && 0 <= b < w && (a != i || b >= j) :: up[a, b] == VisibleFromUp(grid, w, a, b)
      {
        CombineCell(grid, w, up, down, left, right, i, j);
      }
    }
  }

  /** `iter().filter(|e| **e).count()` over the combined grid. */
  method CountVisible(grid: Grid, w: nat, up: array2<bool>) returns (count: nat)
    requires Rect(grid, w) && up.Length0 == |grid| && up.Length1 == w
    requires forall a, b | 0 <= a < |grid| && 0 <= b < w :: up[a, b] == Visible(grid, w, a, b)
    ensures count == VisibleCount(grid, w, |grid|)
  {
    count := 0;
    for i := 0 to |grid|
      invariant count == VisibleCount(grid, w, i)
    {
      for j := 0 to w
        invariant count == VisibleCount(grid, w, i) + RowVisible(grid, w, i, j)
      {
        if up[i, j] {
          count := count + 1;
        }
      }
    }
  }

  /** `part1`: the number of trees visible from outside the grid. */
  method Part1(grid: Grid, w: nat) returns (count: nat)
    requires Rect(grid, w)
    ensures count == VisibleCount(grid, w, |grid|)
  {
    var up := SeeableFromUp(grid, w);
    var down := SeeableFromUp(Flip(grid, w), w);
    var left := SeeableFromUp(Transpose(grid, w), |grid|);
    var right := SeeableFromUp(Flip(Transpose(grid, w), |grid|), |grid|);
    Combine(grid, w, up, down, left, right);
    count := CountVisible(grid, w, up);
  }

  // ---------------------------------------------------------------------
  // Part 2: viewing distances

  datatype Dir = Up | Down | Left | Right

  type Pos = (nat, nat)

  /** The position one step away, in unbounded coordinates. */
  function Moved(d: Dir, p: Pos): (int, int) {
    match d
    case Up => (p.0 - 1, p.1)
    case Down => (p.0 + 1, p.1)
    case Left => (p.0, p.1 - 1)
    case Right => (p.0, p.1 + 1)
  }

  predicate InGrid(q: (int, int), h: nat, w: nat) {
    0 <= q.0 < h && 0 <= q.1 < w
  }

  /** `Dir::apply`: the step checked against underflow and then against
      the grid's bounds; None exactly when the step leaves the grid. */
  function Apply(d: Dir, p: Pos, h: nat, w: nat): (r: Option<Pos>)
    ensures r.None? <==> !InGrid(Moved(d, p), h, w)
    ensures r.Some? ==> r.value.0 == Moved(d, p).0 && r.value.1 == Moved(d, p).1
  {
    var stepped: Option<Pos> :=
      match d
      case Up => if p.0 == 0 then None else Some((p.0 - 1, p.1))
      case Down => Some((p.0 + 1, p.1))
      case Left => if p.1 == 0 then None else Some((p.0, p.1 - 1))
      case Right => Some((p.0, p.1 + 1));
    match stepped
    case None => None
    case Some(q) => if q.0 < h && q.1 < w then Some(q) else None
  }

  /** The number of cells between `p` and the edge in direction `d`. */
  function Dist(d: Dir, p: Pos, h: nat, w: nat): nat
    requires p.0 < h && p.1 < w
  {
    match d
    case Up => p.0
    case Down => h - 1 - p.0
    case Left => p.1
    case Right => w - 1 - p.1
  }

  /** The position `t` steps away, in unbounded coordinates. */
  function At(d: Dir, p: Pos, t: nat): (int, int) {
    match d
    case Up => (p.0 - t, p.1)
    case Down => (p.0 + t, p.1)
    case Left => (p.0, p.1 - t)
    case Right => (p.0, p.1 + t)
  }

  /** The viewing distance: every lower tree counts, the first at least as
      tall counts and stops the view, and so does the edge. */
  function Trees(g: Grid, w: nat, p: Pos, d: Dir, own: nat): nat
    requires Rect(g, w) && p.0 < |g| && p.1 < w
    decreases Dist(d, p, |g|, w)
  {
    match Apply(d, p, |g|, w)
    case None => 0
    case Some(q) =>
      1 + if g[q.0][q.1] >= own then 0 else Trees(g, w, q, d, own)
  }

  /** The height at a position known to be in the grid. */
  function HeightAt(g: Grid, w: nat, q: (int, int)): nat
    requires Rect(g, w) && InGrid(q, |g|, w)
  {
    g[q.0][q.1]
  }

  /** A step leaves the grid exactly at the edge facing `d`; otherwise it
      brings the edge one cell closer. */
  lemma ApplyEdge(d: Dir, p: Pos, h: nat, w: nat)
    requires p.0 < h && p.1 < w
    ensures Apply(d, p, h, w).None? <==> Dist(d, p, h, w) == 0
    ensures Apply(d, p, h, w).Some? ==> var q := Apply(d, p, h, w).value;
      q.0 < h && q.1 < w && Dist(d, q, h, w) == Dist(d, p, h, w) - 1
  {
  }

  lemma AtStep(d: Dir, p: Pos, q: Pos, t: nat)
    requires q.0 == Moved(d, p).0 && q.1 == Moved(d, p).1 && t >= 1
    ensures At(d, p, t) == At(d, q, t - 1)
  {
  }

  /** The viewing distance never passes the edge, and is 0 exactly on the
      edge facing `d`. */
  lemma {:induction false} TreesBound(g: Grid, w: nat, p: Pos, d: Dir, own: nat)
    requires Rect(g, w) && p.0 < |g| && p.1 < w
    ensures Trees(g, w, p, d, own) <= Dist(d, p, |g|, w)
    ensures Trees(g, w, p, d, own) == 0 <==> Dist(d, p, |g|, w) == 0
    decreases Dist(d, p, |g|, w)
  {
    ApplyEdge(d, p, |g|, w);
    var o := Apply(d, p, |g|, w);
    if o.Some? && g[o.value.0][o.value.1] < own {
      TreesBound(g, w, o.value, d, own);
    }
  }

  /** Every tree the view passes over before its last one is lower than
      `own`. */
  lemma {:induction false} TreesLower(g: Grid, w: nat, p: Pos, d: Dir, own: nat, t: nat)
    requires Rect(g, w) && p.0 < |g| && p.1 < w
    requires 1 <= t < Trees(g, w, p, d, own)
    ensures InGrid(At(d, p, t), |g|, w) && HeightAt(g, w, At(d, p, t)) < own
    decreases Dist(d, p, |g|, w)
  {
    ApplyEdge(d, p, |g|, w);
    var q := Apply(d, p, |g|, w).value;
    AtStep(d, p, q, t);
    if t > 1 {
      TreesLower(g, w, q, d, own, t - 1);
    }
  }

  /** A view that stops short of the edge stops at a tree at least `own`
      tall. */
  lemma {:induction false} TreesStop(g: Grid, w: nat, p: Pos, d: Dir, own: nat)
    requires Rect(g, w) && p.0 < |g| && p.1 < w
    requires 0 < Trees(g, w, p, d, own) < Dist(d, p, |g|, w)
    ensures var r := Trees(g, w, p, d, own);
      InGrid(At(d, p, r), |g|, w) && HeightAt(g, w, At(d, p, r)) >= own
    decreases Dist(d, p, |g|, w)
  {
    ApplyEdge(d, p, |g|, w);
    var q := Apply(d, p, |g|, w).value;
    var r := Trees(g, w, p, d, own);
    AtStep(d, p, q, r);
    if g[q.0][q.1] < own {
      TreesStop(g, w, q, d, own);
    }
  }

  /** The loop of `see_trees` up to `p`, having counted `canSee` trees. */
  ghost predicate Looked(grid: Grid, w: nat, start: Pos, d: Dir, p: Pos, canSee: nat) {
    && Rect(grid, w) && start.0 < |grid| && start.1 < w && p.0 < |grid| && p.1 < w
    && canSee + Trees(grid, w, p, d, grid[start.0][start.1]) == Trees(grid, w, start, d, grid[start.0][start.1])
  }

  /** `see_trees`: walk from `pos` in direction `dir`, counting trees, until
      the edge or a tree at least as tall as the one at `pos`. */
  method SeeTrees(grid: Grid, w: nat, pos: Pos, dir: Dir) returns (canSee: nat)
    requires Rect(grid, w) && pos.0 < |grid| && pos.1 < w
    ensures canSee == Trees(grid, w, pos, dir, grid[pos.0][pos.1])
  {
    canSee := 0;
    var ownHeight := grid[pos.0][pos.1];
    var p := pos;
    while true
      invariant Looked(grid, w, pos, dir, p, canSee)
      decreases Dist(dir, p, |grid|, w)
    {
      var next := Apply(dir, p, |grid|, w);
      if next.None? {
        break;
      }
      p := next.value;
      canSee := canSee + 1;
      if grid[p.0][p.1] >= ownHeight {
        break;
      }
    }
  }

  /** The scenic score: the product of the four viewing distances. */
  function Score(g: Grid, w: nat, i: nat, j: nat): nat
    requires Rect(g, w) && i < |g| && j < w
  {
    var own := g[i][j];
    Trees(g, w, (i, j), Up, own) * Trees(g, w, (i, j), Down, own)
    * Trees(g, w, (i, j), Left, own) * Trees(g, w, (i, j), Right, own)
  }

  /** A tree on the edge has a scenic score of 0. */
  lemma BoundaryScore(g: Grid, w: nat, i: nat, j: nat)
    requires Rect(g, w) && i < |g| && j < w
    requires i == 0 || i == |g| - 1 || j == 0 || j == w - 1
    ensures Score(g, w, i, j) == 0
  {
    var own := g[i][j];
    TreesBound(g, w, (i, j), Up, own);
    TreesBound(g, w, (i, j), Down, own);
    TreesBound(g, w, (i, j), Left, own);
    TreesBound(g, w, (i, j), Right, own);
  }

  /** The four viewing distances of one cell multiplied into `s`, the
      cell's entry of the score array. */
  method MultiplyScores(heights: Grid, w: nat, i: nat, j: nat, s0: nat) returns (s: nat)
    requires Rect(heights, w) && i < |heights| && j < w
    ensures s == s0 * Score(heights, w, i, j)
  {
    s := s0;
    var up := SeeTrees(heights, w, (i, j), Up);
    s := s * up;
    var down := SeeTrees(heights, w, (i, j), Down);
    s := s * down;
    var left := SeeTrees(heights, w, (i, j), Left);
    s := s * left;
    var right := SeeTrees(heights, w, (i, j), Right);
    s := s * right;
    Regroup(s0, up, down, left, right);
  }

  lemma Regroup(s0: nat, a: nat, b: nat, c: nat, d: nat)
    ensures s0 * a * b * c * d == s0 * (a * b * c * d)
  {
    assert s0 * a * b == s0 * (a * b);
    assert s0 * (a * b) * c == s0 * (a * b * c);
    assert s0 * (a * b * c) * d == s0 * (a * b * c * d);
  }

  /** The score of one cell, computed in place. */
  method ScoreCell(heights: Grid, w: nat, score: array2<nat>, i: nat, j: nat)
    requires Rect(heights, w) && i < |heights| && j < w
    requires score.Length0 == |heights| && score.Length1 == w && score[i, j] == 1
    modifies score
    ensures forall a, b | 0 <= a < |heights| && 0 <= b < w ::
              score[a, b] == if a == i && b == j then Score(heights, w, i, j) else old(score[a, b])
  {
    score[i, j] := MultiplyScores(heights, w, i, j, score[i, j]);
  }

  /** `score.iter().max()`: None for an empty array. */
  method MaxOf(score: array2<nat>) returns (r: Option<nat>)
    ensures r.None? <==> score.Length0 == 0 || score.Length1 == 0
    ensures r.Some? ==> (exists a, b | 0 <= a < score.Length0 && 0 <= b < score.Length1 :: score[a, b] == r.value)
                        && forall a, b | 0 <= a < score.Length0 && 0 <= b < score.Length1 :: score[a, b] <= r.value
  {
    if score.Length0 == 0 || score.Length1 == 0 {
      return None;
    }
    var best := score[0, 0];
    ghost var at: (nat, nat) := (0, 0);
    for i := 0 to score.Length0
      invariant at.0 < score.Length0 && at.1 < score.Length1 && score[at.0, at.1] == best
      invariant forall a, b | 0 <= a < i && 0 <= b < score.Length1 :: score[a, b] <= best
    {
      for j := 0 to score.Length1
        invariant at.0 < score.Length0 && at.1 < score.Length1 && score[at.0, at.1] == best
        invariant forall a, b | 0 <= a < i && 0 <= b < score.Length1 :: score[a, b] <= best
        invariant forall b | 0 <= b < j :: score[i, b] <= best
      {
        if score[i, j] > best {
          best := score[i, j];
          at := (i, j);
        }
      }
    }
    assert score[at.0, at.1] == best;
    r := Some(best);
  }

  /** `part2`: the highest scenic score, or "No elements" for an empty
      grid. */
  method Part2(heights: Grid, w: nat) returns (r: Result<nat>)
    requires Rect(heights, w)
    ensures r.Err? <==> |heights| == 0 || w == 0
    ensures r.Err? ==> r.error == "No elements"
    ensures r.Ok? ==> (exists i, j | 0 <= i < |heights| && 0 <= j < w :: Score(heights, w, i, j) == r.value)
                      && forall i, j | 0 <= i < |heights| && 0 <= j < w :: Score(heights, w, i, j) <= r.value
  {
    var score := new nat[|heights|, w]((i, j) => 1);
    for i := 0 to |heights|
      invariant forall a, b | 0 <= a < i && 0 <= b < w :: score[a, b] == Score(heights, w, a, b)
      invariant forall a, b | i <= a < |heights| && 0 <= b < w :: score[a, b] == 1
    {
      for j := 0 to w
        invariant forall a, b | 0 <= a < i && 0 <= b < w :: score[a, b] == Score(heights, w, a, b)
        invariant forall b | 0 <= b < j :: score[i, b] == Score(heights, w, i, b)
        invariant forall a, b | i <= a < |heights| && 0 <= b < w && (a != i || b >= j) :: score[a, b] == 1
      {
        ScoreCell(heights, w, score, i, j);
      }
    }
    var best := MaxOf(score);
    r := Context(best, "No elements");
  }
}
