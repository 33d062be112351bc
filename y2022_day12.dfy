/** Hill climbing (2022/src/bin/day12.rs): a grid of letters giving
    heights, with a start `S` and an end `E`; the searches move between
    neighbouring cells whose heights allow a step. Only the parser and the
    neighbour relation are modelled; the A* searches are not. */
module Y2022Day12 {
  import opened Wrappers
  import opened Text
  import opened Seqs

  /** A cell as (line, column). */
  type Pos = (nat, nat)

  /** `Map`: where the climb starts and ends, and the heights by row. */
  datatype HeightMap = HeightMap(start: Pos, end: Pos, heights: seq<seq<nat>>)

  // ---------------------------------------------------------------------
  // Parsing

  /** The error for any other character; the source prints it with
      `Debug`, modelled as single quotes without escapes. */
  function InvalidHeight(c: char): string { "Invalid height: '" + [c] + "'" }

  /** The height a character stands for: `a` to `z` are 0 to 25, the start
      is 0 and the end 25. */
  function HeightOf(c: char): (r: Result<nat>)
    ensures r.Ok? <==> 'a' <= c <= 'z' || c == 'S' || c == 'E'
    ensures r.Ok? ==> r.value <= 25
  {
    if 'a' <= c <= 'z' then Ok(c as int - 'a' as int)
    else if c == 'S' then Ok(0)
    else if c == 'E' then Ok(25)
    else Err(InvalidHeight(c))
  }

  /** The heights of a line, read left to right: the error of the first
      character that is not a height, or every height. */
  function LineHeights(l: string): Result<seq<nat>> {
    if l == [] then Ok([])
    else
      match LineHeights(l[..|l| - 1])
      case Err(e) => Err(e)
      case Ok(row) =>
        match HeightOf(l[|l| - 1])
        case Err(e) => Err(e)
        case Ok(h) => Ok(row + [h])
  }

  /** The heights of every line, read top to bottom: the first line's error,
      or every line's heights. Together with `LineHeights` this is the
      source's single pass over all characters in reading order. */
  function Rows(ls: seq<string>): Result<seq<seq<nat>>> {
    if ls == [] then Ok([])
    else
      match Rows(ls[..|ls| - 1])
      case Err(e) => Err(e)
      case Ok(rows) =>
        match LineHeights(ls[|ls| - 1])
        case Err(e) => Err(e)
        case Ok(row) => Ok(rows + [row])
  }

  /** The last column of `l` holding `c`. */
  function LastIn(l: string, c: char): Option<nat> {
    if l == [] then None
    else if l[|l| - 1] == c then Some(|l| - 1)
    else LastIn(l[..|l| - 1], c)
  }

  lemma {:induction false} LastInMeaning(l: string, c: char)
    ensures LastIn(l, c).None? <==> c !in l
    ensures LastIn(l, c).Some? ==> var x := LastIn(l, c).value;
      x < |l| && l[x] == c && forall k | x < k < |l| :: l[k] != c
  {
    if l != [] && l[|l| - 1] != c {
      LastInMeaning(l[..|l| - 1], c);
      assert l == l[..|l| - 1] + [l[|l| - 1]];
    }
  }

  /** The last cell holding `c`, in reading order: the one the source's
      closure records last. */
  function LastOf(ls: seq<string>, c: char): Option<Pos> {
    if ls == [] then None
    else
      match LastIn(ls[|ls| - 1], c)
      case Some(x) => Some((|ls| - 1, x))
      case None => LastOf(ls[..|ls| - 1], c)
  }

  /** The recorded cell holds `c`, no later cell does, and there is none
      exactly when no line holds `c`. */
  lemma {:induction false} LastOfMeaning(ls: seq<string>, c: char)
    ensures LastOf(ls, c).None? <==> forall y | 0 <= y < |ls| :: c !in ls[y]
    ensures LastOf(ls, c).Some? ==> var p := LastOf(ls, c).value;
      && p.0 < |ls| && p.1 < |ls[p.0]| && ls[p.0][p.1] == c
      && (forall x | p.1 < x < |ls[p.0]| :: ls[p.0][x] != c)
      && (forall y | p.0 < y < |ls| :: c !in ls[y])
  {
    if ls != [] {
      var last := ls[|ls| - 1];
      LastInMeaning(last, c);
      if LastIn(last, c).None? {
        LastOfMeaning(ls[..|ls| - 1], c);
        assert forall y | 0 <= y < |ls| - 1 :: ls[..|ls| - 1][y] == ls[y];
      }
    }
  }

  /** The message of `ndarray`'s shape error. */
  function ShapeError(): string { "ShapeError/IncompatibleShape: incompatible shapes" }

  /** `parse_input` over the lines: every character read as a height, the
      heights cut into rows as wide as the first line, and the last `S` and
      `E` recorded. As the source writes it (`strict` false), only the
      number of cells is checked against the shape; with `strict`, every
      line must also be as wide as the first. */
  function Parse(ls: seq<string>, strict: bool): (r: Result<HeightMap>)
    requires ls != []
    ensures Rows(ls).Err? ==> r == Err(Rows(ls).error)
    ensures r.Ok? ==> |r.value.heights| == |ls| && Rect(r.value.heights, |ls[0]|)
    ensures r.Ok? && strict ==> Rect(ls, |ls[0]|)
  {
    var width := |ls[0]|;
    match Rows(ls)
    case Err(e) => Err(e)
    case Ok(rows) =>
      var cells := Concat(rows);
      if |cells| != width * |ls| || (strict && !Rect(ls, width)) then Err(ShapeError())
      else
        match LastOf(ls, 'S')
        case None => Err("No start found")
        case Some(s) =>
          match LastOf(ls, 'E')
          case None => Err("No end found")
          case Some(e) => Ok(HeightMap(s, e, Shape(cells, width, |ls|)))
  }

  /** `parse_input` as the source writes it: it accepts every input the
      intended check accepts, with the same map, and its map always has one
      row per line, as wide as the first line. */
  function ParseAsWritten(ls: seq<string>): (r: Result<HeightMap>)
    requires ls != []
    ensures Parse(ls, true).Ok? ==> r == Parse(ls, true)
    ensures r.Ok? ==> |r.value.heights| == |ls| && Rect(r.value.heights, |ls[0]|)
  {
    Parse(ls, false)
  }

  /** The heights of the lines `S`, `aE` and an empty line. */
  lemma RaggedRows()
    ensures Rows(["S", "aE", ""]) == Ok([[0], [0, 25], []])
  {
    var ls := ["S", "aE", ""];
    var r0, r1, r2: seq<nat> := [0], [0, 25], [];
    assert LineHeights("S") == Ok(r0) by {
      LineHeightsMeaning("S");
      assert HeightOf("S"[0]) == Ok(0);
      assert forall x | 0 <= x < |"S"| :: HeightOf("S"[x]).Ok?;
      var v := LineHeights("S").value;
      assert |v| == 1 && v[0] == 0;
      assert v == r0;
    }
    assert LineHeights("aE") == Ok(r1) by {
      LineHeightsMeaning("aE");
      assert HeightOf("aE"[0]) == Ok(0) && HeightOf("aE"[1]) == Ok(25);
      assert forall x | 0 <= x < |"aE"| :: HeightOf("aE"[x]).Ok?;
      var v := LineHeights("aE").value;
      assert |v| == 2 && v[0] == 0 && v[1] == 25;
      assert v == r1;
    }
    assert LineHeights("") == Ok(r2);
    RowsMeaning(ls);
    var rows: seq<seq<nat>> := [r0, r1, r2];
    assert Rows(ls) == Ok(rows) by {
      assert LineHeights(ls[0]) == Ok(r0) && LineHeights(ls[1]) == Ok(r1) && LineHeights(ls[2]) == Ok(r2);
      var v := Rows(ls).value;
      assert |v| == 3 && v[0] == r0 && v[1] == r1 && v[2] == r2;
      assert v == rows;
    }
  }

  /** Lines of unequal length whose cell count fits the shape are accepted
      as written, and the recorded end then lies outside the grid: `S`,
      `aE` and an empty line make a grid of three rows of one cell, with
      the end at line 1, column 1. */
  lemma RaggedAccepted()
    ensures ParseAsWritten(["S", "aE", ""]) == Ok(HeightMap((0, 0), (1, 1), [[0], [0], [25]]))
    ensures !(1 < |ParseAsWritten(["S", "aE", ""]).value.heights[1]|)
  {
    var ls := ["S", "aE", ""];
    var r0, r1, r2: seq<nat> := [0], [0, 25], [];
    var rows: seq<seq<nat>> := [r0, r1, r2];
    RaggedRows();
    assert Concat(rows) == [0, 0, 25] by {
      var t1, t2: seq<seq<nat>> := [r1, r2], [r2];
      assert rows[1..] == t1 && t1[1..] == t2 && t2[1..] == [];
      assert Concat(t2) == [];
      assert Concat(t1) == r1;
      assert r0 + r1 == [0, 0, 25];
    }
    assert LastOf(ls, 'S') == Some((0, 0)) by {
      assert "S"[0] == 'S' && 'S' !in "aE";
    }
    assert LastOf(ls, 'E') == Some((1, 1)) by {
      assert "aE"[1] == 'E';
    }
    var cells: seq<nat> := [0, 0, 25];
    assert Shape(cells, 1, 3) == [[0], [0], [25]] by {
      var c1, c2: seq<nat> := [0, 25], [25];
      assert cells[..1] == [0] && cells[1..] == c1;
      assert c1[..1] == [0] && c1[1..] == c2;
      assert c2[..1] == [25] && c2[1..] == [];
      assert Shape(c2, 1, 1) == [[25]];
      assert Shape(c1, 1, 2) == [[0], [25]];
    }
  }

  /** `parse_input` with the evidently intended shape check; the rest of
      the model uses this one. */
  function ParseLines(ls: seq<string>): Result<HeightMap>
    requires ls != []
  {
    Parse(ls, true)
  }

  /** Every character is a height. */
  predicate AllHeights(ls: seq<string>) {
    forall y, x | 0 <= y < |ls| && 0 <= x < |ls[y]| :: HeightOf(ls[y][x]).Ok?
  }

  /** A line's heights are there exactly when every character is a height,
      one per character. */
  lemma {:induction false} LineHeightsMeaning(l: string)
    ensures LineHeights(l).Ok? <==> forall x | 0 <= x < |l| :: HeightOf(l[x]).Ok?
    ensures LineHeights(l).Ok? ==>
              (&& |LineHeights(l).value| == |l|
               && forall x | 0 <= x < |l| :: LineHeights(l).value[x] == HeightOf(l[x]).value)
  {
    if l != [] {
      var init := l[..|l| - 1];
      LineHeightsMeaning(init);
      assert forall k | 0 <= k < |init| :: init[k] == l[k];
    }
  }

  /** A line that fails reports its first character that is not a height. */
  lemma {:induction false} LineHeightsFirstErr(l: string)
    requires LineHeights(l).Err?
    ensures exists x | 0 <= x < |l| ::
              (forall k | 0 <= k < x :: HeightOf(l[k]).Ok?) && LineHeights(l).error == InvalidHeight(l[x])
  {
    var init := l[..|l| - 1];
    assert forall k | 0 <= k < |init| :: init[k] == l[k];
    if LineHeights(init).Err? {
      LineHeightsFirstErr(init);
      var x :| 0 <= x < |init| && (forall k | 0 <= k < x :: HeightOf(init[k]).Ok?)
               && LineHeights(init).error == InvalidHeight(init[x]);
      assert LineHeights(l).error == InvalidHeight(l[x]);
    } else {
      LineHeightsMeaning(init);
      assert LineHeights(l).error == InvalidHeight(l[|l| - 1]);
    }
  }

  /** Every line's heights are there exactly when each line's are, one row
      per line. */
  lemma {:induction false} RowsMeaning(ls: seq<string>)
    ensures Rows(ls).Ok? <==> forall y | 0 <= y < |ls| :: LineHeights(ls[y]).Ok?
    ensures Rows(ls).Ok? ==>
              (&& |Rows(ls).value| == |ls|
               && forall y | 0 <= y < |ls| :: LineHeights(ls[y]) == Ok(Rows(ls).value[y]))
  {
    if ls != [] {
      var init := ls[..|ls| - 1];
      RowsMeaning(init);
      assert forall k | 0 <= k < |init| :: init[k] == ls[k];
    }
  }

  /** Rows that fail report the first line that fails. */
  lemma {:induction false} RowsFirstErr(ls: seq<string>)
    requires Rows(ls).Err?
    ensures exists y | 0 <= y < |ls| ::
              && (forall k | 0 <= k < y :: LineHeights(ls[k]).Ok?)
              && LineHeights(ls[y]).Err? && Rows(ls).error == LineHeights(ls[y]).error
  {
    var init := ls[..|ls| - 1];
    assert forall k | 0 <= k < |init| :: init[k] == ls[k];
    if Rows(init).Err? {
      RowsFirstErr(init);
      var y :| 0 <= y < |init| && (forall k | 0 <= k < y :: LineHeights(init[k]).Ok?)
               && LineHeights(init[y]).Err? && Rows(init).error == LineHeights(init[y]).error;
      assert Rows(ls).error == LineHeights(ls[y]).error;
    } else {
      RowsMeaning(init);
      assert Rows(ls).error == LineHeights(ls[|ls| - 1]).error;
    }
  }

  /** The rows are there exactly when every character is a height, and they
      hold each character's height. */
  lemma RowsCells(ls: seq<string>)
    ensures Rows(ls).Ok? <==> AllHeights(ls)
    ensures Rows(ls).Ok? ==>
              (&& |Rows(ls).value| == |ls|
               && (forall y | 0 <= y < |ls| :: |Rows(ls).value[y]| == |ls[y]|)
               && forall y, x | 0 <= y < |ls| && 0 <= x < |ls[y]| ::
                    Rows(ls).value[y][x] == HeightOf(ls[y][x]).value)
  {
    RowsMeaning(ls);
    forall y | 0 <= y < |ls| {
      LineHeightsMeaning(ls[y]);
    }
  }

  /** Once a prefix of a line fails, the whole line fails the same way. */
  lemma {:induction false} LineHeightsErrStays(l: string, k: nat)
    requires k <= |l| && LineHeights(l[..k]).Err?
    ensures LineHeights(l) == LineHeights(l[..k])
    decreases |l|
  {
    if k < |l| {
      var init := l[..|l| - 1];
      assert init[..k] == l[..k];
      LineHeightsErrStays(init, k);
    } else {
      assert l[..k] == l;
    }
  }

  /** Once the rows of the first lines fail, all rows fail the same way. */
  lemma {:induction false} RowsErrStays(ls: seq<string>, k: nat)
    requires k <= |ls| && Rows(ls[..k]).Err?
    ensures Rows(ls) == Rows(ls[..k])
    decreases |ls|
  {
    if k < |ls| {
      var init := ls[..|ls| - 1];
      assert init[..k] == ls[..k];
      RowsErrStays(init, k);
    } else {
      assert ls[..k] == ls;
    }
  }

  /** The intended parser accepts exactly the lines that all have the
      first line's width, hold only heights, and hold an `S` and an `E`. */
  lemma ParseAccepts(ls: seq<string>)
    requires ls != []
    ensures ParseLines(ls).Ok? <==>
              && Rect(ls, |ls[0]|) && AllHeights(ls)
              && (exists y | 0 <= y < |ls| :: 'S' in ls[y])
              && (exists y | 0 <= y < |ls| :: 'E' in ls[y])
  {
    RowsCells(ls);
    LastOfMeaning(ls, 'S');
    LastOfMeaning(ls, 'E');
    if Rows(ls).Ok? {
      var rows := Rows(ls).value;
      if Rect(ls, |ls[0]|) {
        ShapeConcat(rows, |ls[0]|);
      }
    }
  }

  /** The rows the intended parser returns are one per line, with every
      cell's height. */
  lemma ParseHeights(ls: seq<string>)
    requires ls != [] && ParseLines(ls).Ok?
    ensures var m := ParseLines(ls).value;
      && |m.heights| == |ls| && Rect(m.heights, |ls[0]|) && Rect(ls, |ls[0]|)
      && forall y, x | 0 <= y < |ls| && 0 <= x < |ls[y]| :: HeightOf(ls[y][x]) == Ok(m.heights[y][x])
  {
    RowsCells(ls);
    var rows := Rows(ls).value;
    ShapeConcat(rows, |ls[0]|);
  }

  /** The start and the end the intended parser returns are cells of the
      grid that hold `S` and `E`, at heights 0 and 25. */
  lemma ParseValue(ls: seq<string>)
    requires ls != [] && ParseLines(ls).Ok?
    ensures var m := ParseLines(ls).value; |m.heights| == |ls| && Rect(m.heights, |ls[0]|) && Rect(ls, |ls[0]|)
    ensures var m := ParseLines(ls).value;
      && m.start.0 < |ls| && m.start.1 < |ls[0]| && ls[m.start.0][m.start.1] == 'S'
      && m.end.0 < |ls| && m.end.1 < |ls[0]| && ls[m.end.0][m.end.1] == 'E'
      && m.heights[m.start.0][m.start.1] == 0
      && m.heights[m.end.0][m.end.1] == 25
  {
    ParseHeights(ls);
    LastOfMeaning(ls, 'S');
    LastOfMeaning(ls, 'E');
  }

  /** The state of the scan after `y` lines. */
  ghost predicate Scanned(ls: seq<string>, y: nat, start: Option<Pos>, end: Option<Pos>,
                          width: Option<nat>, height: nat, sameWidth: bool, cells: seq<nat>)
  {
    && ls != [] && y <= |ls|
    && (width.None? <==> y == 0) && (width.Some? ==> width.value == |ls[0]|)
    && height == y
    && Rows(ls[..y]).Ok?
    && cells == Concat(Rows(ls[..y]).value)
    && (sameWidth <==> Rect(ls[..y], |ls[0]|))
    && start == LastOf(ls[..y], 'S') && end == LastOf(ls[..y], 'E')
  }

  /** The scan of line `y` after its first `x` characters. */
  ghost predicate LineScanned(l: string, y: nat, x: nat, row: seq<nat>, start0: Option<Pos>, end0: Option<Pos>,
                              start: Option<Pos>, end: Option<Pos>)
  {
    && x <= |l|
    && LineHeights(l[..x]) == Ok(row)
    && start == (if LastIn(l[..x], 'S').Some? then Some((y, LastIn(l[..x], 'S').value)) else start0)
    && end == (if LastIn(l[..x], 'E').Some? then Some((y, LastIn(l[..x], 'E').value)) else end0)
  }

  /** One character: its height, and the start or end it may be. */
  method ScanChar(l: string, y: nat, x: nat, row0: seq<nat>, ghost start0: Option<Pos>, ghost end0: Option<Pos>,
                  start1: Option<Pos>, end1: Option<Pos>)
    returns (ok: bool, row: seq<nat>, start: Option<Pos>, end: Option<Pos>)
    requires LineScanned(l, y, x, row0, start0, end0, start1, end1) && x < |l|
    ensures ok ==> LineScanned(l, y, x + 1, row, start0, end0, start, end)
    ensures !ok ==> LineHeights(l) == Err(InvalidHeight(l[x]))
  {
    start, end := start1, end1;
    var c := l[x];
    assert l[..x + 1][..x] == l[..x];
    var h: nat;
    if 'a' <= c <= 'z' {
      h := c as int - 'a' as int;
    } else if c == 'S' {
      start := Some((y, x));
      h := 0;
    } else if c == 'E' {
      end := Some((y, x));
      h := 25;
    } else {
      LineHeightsErrStays(l, x + 1);
      return false, row0, start, end;
    }
    ok, row := true, row0 + [h];
  }

  /** The scan of one line (the inner `chars().enumerate()`), recording the
      last `S` and `E` it holds. */
  method ScanLine(l: string, y: nat, start0: Option<Pos>, end0: Option<Pos>)
    returns (r: Result<seq<nat>>, start: Option<Pos>, end: Option<Pos>)
    ensures r == LineHeights(l)
    ensures r.Ok? ==> start == (if LastIn(l, 'S').Some? then Some((y, LastIn(l, 'S').value)) else start0)
    ensures r.Ok? ==> end == (if LastIn(l, 'E').Some? then Some((y, LastIn(l, 'E').value)) else end0)
  {
    start, end := start0, end0;
    var row: seq<nat> := [];
    assert l[..0] == [];
    for x := 0 to |l|
      invariant LineScanned(l, y, x, row, start0, end0, start, end)
    {
      var ok;
      ok, row, start, end := ScanChar(l, y, x, row, start0, end0, start, end);
      if !ok {
        return Err(InvalidHeight(l[x])), start, end;
      }
    }
    assert l[..|l|] == l;
    r := Ok(row);
  }

  /** One more line scanned. */
  method ScanStep(ls: seq<string>, y: nat, start0: Option<Pos>, end0: Option<Pos>, width0: Option<nat>,
                  height0: nat, sameWidth0: bool, cells0: seq<nat>)
    returns (err: Option<string>, start: Option<Pos>, end: Option<Pos>, width: Option<nat>,
             height: nat, sameWidth: bool, cells: seq<nat>)
    requires Scanned(ls, y, start0, end0, width0, height0, sameWidth0, cells0) && y < |ls|
    ensures err.None? ==> Scanned(ls, y + 1, start, end, width, height, sameWidth, cells)
    ensures err.Some? ==> Rows(ls) == Err(err.value)
  {
    width := if width0.None? then Some(|ls[y]|) else width0;
    height := height0 + 1;
    var row;
    row, start, end := ScanLine(ls[y], y, start0, end0);
    assert ls[..y + 1][..y] == ls[..y];
    assert ls[..y + 1][y] == ls[y];
    sameWidth := sameWidth0 && |ls[y]| == width.value;
    if row.Err? {
      RowsErrStays(ls, y + 1);
      return Some(row.error), start, end, width, height, sameWidth, cells0;
    }
    err := None;
    ConcatSnoc(Rows(ls[..y]).value, row.value);
    cells := cells0 + row.value;
  }

  /** `parse_input`, with the intended shape check: one pass over the lines
      and their characters, then the shape and the start and end. The
      source panics on an input without lines (`width.unwrap()`). */
  method ParseInput(input: string) returns (r: Result<HeightMap>)
    requires Lines(input) != []
    ensures r == ParseLines(Lines(input))
  {
    var ls := Lines(input);
    var start: Option<Pos> := None;
    var end: Option<Pos> := None;
    var width: Option<nat> := None;
    var height := 0;
    var sameWidth := true;
    var cells: seq<nat> := [];
    assert ls[..0] == [];
    for y := 0 to |ls|
      invariant Scanned(ls, y, start, end, width, height, sameWidth, cells)
    {
      var err;
      err, start, end, width, height, sameWidth, cells := ScanStep(ls, y, start, end, width, height, sameWidth, cells);
      if err.Some? {
        return Err(err.value);
      }
    }
    assert ls[..|ls|] == ls;
    r := Finish(ls, start, end, width.value, height, sameWidth, cells);
  }

  /** After the scan: the shape, then the start, then the end. */
  method Finish(ls: seq<string>, start: Option<Pos>, end: Option<Pos>, width: nat, height: nat,
                sameWidth: bool, cells: seq<nat>) returns (r: Result<HeightMap>)
    requires Scanned(ls, |ls|, start, end, Some(width), height, sameWidth, cells)
    ensures r == ParseLines(ls)
  {
    assert ls[..|ls|] == ls;
    if |cells| != width * height || !sameWidth {
      return Err(ShapeError());
    }
    if start.None? {
      return Err("No start found");
    }
    if end.None? {
      return Err("No end found");
    }
    r := Ok(HeightMap(start.value, end.value, Shape(cells, width, height)));
  }

  // ---------------------------------------------------------------------
  // Neighbours

  /** Climbing from the start (`Up`) or descending from the end (`Down`). */
  datatype Dir = Up | Down

  /** `u8::saturating_sub`. */
  function SatSub(a: nat, b: nat): nat { if a >= b then a - b else 0 }

  /** One candidate step by (`dx`, `dy`): dropped when a coordinate would
      be negative, when it leaves the grid, or when the height difference
      in the search's direction is more than 1. */
  function Candidate(g: seq<seq<nat>>, w: nat, p: Pos, dir: Dir, dx: int, dy: int): Option<Pos>
    requires Rect(g, w) && p.0 < |g| && p.1 < w
  {
    var nx, ny := p.0 + dx, p.1 + dy;
    if nx < 0 || ny < 0 then None
    else if !(nx < |g| && ny < w) then None
    else
      var current, next := g[p.0][p.1], g[nx][ny];
      var dist := match dir
        case Up => SatSub(next, current)
        case Down => SatSub(current, next);
      if dist <= 1 then Some((nx as nat, ny as nat)) else None
  }

  function AsSeq(o: Option<Pos>): seq<Pos> {
    if o.Some? then [o.value] else []
  }

  /** `neighbours`: the kept candidates among the four orthogonal steps, in
      the source's order. */
  function Neighbours(g: seq<seq<nat>>, w: nat, p: Pos, dir: Dir): (r: seq<Pos>)
    requires Rect(g, w) && p.0 < |g| && p.1 < w
    ensures |r| <= 4
    ensures forall k | 0 <= k < |r| :: r[k].0 < |g| && r[k].1 < w && Adjacent(p, r[k])
  {
    AsSeq(Candidate(g, w, p, dir, 1, 0)) + AsSeq(Candidate(g, w, p, dir, -1, 0))
    + AsSeq(Candidate(g, w, p, dir, 0, 1)) + AsSeq(Candidate(g, w, p, dir, 0, -1))
  }

  function Abs(x: int): nat { if x < 0 then -x else x }

  /** `q` is one orthogonal step from `p`. */
  predicate Adjacent(p: Pos, q: Pos) {
    Abs(p.0 - q.0) + Abs(p.1 - q.1) == 1
  }

  /** The height condition of a step in direction `dir`. */
  predicate CanStep(g: seq<seq<nat>>, w: nat, p: Pos, q: Pos, dir: Dir)
    requires Rect(g, w) && p.0 < |g| && p.1 < w && q.0 < |g| && q.1 < w
  {
    match dir
    case Up => g[q.0][q.1] <= g[p.0][p.1] + 1
    case Down => g[p.0][p.1] <= g[q.0][q.1] + 1
  }

  /** Descending from `p` to `q` is allowed exactly when climbing from `q`
      to `p` is. */
  lemma CanStepDual(g: seq<seq<nat>>, w: nat, p: Pos, q: Pos)
    requires Rect(g, w) && p.0 < |g| && p.1 < w && q.0 < |g| && q.1 < w
    ensures CanStep(g, w, p, q, Down) <==> CanStep(g, w, q, p, Up)
  {
  }

  /** The neighbours are exactly the adjacent cells inside the grid that
      the height condition allows: climbing at most one up, or descending
      at most one down. */
  lemma NeighboursMeaning(g: seq<seq<nat>>, w: nat, p: Pos, dir: Dir, q: Pos)
    requires Rect(g, w) && p.0 < |g| && p.1 < w
    ensures q in Neighbours(g, w, p, dir) <==>
              q.0 < |g| && q.1 < w && Adjacent(p, q) && CanStep(g, w, p, q, dir)
  {
    if q.0 < |g| && q.1 < w && Adjacent(p, q) && CanStep(g, w, p, q, dir) {
      if q.0 == p.0 + 1 {
        assert Candidate(g, w, p, dir, 1, 0) == Some(q);
      } else if q.0 + 1 == p.0 {
        assert Candidate(g, w, p, dir, -1, 0) == Some(q);
      } else if q.1 == p.1 + 1 {
        assert Candidate(g, w, p, dir, 0, 1) == Some(q);
      } else {
        assert Candidate(g, w, p, dir, 0, -1) == Some(q);
      }
    }
  }

  /** Descending from `p` to `q` is climbing from `q` to `p`: the backward
      search of part 2 walks the same edges as the forward one, reversed. */
  lemma Duality(g: seq<seq<nat>>, w: nat, p: Pos, q: Pos)
    requires Rect(g, w) && p.0 < |g| && p.1 < w && q.0 < |g| && q.1 < w
    ensures q in Neighbours(g, w, p, Down) <==> p in Neighbours(g, w, q, Up)
  {
    NeighboursMeaning(g, w, p, Down, q);
    NeighboursMeaning(g, w, q, Up, p);
  }
}
