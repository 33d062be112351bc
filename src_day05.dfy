/** Supply stacks (src/bin/day05.rs): stacks of crates, a list of moves, and
    the top crate of every stack after a crane has carried out the moves,
    either one crate at a time or a whole block at once. */
module SrcDay05 {
  import opened Wrappers
  import opened Text

  /** `Move`: carry `amount` crates from stack `from` to stack `to`. */
  datatype Move = Move(amount: nat, from: nat, to: nat)

  /** A stack is its crates bottom first, as the `Vec<char>` of the source. */
  type Stack = string

  // ---------------------------------------------------------------------
  // Moving crates

  /** `get_both`: the elements at two different positions of a slice, found by
      splitting it at the larger position; the `assert_ne!` and the slice
      indexing panic otherwise. */
  function GetBoth<T>(sli: seq<T>, a: nat, b: nat): (r: (T, T))
    requires a != b && a < |sli| && b < |sli|
    ensures r.0 == sli[a] && r.1 == sli[b]
  {
    if a < b then
      var (front, back) := (sli[..b], sli[b..]);
      (front[a], back[0])
    else
      var (front, back) := (sli[..a], sli[a..]);
      (back[0], front[b])
  }

  function Reversed(s: string): (r: string)
    ensures |r| == |s| && forall i | 0 <= i < |s| :: r[i] == s[|s| - 1 - i]
  {
    if s == [] then [] else Reversed(s[1..]) + [s[0]]
  }

  /** What a move needs so that `apply_moves` does not panic: two different
      stacks that exist, and no more crates taken than `from` holds
      (`from.len() - amount` underflows otherwise). */
  predicate CanMove(stacks: seq<Stack>, m: Move) {
    m.from != m.to && m.from < |stacks| && m.to < |stacks| && m.amount <= |stacks[m.from]|
  }

  /** The top `amount` crates of a stack, bottom first. */
  function TopBlock(s: Stack, amount: nat): Stack
    requires amount <= |s|
  {
    s[|s| - amount..]
  }

  /** One move of `apply_moves`: the top block leaves `from` and lands on `to`,
      reversed unless the crane picks up several crates at once. */
  function Step(stacks: seq<Stack>, m: Move, pickupMultiple: bool): (r: seq<Stack>)
    requires CanMove(stacks, m)
    ensures |r| == |stacks|
  {
    var (from, to) := GetBoth(stacks, m.from, m.to);
    var start := |from| - m.amount;
    var moved := if pickupMultiple then from[start..] else Reversed(from[start..]);
    stacks[m.from := from[..start]][m.to := to + moved]
  }

  /** A move takes the top `amount` crates off `from`, puts them on `to`,
      reversed for the crane that carries one crate at a time, and leaves every
      other stack as it was. */
  lemma StepEffect(stacks: seq<Stack>, m: Move, pickupMultiple: bool)
    requires CanMove(stacks, m)
    ensures var r := Step(stacks, m, pickupMultiple);
      && (forall k | 0 <= k < |r| && k != m.from && k != m.to :: r[k] == stacks[k])
      && r[m.from] + TopBlock(stacks[m.from], m.amount) == stacks[m.from]
      && r[m.to] == stacks[m.to] + if pickupMultiple then TopBlock(stacks[m.from], m.amount)
                                   else Reversed(TopBlock(stacks[m.from], m.amount))
  {
    var f := stacks[m.from];
    assert f[..|f| - m.amount] + f[|f| - m.amount..] == f;
  }

  /** All moves in order, or None when one of them would panic. */
  function Run(stacks: seq<Stack>, moves: seq<Move>, pickupMultiple: bool): (r: Option<seq<Stack>>)
    ensures r.Some? ==> |r.value| == |stacks|
    decreases |moves|
  {
    if moves == [] then Some(stacks)
    else if !CanMove(stacks, moves[0]) then None
    else Run(Step(stacks, moves[0], pickupMultiple), moves[1..], pickupMultiple)
  }

  function Last(s: Stack): char
    requires s != []
  {
    s[|s| - 1]
  }

  /** `stacks.iter().filter_map(|s| s.last()).collect()`: the top crate of each
      non-empty stack, in stack order. */
  function Tops(stacks: seq<Stack>): (r: string)
    ensures |r| <= |stacks|
    ensures (forall k | 0 <= k < |stacks| :: stacks[k] != [])
            ==> |r| == |stacks| && forall k | 0 <= k < |stacks| :: r[k] == Last(stacks[k])
  {
    if stacks == [] then []
    else
      var r := (if stacks[0] == [] then [] else [Last(stacks[0])]) + Tops(stacks[1..]);
      assert forall k | 0 < k < |stacks| :: stacks[k] == stacks[1..][k - 1];
      r
  }

  /** `apply_moves`: run the moves on a copy of the stacks and read off the tops. */
  method ApplyMoves(stacks: seq<Stack>, moves: seq<Move>, pickupMultiple: bool) returns (tops: string)
    requires Run(stacks, moves, pickupMultiple).Some?
    ensures tops == Tops(Run(stacks, moves, pickupMultiple).value)
  {
    var a := new Stack[|stacks|](k requires 0 <= k < |stacks| => stacks[k]);
    assert a[..] == stacks;
    var i := 0;
    while i < |moves|
      invariant 0 <= i <= |moves|
      invariant a.Length == |stacks|
      invariant Run(a[..], moves[i..], pickupMultiple) == Run(stacks, moves, pickupMultiple)
    {
      var m := moves[i];
      assert CanMove(a[..], m)
             && Run(Step(a[..], m, pickupMultiple), moves[i + 1..], pickupMultiple) == Run(a[..], moves[i..], pickupMultiple)
        by { assert moves[i..][0] == m && moves[i..][1..] == moves[i + 1..]; }
      MoveInPlace(a, m, pickupMultiple);
      i := i + 1;
    }
    assert moves[i..] == [];
    tops := Tops(a[..]);
  }

  /** The body of the loop of `apply_moves`: take the block off the source
      stack and put it, reversed or not, on the target stack. */
  method MoveInPlace(a: array<Stack>, m: Move, pickupMultiple: bool)
    requires CanMove(a[..], m)
    modifies a
    ensures a[..] == Step(old(a[..]), m, pickupMultiple)
  {
    ghost var before := a[..];
    var (from, to) := GetBoth(a[..], m.from, m.to);
    var start := |from| - m.amount;
    var moved := if pickupMultiple then from[start..] else Reversed(from[start..]);
    a[m.from] := from[..start];
    a[m.to] := to + moved;
    StepAsUpdate(before, m, pickupMultiple);
  }

  // ---------------------------------------------------------------------
  // What the moves keep and how the two cranes relate

  /** The number of crates over all stacks. */
  function Total(stacks: seq<Stack>): nat {
    if stacks == [] then 0 else |stacks[0]| + Total(stacks[1..])
  }

  lemma {:induction false} TotalUpdate(stacks: seq<Stack>, k: nat, s: Stack)
    requires k < |stacks|
    ensures Total(stacks[k := s]) + |stacks[k]| == Total(stacks) + |s|
  {
    if k > 0 {
      assert stacks[k := s][1..] == stacks[1..][k - 1 := s];
      TotalUpdate(stacks[1..], k - 1, s);
    }
  }

  /** A move neither creates nor destroys crates. */
  lemma StepTotal(stacks: seq<Stack>, m: Move, pickupMultiple: bool)
    requires CanMove(stacks, m)
    ensures Total(Step(stacks, m, pickupMultiple)) == Total(stacks)
  {
    var r := Step(stacks, m, pickupMultiple);
    var mid := stacks[m.from := r[m.from]];
    assert r == mid[m.to := r[m.to]];
    TotalUpdate(stacks, m.from, r[m.from]);
    TotalUpdate(mid, m.to, r[m.to]);
  }

  /** All the moves together keep the number of crates. */
  lemma {:induction false} RunTotal(stacks: seq<Stack>, moves: seq<Move>, pickupMultiple: bool)
    requires Run(stacks, moves, pickupMultiple).Some?
    ensures Total(Run(stacks, moves, pickupMultiple).value) == Total(stacks)
    decreases |moves|
  {
    if moves != [] {
      StepTotal(stacks, moves[0], pickupMultiple);
      RunTotal(Step(stacks, moves[0], pickupMultiple), moves[1..], pickupMultiple);
    }
  }

  /** A move of a single crate is the same for both cranes. */
  lemma SingleCrateMove(stacks: seq<Stack>, m: Move)
    requires CanMove(stacks, m) && m.amount <= 1
    ensures Step(stacks, m, false) == Step(stacks, m, true)
  {
    var b := TopBlock(stacks[m.from], m.amount);
    assert Reversed(b) == b by {
      if m.amount == 1 { assert Reversed(b)[0] == b[0]; }
    }
  }

  /** `amount` moves of one crate each from `from` to `to`. */
  function OneByOne(stacks: seq<Stack>, from: nat, to: nat, amount: nat): (r: seq<Stack>)
    requires from != to && from < |stacks| && to < |stacks| && amount <= |stacks[from]|
    decreases amount
  {
    if amount == 0 then stacks
    else OneByOne(Step(stacks, Move(1, from, to), false), from, to, amount - 1)
  }

  /** The crane that picks up one crate at a time: a move of `amount` crates
      is `amount` moves of one crate, which is why the block lands reversed. */
  lemma {:induction false} OneAtATime(stacks: seq<Stack>, m: Move)
    requires CanMove(stacks, m)
    ensures Step(stacks, m, false) == OneByOne(stacks, m.from, m.to, m.amount)
    decreases m.amount
  {
    if m.amount > 0 {
      var s1 := Step(stacks, Move(1, m.from, m.to), false);
      var rest := Move(m.amount - 1, m.from, m.to);
      FirstCrateThenRest(stacks, m);
      OneAtATime(s1, rest);
      assert OneByOne(stacks, m.from, m.to, m.amount) == OneByOne(s1, m.from, m.to, m.amount - 1);
    } else {
      var f, t := stacks[m.from], stacks[m.to];
      assert f[..|f|] == f && f[|f|..] == [] && t + Reversed([]) == t;
      assert Step(stacks, m, false) == stacks[m.from := f][m.to := t];
    }
  }

  /** Moving the top crate first, and then the rest of the block. */
  lemma FirstCrateThenRest(stacks: seq<Stack>, m: Move)
    requires CanMove(stacks, m) && m.amount > 0
    ensures var s1 := Step(stacks, Move(1, m.from, m.to), false);
      CanMove(s1, Move(m.amount - 1, m.from, m.to))
      && Step(stacks, m, false) == Step(s1, Move(m.amount - 1, m.from, m.to), false)
  {
    StepAsUpdate(stacks, Move(1, m.from, m.to), false);
    StepAsUpdate(stacks, m, false);
    var s1 := Step(stacks, Move(1, m.from, m.to), false);
    StepAsUpdate(s1, Move(m.amount - 1, m.from, m.to), false);
    FirstThenRestUpdate(stacks, m.from, m.to, m.amount);
  }

  /** `FirstCrateThenRest` on the update form of a move. */
  lemma FirstThenRestUpdate(stacks: seq<Stack>, i: nat, j: nat, n: nat)
    requires i != j && i < |stacks| && j < |stacks| && 0 < n <= |stacks[i]|
    ensures var f, t := stacks[i], stacks[j];
      var s1 := stacks[i := f[..|f| - 1]][j := t + Reversed(f[|f| - 1..])];
      var g := s1[i];
      s1[i := g[..|g| - (n - 1)]][j := s1[j] + Reversed(g[|g| - (n - 1)..])]
      == stacks[i := f[..|f| - n]][j := t + Reversed(f[|f| - n..])]
  {
    var f, t := stacks[i], stacks[j];
    var l := |f|;
    var f1, t1 := f[..l - 1], t + [f[l - 1]];
    ReversedSingle(f[l - 1]);
    assert f[l - 1..] == [f[l - 1]];
    var s1 := stacks[i := f1][j := t1];
    assert s1[i] == f1 && s1[j] == t1 && |f1| - (n - 1) == l - n;
    BlockRest(f, t, n);
    UpdateBoth(stacks, i, j, f1, t1, f[..l - n], t + Reversed(f[l - n..]));
  }

  /** On the stacks themselves: what is left below the block, and the block
      reversed as its top crate first and then the rest. */
  lemma BlockRest(f: Stack, t: Stack, n: nat)
    requires 0 < n <= |f|
    ensures var l := |f|;
      f[..l - 1][..l - n] == f[..l - n]
      && t + [f[l - 1]] + Reversed(f[..l - 1][l - n..]) == t + Reversed(f[l - n..])
  {
    var l := |f|;
    assert f[..l - 1][l - n..] == f[l - n..l - 1];
    assert f[l - n..] == f[l - n..l - 1] + [f[l - 1]];
    ReversedSnoc(f[l - n..l - 1], f[l - 1]);
  }

  /** A move as two updates: the source stack loses its top block and the
      target stack gains it, reversed or not. */
  lemma StepAsUpdate(stacks: seq<Stack>, m: Move, pickupMultiple: bool)
    requires CanMove(stacks, m)
    ensures var f := stacks[m.from];
      Step(stacks, m, pickupMultiple)
      == stacks[m.from := f[..|f| - m.amount]]
               [m.to := stacks[m.to] + if pickupMultiple then f[|f| - m.amount..] else Reversed(f[|f| - m.amount..])]
  {
  }

  /** Updating two positions a second time overrides the first updates. */
  lemma UpdateBoth<T>(s: seq<T>, i: nat, j: nat, a: T, b: T, c: T, d: T)
    requires i != j && i < |s| && j < |s|
    ensures s[i := a][j := b][i := c][j := d] == s[i := c][j := d]
  {
  }

  lemma ReversedSingle(x: char)
    ensures Reversed([x]) == [x]
  {
    assert Reversed([x])[0] == x;
  }

  lemma ReversedSnoc(s: string, x: char)
    ensures Reversed(s + [x]) == [x] + Reversed(s)
  {
    var a, b := Reversed(s + [x]), [x] + Reversed(s);
    assert forall i | 0 < i < |a| :: a[i] == (s + [x])[|s| - i] == s[|s| - 1 - (i - 1)] == b[i];
  }

  /** The placeholder stack in front, and any other empty stack, adds nothing
      to the answer: the tops of joined stacks are the joined tops. */
  lemma {:induction false} TopsAppend(a: seq<Stack>, b: seq<Stack>)
    ensures Tops(a + b) == Tops(a) + Tops(b)
  {
    if a != [] {
      assert (a + b)[1..] == a[1..] + b;
      TopsAppend(a[1..], b);
    } else {
      assert a + b == b;
    }
  }

  /** How many of the stacks before index `k` hold a crate. */
  ghost function NonEmptyBefore(stacks: seq<Stack>, k: nat): nat
    requires k <= |stacks|
  {
    |set j | 0 <= j < k && stacks[j] != []|
  }

  /** The answer has one char per non-empty stack: the top of each, in stack
      order, so that an empty stack, such as the placeholder at index 0, adds
      nothing. */
  lemma {:induction false} TopsMeaning(stacks: seq<Stack>)
    ensures |Tops(stacks)| == NonEmptyBefore(stacks, |stacks|)
    ensures forall k | 0 <= k < |stacks| && stacks[k] != [] ::
              NonEmptyBefore(stacks, k) < |Tops(stacks)| && Tops(stacks)[NonEmptyBefore(stacks, k)] == Last(stacks[k])
  {
    if stacks != [] {
      var n := |stacks| - 1;
      var init := stacks[..n];
      assert init + [stacks[n]] == stacks;
      TopsMeaning(init);
      TopsAppend(init, [stacks[n]]);
      var t, ti := Tops(stacks), Tops(init);
      assert t == ti + (if stacks[n] == [] then [] else [Last(stacks[n])]);
      NonEmptyBeforeStep(stacks, n);
      NonEmptyBeforePrefix(stacks, n, n);
      forall k | 0 <= k < |stacks| && stacks[k] != []
        ensures NonEmptyBefore(stacks, k) < |t| && t[NonEmptyBefore(stacks, k)] == Last(stacks[k])
      {
        if k < n {
          NonEmptyBeforePrefix(stacks, k, n);
          assert init[k] == stacks[k];
        }
      }
    }
  }

  /** Counting in the first `m` stacks or in all of them gives the same
      count below `k <= m`. */
  lemma NonEmptyBeforePrefix(stacks: seq<Stack>, k: nat, m: nat)
    requires k <= m <= |stacks|
    ensures NonEmptyBefore(stacks, k) == NonEmptyBefore(stacks[..m], k)
  {
    assert (set j | 0 <= j < k && stacks[j] != []) == (set j | 0 <= j < k && stacks[..m][j] != []);
  }

  /** One more stack adds one to the count when it holds a crate. */
  lemma NonEmptyBeforeStep(stacks: seq<Stack>, n: nat)
    requires n < |stacks|
    ensures NonEmptyBefore(stacks, n + 1) == NonEmptyBefore(stacks, n) + (if stacks[n] != [] then 1 else 0)
  {
    var all := set j | 0 <= j < n + 1 && stacks[j] != [];
    var before := set j | 0 <= j < n && stacks[j] != [];
    if stacks[n] != [] {
      assert all == before + {n};
    } else {
      assert all == before;
    }
  }

  // ---------------------------------------------------------------------
  // Parsing the stacks

  /** Word `p` of the index row reads `p + 1`. */
  predicate IndexReads(ws: seq<string>, p: nat)
    requires p < |ws|
  {
    ParseNatUpTo(ws[p], USizeMax) == Ok(p + 1)
  }

  /** The error for a word of the index row that does not read its position. */
  function IndexError(w: string): string {
    if ParseNatUpTo(w, USizeMax).Err? then "Stack index " + Quoted(w) + " is not an int"
    else "Indecies do not match 1,2,3,.."
  }

  /** The check on word `pos` of the index row: it passes iff the word reads
      `pos + 1`, and fails with the error for that word. */
  function CheckIndex(pos: nat, w: string): (r: Result<nat>)
    ensures r.Ok? <==> ParseNatUpTo(w, USizeMax) == Ok(pos + 1)
    ensures r.Err? ==> r.error == IndexError(w)
  {
    match ParseNatUpTo(w, USizeMax)
    case Err(_) => Err("Stack index " + Quoted(w) + " is not an int")
    case Ok(idx) => if pos + 1 != idx then Err("Indecies do not match 1,2,3,..") else Ok(idx)
  }

  /** Every word of `ws[p..]` reads its position. */
  predicate AllRead(ws: seq<string>, p: nat) {
    forall q | p <= q < |ws| :: IndexReads(ws, q)
  }

  /** Word `q` is the first of `ws[p..]` that does not read its position. */
  predicate FirstBad(ws: seq<string>, p: nat, q: nat) {
    p <= q < |ws| && !IndexReads(ws, q) && forall q' | p <= q' < q :: IndexReads(ws, q')
  }

  /** `collect` over the checks of the words `ws[p..]`: the error of the first
      word that fails, or None when all pass. */
  function FirstIndexError(ws: seq<string>, p: nat): (r: Option<string>)
    requires p <= |ws|
    ensures r.None? <==> AllRead(ws, p)
    ensures r.Some? ==> exists q: nat :: FirstBad(ws, p, q) && r.value == IndexError(ws[q])
    decreases |ws| - p
  {
    if p == |ws| then None
    else match CheckIndex(p, ws[p])
      case Err(e) =>
        assert FirstBad(ws, p, p) && e == IndexError(ws[p]);
        Some(e)
      case Ok(_) =>
        assert IndexReads(ws, p);
        var rest := FirstIndexError(ws, p + 1);
        if rest.Some? then
          var q: nat :| FirstBad(ws, p + 1, q) && rest.value == IndexError(ws[q]);
          assert FirstBad(ws, p, q);
          rest
        else rest
  }

  /** The number of stacks the bottom row names: its words must read 1, 2, 3, …;
      otherwise the error is about the first word that does not. */
  function StackCount(indexRow: string): (r: Result<nat>)
    ensures var ws := SplitWhitespace(indexRow);
            r.Ok? <==> AllRead(ws, 0)
    ensures r.Ok? ==> r.value == |SplitWhitespace(indexRow)|
    ensures r.Err? ==> var ws := SplitWhitespace(indexRow);
      exists p: nat :: FirstBad(ws, 0, p) && r.error == IndexError(ws[p])
  {
    var ws := SplitWhitespace(indexRow);
    var e := FirstIndexError(ws, 0);
    if e.Some? then
      assert !AllRead(ws, 0);
      Err(e.value)
    else
      assert AllRead(ws, 0);
      Ok(|ws|)
  }

  /** A row of crates as the stack-line regex splits it: one entry per column,
      `Some(text)` for a crate `[text]` and `None` for air. */
  type Row = seq<Option<string>>

  /** Every crate of `row[col..]` stands in one of `count` columns and holds one char. */
  predicate RowFits(row: Row, col: nat, count: nat) {
    forall c | col <= c < |row| && row[c].Some? :: c < count && |row[c].value| == 1
  }

  /** What row `row` puts on the stack of column `c`. */
  function CrateAt(row: Row, c: nat): Stack {
    if c < |row| && row[c].Some? && row[c].value != [] then [row[c].value[0]] else []
  }

  /** What the row puts on column `c` when it is pushed from column `col` on. */
  function CrateFrom(row: Row, col: nat, c: nat): Stack {
    if col <= c then CrateAt(row, c) else []
  }

  function ColumnError(maxLen: nat, col: nat): string {
    "Unexpected number of columns of boxes... expected max " + NatToString(maxLen) + " got " + NatToString(col)
  }

  function BoxError(b: string): string {
    "Box contains not exactly one item: " + Quoted(b)
  }

  /** The inner loop of `parse_stacks`: push the crates of `row[col..]`, column
      `c` onto stack `c + 1`. */
  function PushRow(stacks: seq<Stack>, row: Row, col: nat): Result<seq<Stack>>
    requires col <= |row|
    decreases |row| - col
  {
    if col == |row| then Ok(stacks)
    else match row[col]
      case None => PushRow(stacks, row, col + 1)
      case Some(b) =>
        if col + 1 >= |stacks| then Err(ColumnError(|stacks|, col))
        else if |b| != 1 then Err(BoxError(b))
        else PushRow(stacks[col + 1 := stacks[col + 1] + [b[0]]], row, col + 1)
  }

  /** Continue with the rows `rows[..j]` once a row is done (or failed). */
  function ThenRows(r: Result<seq<Stack>>, rows: seq<Row>, j: nat): Result<seq<Stack>>
    requires j <= |rows|
    decreases j, 2
  {
    match r
    case Err(e) => Err(e)
    case Ok(s) => PushRows(s, rows, j)
  }

  /** The outer loop of `parse_stacks`: the rows `rows[..j]`, lowest first,
      i.e. `rows[j - 1]` first and `rows[0]` last. */
  function PushRows(stacks: seq<Stack>, rows: seq<Row>, j: nat): Result<seq<Stack>>
    requires j <= |rows|
    decreases j, 1
  {
    if j == 0 then Ok(stacks) else ThenRows(PushRow(stacks, rows[j - 1], 0), rows, j - 1)
  }

  /** Column `c` of the rows `rows[..j]`, read from the bottom up. */
  function Pile(rows: seq<Row>, c: nat, j: nat): Stack
    requires j <= |rows|
  {
    if j == 0 then [] else CrateAt(rows[j - 1], c) + Pile(rows, c, j - 1)
  }

  /** `after` is `before` with the crates of `row[col..]` on top, each on the
      stack after its column; stack 0 and the number of stacks are kept. */
  predicate RowPushed(before: seq<Stack>, after: seq<Stack>, row: Row, col: nat) {
    |after| == |before| >= 1 && after[0] == before[0]
    && forall k | 1 <= k < |before| :: after[k] == before[k] + CrateFrom(row, col, k - 1)
  }

  /** `after` is `before` with column `k - 1` of `rows[..j]` on each stack `k >= 1`. */
  predicate RowsPiled(before: seq<Stack>, after: seq<Stack>, rows: seq<Row>, j: nat)
    requires j <= |rows|
  {
    |after| == |before| >= 1 && after[0] == before[0]
    && forall k | 1 <= k < |before| :: after[k] == before[k] + Pile(rows, k - 1, j)
  }

  /** One row succeeds iff its crates fit and are single chars, and then it
      puts each crate on its stack. */
  lemma {:induction false} PushRowMeaning(stacks: seq<Stack>, row: Row, col: nat)
    requires col <= |row| && |stacks| >= 1
    ensures PushRow(stacks, row, col).Ok? <==> RowFits(row, col, |stacks| - 1)
    ensures PushRow(stacks, row, col).Ok? ==> RowPushed(stacks, PushRow(stacks, row, col).value, row, col)
    decreases |row| - col
  {
    if col < |row| {
      match row[col]
      case None =>
        PushRowMeaning(stacks, row, col + 1);
        assert forall c :: CrateFrom(row, col, c) == CrateFrom(row, col + 1, c);
      case Some(b) =>
        if col + 1 < |stacks| && |b| == 1 {
          var s := stacks[col + 1 := stacks[col + 1] + [b[0]]];
          PushRowMeaning(s, row, col + 1);
          if PushRow(s, row, col + 1).Ok? {
            var t := PushRow(s, row, col + 1).value;
            forall k | 1 <= k < |stacks|
              ensures t[k] == stacks[k] + CrateFrom(row, col, k - 1)
            {
              if k == col + 1 {
                assert CrateFrom(row, col + 1, k - 1) == [];
                assert t[k] == s[k] + [];
              } else {
                assert CrateFrom(row, col, k - 1) == CrateFrom(row, col + 1, k - 1);
              }
            }
          }
        }
    }
  }

  /** All rows succeed iff every row fits; each stack `c + 1` then holds column
      `c` bottom up on top of what it held, and stack 0 is left as it was. */
  lemma {:induction false} PushRowsMeaning(stacks: seq<Stack>, rows: seq<Row>, j: nat)
    requires j <= |rows| && |stacks| >= 1
    ensures PushRows(stacks, rows, j).Ok? <==> forall i | 0 <= i < j :: RowFits(rows[i], 0, |stacks| - 1)
    ensures PushRows(stacks, rows, j).Ok? ==> RowsPiled(stacks, PushRows(stacks, rows, j).value, rows, j)
    decreases j
  {
    if j > 0 {
      var row, n := rows[j - 1], |stacks| - 1;
      PushRowMeaning(stacks, row, 0);
      assert (forall i | 0 <= i < j :: RowFits(rows[i], 0, n))
             <==> RowFits(row, 0, n) && forall i | 0 <= i < j - 1 :: RowFits(rows[i], 0, n);
      if PushRow(stacks, row, 0).Ok? {
        var s := PushRow(stacks, row, 0).value;
        assert |s| == |stacks|;
        assert PushRows(stacks, rows, j) == PushRows(s, rows, j - 1);
        PushRowsMeaning(s, rows, j - 1);
        if PushRows(s, rows, j - 1).Ok? {
          PiledOnPushed(stacks, s, PushRows(s, rows, j - 1).value, rows, j);
        }
      } else {
        assert PushRows(stacks, rows, j).Err?;
      }
    }
  }

  /** A row pushed and then the rows above it piled make the rows piled. */
  lemma PiledOnPushed(stacks: seq<Stack>, s: seq<Stack>, t: seq<Stack>, rows: seq<Row>, j: nat)
    requires 0 < j <= |rows|
    requires RowPushed(stacks, s, rows[j - 1], 0) && RowsPiled(s, t, rows, j - 1)
    ensures RowsPiled(stacks, t, rows, j)
  {
    forall k | 1 <= k < |stacks|
      ensures t[k] == stacks[k] + Pile(rows, k - 1, j)
    {
      assert t[k] == stacks[k] + CrateAt(rows[j - 1], k - 1) + Pile(rows, k - 1, j - 1);
    }
  }

  /** The crate rows above the index row, as the regex splits them. */
  function CrateRows(lines: seq<string>, crates: string -> Row): (rows: seq<Row>)
    requires lines != []
    ensures |rows| == |lines| - 1 && forall i | 0 <= i < |rows| :: rows[i] == crates(lines[i])
  {
    seq(|lines| - 1, i requires 0 <= i < |lines| - 1 => crates(lines[i]))
  }

  /** `n` empty stacks. */
  function Empties(n: nat): (r: seq<Stack>)
    ensures |r| == n && forall k | 0 <= k < n :: r[k] == []
  {
    seq(n, _ => [])
  }

  /** What `parse_stacks` computes from the stack lines: the last line is the
      index row, and `crates` is the stack-line regex. */
  function StacksOf(lines: seq<string>, crates: string -> Row): Result<seq<Stack>> {
    if lines == [] then Err("Stacks were empty")
    else match StackCount(lines[|lines| - 1])
      case Err(e) => Err(e)
      case Ok(n) => PushRows(Empties(n + 1), CrateRows(lines, crates), |lines| - 1)
  }

  /** Pushing rows onto `n + 1` empty stacks: stack `k >= 1` ends up holding
      exactly column `k - 1` of the rows, bottom up. */
  lemma PileFromEmpty(n: nat, rows: seq<Row>, j: nat)
    requires j <= |rows|
    ensures PushRows(Empties(n + 1), rows, j).Ok? <==> forall i | 0 <= i < j :: RowFits(rows[i], 0, n)
    ensures PushRows(Empties(n + 1), rows, j).Ok? ==>
              var st := PushRows(Empties(n + 1), rows, j).value;
              |st| == n + 1 && st[0] == [] && forall k | 1 <= k <= n :: st[k] == Pile(rows, k - 1, j)
  {
    var empty := Empties(n + 1);
    PushRowsMeaning(empty, rows, j);
    if PushRows(empty, rows, j).Ok? {
      var st := PushRows(empty, rows, j).value;
      forall k | 1 <= k <= n
        ensures st[k] == Pile(rows, k - 1, j)
      {
        assert st[k] == empty[k] + Pile(rows, k - 1, j);
        assert empty[k] == [];
      }
    }
  }

  /** Once the index row is read, the stacks are the rows pushed onto empty ones. */
  lemma StacksOfFromCount(lines: seq<string>, crates: string -> Row, n: nat)
    requires lines != [] && StackCount(lines[|lines| - 1]) == Ok(n)
    ensures StacksOf(lines, crates) == PushRows(Empties(n + 1), CrateRows(lines, crates), |lines| - 1)
  {
  }

  /** `parse_stacks` fails on no lines, and with the index row's error when
      that row does not read 1, 2, …, n. */
  lemma StacksOfErrors(lines: seq<string>, crates: string -> Row)
    ensures lines == [] ==> StacksOf(lines, crates) == Err("Stacks were empty")
    ensures lines != [] && StackCount(lines[|lines| - 1]).Err? ==>
              StacksOf(lines, crates) == Err(StackCount(lines[|lines| - 1]).error)
  {
  }

  /** With an index row reading 1, 2, …, n, `parse_stacks` succeeds iff every
      crate stands in one of those n columns and holds one char. Stack 0 is
      the empty placeholder, and stack c + 1 holds column c bottom up. */
  lemma StacksOfMeaning(lines: seq<string>, crates: string -> Row, n: nat)
    requires lines != [] && StackCount(lines[|lines| - 1]) == Ok(n)
    ensures StacksOf(lines, crates).Ok? <==> forall i | 0 <= i < |lines| - 1 :: RowFits(crates(lines[i]), 0, n)
    ensures StacksOf(lines, crates).Ok? ==>
              var st, rows := StacksOf(lines, crates).value, CrateRows(lines, crates);
              |st| == n + 1 && st[0] == []
              && forall k | 1 <= k <= n :: st[k] == Pile(rows, k - 1, |lines| - 1)
  {
    var rows := CrateRows(lines, crates);
    StacksOfFromCount(lines, crates, n);
    PileFromEmpty(n, rows, |lines| - 1);
    assert (forall i | 0 <= i < |lines| - 1 :: RowFits(rows[i], 0, n))
           == (forall i | 0 <= i < |lines| - 1 :: RowFits(crates(lines[i]), 0, n));
  }

  /** The inner loop of `parse_stacks` on one row, in place: the error where
      `PushRow` fails, and otherwise the stacks become `PushRow`'s value. */
  method PushRowInPlace(stacks: array<Stack>, row: Row) returns (err: Option<string>)
    modifies stacks
    ensures var r := PushRow(old(stacks[..]), row, 0);
      match r
      case Err(e) => err == Some(e)
      case Ok(s) => err.None? && stacks[..] == s
  {
    ghost var goal := PushRow(stacks[..], row, 0);
    var col := 0;
    while col < |row|
      invariant 0 <= col <= |row|
      invariant PushRow(stacks[..], row, col) == goal
    {
      ghost var before := stacks[..];
      match row[col] {
        case None =>
        case Some(b) =>
          if col + 1 >= stacks.Length {
            return Some(ColumnError(stacks.Length, col));
          }
          if |b| != 1 {
            return Some(BoxError(b));
          }
          stacks[col + 1] := stacks[col + 1] + [b[0]];
          assert stacks[..] == before[col + 1 := before[col + 1] + [b[0]]];
      }
      col := col + 1;
    }
    return None;
  }

  /** The outer loop of `parse_stacks`, in place: the crate lines from the
      bottom one up, stopping at the first row that fails. */
  method PushLinesInPlace(stacks: array<Stack>, lines: seq<string>, crates: string -> Row)
    returns (r: Result<seq<Stack>>)
    requires lines != []
    modifies stacks
    ensures r == PushRows(old(stacks[..]), CrateRows(lines, crates), |lines| - 1)
  {
    ghost var rows := CrateRows(lines, crates);
    ghost var goal := PushRows(stacks[..], rows, |lines| - 1);
    var j := |lines| - 1;
    while j > 0
      invariant 0 <= j <= |lines| - 1
      invariant PushRows(stacks[..], rows, j) == goal
    {
      j := j - 1;
      var row := crates(lines[j]);
      assert row == rows[j];
      assert PushRows(stacks[..], rows, j + 1) == ThenRows(PushRow(stacks[..], row, 0), rows, j);
      var e := PushRowInPlace(stacks, row);
      if e.Some? {
        return Err(e.value);
      }
    }
    return Ok(stacks[..]);
  }

  /** A fresh array of `n` empty stacks. */
  method NewEmpties(n: nat) returns (a: array<Stack>)
    ensures fresh(a) && a[..] == Empties(n)
  {
    a := new Stack[n](_ => []);
    assert a[..] == Empties(n);
  }

  /** `parse_stacks`, over the stack lines. */
  method ParseStacks(lines: seq<string>, crates: string -> Row) returns (r: Result<seq<Stack>>)
    ensures r == StacksOf(lines, crates)
  {
    StacksOfErrors(lines, crates);
    if lines == [] {
      return Err("Stacks were empty");
    }
    var count := StackCount(lines[|lines| - 1]);
    if count.Err? {
      return Err(count.error);
    }
    var stacks := NewEmpties(count.value + 1);
    StacksOfFromCount(lines, crates, count.value);
    r := PushLinesInPlace(stacks, lines, crates);
  }

  /** Every move line scans. */
  predicate MovesParse(ls: seq<string>, parseMove: string -> Result<Move>) {
    forall i | 0 <= i < |ls| :: parseMove(ls[i]).Ok?
  }

  /** The move lines scanned in order; the first that does not scan gives its error. */
  function MovesOf(ls: seq<string>, parseMove: string -> Result<Move>): (r: Result<seq<Move>>)
    ensures r.Ok? <==> MovesParse(ls, parseMove)
    ensures r.Ok? ==> |r.value| == |ls| && forall i | 0 <= i < |ls| :: Ok(r.value[i]) == parseMove(ls[i])
  {
    var parsed := seq(|ls|, i requires 0 <= i < |ls| => parseMove(ls[i]));
    assert forall i | 0 <= i < |ls| :: parsed[i] == parseMove(ls[i]);
    Collect(parsed)
  }

  /** `parse_input`: the stack lines and the move lines, separated by a blank
      line; `crates` is the stack-line regex and `parseMove` the move scanner. */
  function ParseInput(input: string, crates: string -> Row, parseMove: string -> Result<Move>)
    : (r: Result<(seq<Stack>, seq<Move>)>)
    ensures SplitOnceStr(input, "\n\n").None? ==> r == Err("Input is missing segment seperator...")
    ensures r.Ok? <==> SplitOnceStr(input, "\n\n").Some?
                       && StacksOf(Lines(SplitOnceStr(input, "\n\n").value.0), crates).Ok?
                       && MovesParse(Lines(SplitOnceStr(input, "\n\n").value.1), parseMove)
    ensures r.Ok? ==> var (top, bottom) := SplitOnceStr(input, "\n\n").value;
                      Ok(r.value.0) == StacksOf(Lines(top), crates)
                      && |r.value.1| == |Lines(bottom)|
                      && forall i | 0 <= i < |Lines(bottom)| :: Ok(r.value.1[i]) == parseMove(Lines(bottom)[i])
  {
    match SplitOnceStr(input, "\n\n")
    case None => Err("Input is missing segment seperator...")
    case Some((top, bottom)) =>
      match StacksOf(Lines(top), crates)
      case Err(e) => Err(e)
      case Ok(stacks) =>
        match MovesOf(Lines(bottom), parseMove)
        case Err(e) => Err(e)
        case Ok(moves) => Ok((stacks, moves))
  }

  // ---------------------------------------------------------------------
  // The example of the source's tests

  const ExampleStacks: seq<Stack> := ["", "ZN", "MCD", "P"]

  const ExampleMoves: seq<Move> := [Move(1, 2, 1), Move(3, 1, 3), Move(2, 2, 1), Move(1, 1, 2)]

  /** The example rows, bottom row last, as the regex splits them. */
  const ExampleRows: seq<Row> := [[None, Some("D"), None], [Some("N"), Some("C"), None], [Some("Z"), Some("M"), Some("P")]]

  /** The bottom row of the example puts Z, M and P on the empty stacks. */
  lemma ExampleBottomRow()
    ensures PushRow(["", "", "", ""], [Some("Z"), Some("M"), Some("P")], 0) == Ok(["", "Z", "M", "P"])
  {
    var row: Row := [Some("Z"), Some("M"), Some("P")];
    var s0: seq<Stack> := ["", "", "", ""];
    var s1 := s0[1 := s0[1] + ['Z']];
    var s2 := s1[2 := s1[2] + ['M']];
    var s3 := s2[3 := s2[3] + ['P']];
    assert row[0].value[0] == 'Z' && row[1].value[0] == 'M' && row[2].value[0] == 'P';
    assert PushRow(s0, row, 0) == PushRow(s1, row, 1);
    assert PushRow(s1, row, 1) == PushRow(s2, row, 2);
    assert PushRow(s2, row, 2) == PushRow(s3, row, 3);
    assert s3[1] == "Z" && s3[2] == "M" && s3[3] == "P" && s3[0] == "" && |s3| == 4;
    assert s3 == ["", "Z", "M", "P"];
  }

  /** The middle row puts N and C on the first two stacks. */
  lemma ExampleMiddleRow()
    ensures PushRow(["", "Z", "M", "P"], [Some("N"), Some("C"), None], 0) == Ok(["", "ZN", "MC", "P"])
  {
    var row: Row := [Some("N"), Some("C"), None];
    var s0: seq<Stack> := ["", "Z", "M", "P"];
    var s1 := s0[1 := s0[1] + ['N']];
    var s2 := s1[2 := s1[2] + ['C']];
    assert row[0].value[0] == 'N' && row[1].value[0] == 'C';
    assert PushRow(s0, row, 0) == PushRow(s1, row, 1);
    assert PushRow(s1, row, 1) == PushRow(s2, row, 2);
    assert PushRow(s2, row, 2) == PushRow(s2, row, 3);
    assert s0[1] + ['N'] == "ZN" && s1[2] + ['C'] == "MC";
    assert s2[1] == "ZN" && s2[2] == "MC" && s2[3] == "P" && s2[0] == "" && |s2| == 4;
    assert s2 == ["", "ZN", "MC", "P"];
  }

  /** The top row puts D on the second stack. */
  lemma ExampleTopRow()
    ensures PushRow(["", "ZN", "MC", "P"], [None, Some("D"), None], 0) == Ok(ExampleStacks)
  {
    var row: Row := [None, Some("D"), None];
    var s0: seq<Stack> := ["", "ZN", "MC", "P"];
    var s1 := s0[2 := s0[2] + ['D']];
    assert row[1].value[0] == 'D';
    assert PushRow(s0, row, 0) == PushRow(s0, row, 1);
    assert PushRow(s0, row, 1) == PushRow(s1, row, 2);
    assert PushRow(s1, row, 2) == PushRow(s1, row, 3);
    assert s0[2] + ['D'] == "MCD";
    assert s1[1] == "ZN" && s1[2] == "MCD" && s1[3] == "P" && s1[0] == "" && |s1| == 4;
    assert s1 == ExampleStacks;
  }

  /** The example's rows, pushed bottom row first, give the stacks ZN, MCD and
      P after the placeholder. */
  lemma ExampleParse()
    ensures PushRows(["", "", "", ""], ExampleRows, 3) == Ok(ExampleStacks)
  {
    ExampleBottomRow();
    ExampleMiddleRow();
    ExampleTopRow();
    assert ExampleRows[2] == [Some("Z"), Some("M"), Some("P")];
    assert ExampleRows[1] == [Some("N"), Some("C"), None];
    assert ExampleRows[0] == [None, Some("D"), None];
  }

  lemma ExampleMove1OneByOne()
    ensures Step(["", "ZN", "MCD", "P"], Move(1, 2, 1), false) == ["", "ZND", "MC", "P"]
  {
    ReversedSingle('D');
    StepOnto(["", "ZN", "MCD", "P"], Move(1, 2, 1), false, "MC", "D", "D", ["", "ZND", "MC", "P"]);
  }

  lemma ExampleMove2OneByOne()
    ensures Step(["", "ZND", "MC", "P"], Move(3, 1, 3), false) == ["", "", "MC", "PDNZ"]
  {
    ReversedSnoc("ZN", 'D'); ReversedSnoc("Z", 'N'); ReversedSingle('Z');
    StepOnto(["", "ZND", "MC", "P"], Move(3, 1, 3), false, "", "ZND", "DNZ", ["", "", "MC", "PDNZ"]);
  }

  lemma ExampleMove3OneByOne()
    ensures Step(["", "", "MC", "PDNZ"], Move(2, 2, 1), false) == ["", "CM", "", "PDNZ"]
  {
    ReversedSnoc("M", 'C'); ReversedSingle('M');
    StepOnto(["", "", "MC", "PDNZ"], Move(2, 2, 1), false, "", "MC", "CM", ["", "CM", "", "PDNZ"]);
  }

  lemma ExampleMove4OneByOne()
    ensures Step(["", "CM", "", "PDNZ"], Move(1, 1, 2), false) == ["", "C", "M", "PDNZ"]
  {
    ReversedSingle('M');
    StepOnto(["", "CM", "", "PDNZ"], Move(1, 1, 2), false, "C", "M", "M", ["", "C", "M", "PDNZ"]);
  }

  /** The first two example moves with the one-at-a-time crane. */
  lemma ExampleFirstMovesOneByOne()
    ensures Run(ExampleStacks, ExampleMoves, false) == Run(["", "", "MC", "PDNZ"], [Move(2, 2, 1), Move(1, 1, 2)], false)
  {
    ExampleMove1OneByOne();
    ExampleMove2OneByOne();
    RunStep(["", "ZN", "MCD", "P"], Move(1, 2, 1), [Move(3, 1, 3), Move(2, 2, 1), Move(1, 1, 2)], false, ["", "ZND", "MC", "P"]);
    RunStep(["", "ZND", "MC", "P"], Move(3, 1, 3), [Move(2, 2, 1), Move(1, 1, 2)], false, ["", "", "MC", "PDNZ"]);
  }

  /** The last two example moves with the one-at-a-time crane. */
  lemma ExampleLastMovesOneByOne()
    ensures Run(["", "", "MC", "PDNZ"], [Move(2, 2, 1), Move(1, 1, 2)], false) == Some(["", "C", "M", "PDNZ"])
  {
    ExampleMove3OneByOne();
    ExampleMove4OneByOne();
    RunStep(["", "", "MC", "PDNZ"], Move(2, 2, 1), [Move(1, 1, 2)], false, ["", "CM", "", "PDNZ"]);
    RunStep(["", "CM", "", "PDNZ"], Move(1, 1, 2), [], false, ["", "C", "M", "PDNZ"]);
  }

  /** The example's answer for the crane that carries one crate at a time: CMZ. */
  lemma ExamplePart1()
    ensures Run(ExampleStacks, ExampleMoves, false) == Some(["", "C", "M", "PDNZ"])
    ensures Tops(["", "C", "M", "PDNZ"]) == "CMZ"
  {
    ExampleFirstMovesOneByOne();
    ExampleLastMovesOneByOne();
    TopsAppend([""], ["C", "M", "PDNZ"]);
  }

  lemma ExampleMove1Block()
    ensures Step(["", "ZN", "MCD", "P"], Move(1, 2, 1), true) == ["", "ZND", "MC", "P"]
  {
    StepOnto(["", "ZN", "MCD", "P"], Move(1, 2, 1), true, "MC", "D", "D", ["", "ZND", "MC", "P"]);
  }

  lemma ExampleMove2Block()
    ensures Step(["", "ZND", "MC", "P"], Move(3, 1, 3), true) == ["", "", "MC", "PZND"]
  {
    StepOnto(["", "ZND", "MC", "P"], Move(3, 1, 3), true, "", "ZND", "ZND", ["", "", "MC", "PZND"]);
  }

  lemma ExampleMove3Block()
    ensures Step(["", "", "MC", "PZND"], Move(2, 2, 1), true) == ["", "MC", "", "PZND"]
  {
    StepOnto(["", "", "MC", "PZND"], Move(2, 2, 1), true, "", "MC", "MC", ["", "MC", "", "PZND"]);
  }

  lemma ExampleMove4Block()
    ensures Step(["", "MC", "", "PZND"], Move(1, 1, 2), true) == ["", "M", "C", "PZND"]
  {
    StepOnto(["", "MC", "", "PZND"], Move(1, 1, 2), true, "M", "C", "C", ["", "M", "C", "PZND"]);
  }

  /** The first two example moves with the block crane. */
  lemma ExampleFirstMovesBlock()
    ensures Run(ExampleStacks, ExampleMoves, true) == Run(["", "", "MC", "PZND"], [Move(2, 2, 1), Move(1, 1, 2)], true)
  {
    ExampleMove1Block();
    ExampleMove2Block();
    RunStep(["", "ZN", "MCD", "P"], Move(1, 2, 1), [Move(3, 1, 3), Move(2, 2, 1), Move(1, 1, 2)], true, ["", "ZND", "MC", "P"]);
    RunStep(["", "ZND", "MC", "P"], Move(3, 1, 3), [Move(2, 2, 1), Move(1, 1, 2)], true, ["", "", "MC", "PZND"]);
  }

  /** The last two example moves with the block crane. */
  lemma ExampleLastMovesBlock()
    ensures Run(["", "", "MC", "PZND"], [Move(2, 2, 1), Move(1, 1, 2)], true) == Some(["", "M", "C", "PZND"])
  {
    ExampleMove3Block();
    ExampleMove4Block();
    RunStep(["", "", "MC", "PZND"], Move(2, 2, 1), [Move(1, 1, 2)], true, ["", "MC", "", "PZND"]);
    RunStep(["", "MC", "", "PZND"], Move(1, 1, 2), [], true, ["", "M", "C", "PZND"]);
  }

  /** The example's answer for the crane that carries a whole block at once: MCD. */
  lemma ExamplePart2()
    ensures Run(ExampleStacks, ExampleMoves, true) == Some(["", "M", "C", "PZND"])
    ensures Tops(["", "M", "C", "PZND"]) == "MCD"
  {
    ExampleFirstMovesBlock();
    ExampleLastMovesBlock();
    TopsAppend([""], ["M", "C", "PZND"]);
  }


  /** One move of a run, for evaluating the example. */
  lemma RunStep(stacks: seq<Stack>, m: Move, rest: seq<Move>, pickupMultiple: bool, after: seq<Stack>)
    requires CanMove(stacks, m) && Step(stacks, m, pickupMultiple) == after
    ensures Run(stacks, [m] + rest, pickupMultiple) == Run(after, rest, pickupMultiple)
  {
    assert ([m] + rest)[0] == m && ([m] + rest)[1..] == rest;
  }

  /** A move spelled out, for evaluating the example: the moved block is
      split off the source stack and put, as `moved`, on the target stack. */
  lemma StepOnto(stacks: seq<Stack>, m: Move, pickupMultiple: bool, rest: Stack, block: Stack, moved: Stack,
                 after: seq<Stack>)
    requires CanMove(stacks, m)
    requires stacks[m.from] == rest + block && |block| == m.amount
    requires moved == if pickupMultiple then block else Reversed(block)
    requires |after| == |stacks| && after[m.from] == rest && after[m.to] == stacks[m.to] + moved
    requires forall k | 0 <= k < |stacks| && k != m.from && k != m.to :: after[k] == stacks[k]
    ensures Step(stacks, m, pickupMultiple) == after
  {
    var f := stacks[m.from];
    assert f[..|f| - m.amount] == rest && f[|f| - m.amount..] == block;
    StepEffect(stacks, m, pickupMultiple);
  }
}
