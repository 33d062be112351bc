/** The Christmas walker (2022/src/bin/infi.rs): a program of `draai` (turn
    by degrees), `loop` (walk) and `spring` (jump) moves a walker over the
    integer plane in one of eight compass directions. Part 1 is the
    Manhattan distance of the final position; part 2 collects every
    position a walk passes through and every position a jump or a turn
    ends on. */
module Y2022Infi {
  import opened Wrappers
  import opened Text
  import opened Arith

  /** A position as (x, y), with North along positive y. */
  type Coord = (int, int)

  // ---------------------------------------------------------------------
  // Instructions

  /** `Inst`: a turn by `deg` degrees (an `i16`), a walk or a jump of
      `lang` steps (an `i32`). */
  datatype Inst = Turn(deg: int) | Walk(lang: int) | Jump(lang: int)

  const I16Min: int := -0x8000
  const I16Max: int := 0x7fff
  const I32Min: int := -0x8000_0000
  const I32Max: int := 0x7fff_ffff

  /** The operand fits the instruction's integer type. */
  predicate InRange(i: Inst) {
    match i
    case Turn(deg) => I16Min <= deg <= I16Max
    case Walk(n) => I32Min <= n <= I32Max
    case Jump(n) => I32Min <= n <= I32Max
  }

  /** The word that names an instruction. */
  function Keyword(i: Inst): string {
    match i
    case Turn(_) => "draai"
    case Walk(_) => "loop"
    case Jump(_) => "spring"
  }

  /** The operand of an instruction. */
  function Arg(i: Inst): int {
    match i
    case Turn(deg) => deg
    case Walk(n) => n
    case Jump(n) => n
  }

  function MalformedLine(s: string): string { "malformed line " + s }

  /** The source prints the line with `Debug`, modelled as plain quoting. */
  function InvalidInstruction(s: string): string { "Invalid instruction: " + Quoted(s) }

  /** `Inst::from_str`: the line is cut at its first space into a keyword
      and an operand. */
  function InstFromStr(s: string): (r: Result<Inst>)
    ensures SplitOnce(s, ' ').None? ==> r == Err(MalformedLine(s))
    ensures SplitOnce(s, ' ').Some? && SplitOnce(s, ' ').value.0 !in ["draai", "loop", "spring"] ==>
              r == Err(InvalidInstruction(s))
    ensures r.Ok? ==>
              && SplitOnce(s, ' ').Some?
              && SplitOnce(s, ' ').value.0 == Keyword(r.value)
              && ParseInt(SplitOnce(s, ' ').value.1) == Some(Arg(r.value))
              && InRange(r.value)
  {
    match SplitOnce(s, ' ')
    case None => Err(MalformedLine(s))
    case Some((w, t)) =>
      if w == "draai" then
        match ParseIntIn(t, I16Min, I16Max)
        case Err(e) => Err(e)
        case Ok(v) => Ok(Turn(v))
      else if w == "loop" then
        match ParseIntIn(t, I32Min, I32Max)
        case Err(e) => Err(e)
        case Ok(v) => Ok(Walk(v))
      else if w == "spring" then
        match ParseIntIn(t, I32Min, I32Max)
        case Err(e) => Err(e)
        case Ok(v) => Ok(Jump(v))
      else Err(InvalidInstruction(s))
  }

  /** The text of an instruction: its keyword, a space and its operand. */
  function Render(i: Inst): string {
    Keyword(i) + " " + IntToString(Arg(i))
  }

  /** Only one split puts the first occurrence of `c` between its parts. */
  lemma SplitAtFirst(s: string, c: char, a: string, b: string, p: string, q: string)
    requires s == a + [c] + b && c !in a
    requires s == p + [c] + q && c !in p
    ensures a == p && b == q
  {
    assert forall k | 0 <= k < |a| :: s[k] == a[k];
    assert forall k | 0 <= k < |p| :: s[k] == p[k];
    assert s[|a|] == c && s[|p|] == c;
    assert |a| == |p|;
    assert a == s[..|a|] && p == s[..|p|];
    assert b == s[|a| + 1..] && q == s[|p| + 1..];
  }

  /** A rendered instruction whose operand fits its type is read back. */
  lemma RenderRoundTrip(i: Inst)
    requires InRange(i)
    ensures InstFromStr(Render(i)) == Ok(i)
  {
    var s := Render(i);
    var kw, t := Keyword(i), IntToString(Arg(i));
    assert s == kw + [' '] + t;
    assert ' ' !in kw by {
      assert kw == "draai" || kw == "loop" || kw == "spring";
    }
    var sp := SplitOnce(s, ' ');
    SplitAtFirst(s, ' ', sp.value.0, sp.value.1, kw, t);
    assert sp == Some((kw, t));
    ParseIntToString(Arg(i));
    match i
    case Turn(d) =>
      assert ParseIntIn(t, I16Min, I16Max) == Ok(d);
    case Walk(n) =>
      assert kw != "draai";
      assert ParseIntIn(t, I32Min, I32Max) == Ok(n);
    case Jump(n) =>
      assert kw != "draai" && kw != "loop";
      assert ParseIntIn(t, I32Min, I32Max) == Ok(n);
  }

  /** `parse_input`: one instruction per line, stopping at the first error;
      every operand read fits its type. */
  function ParseInput(input: string): (r: Result<seq<Inst>>)
    ensures r.Ok? <==> forall i | 0 <= i < |Lines(input)| :: InstFromStr(Lines(input)[i]).Ok?
    ensures r.Ok? ==> |r.value| == |Lines(input)|
                      && forall i | 0 <= i < |r.value| :: Ok(r.value[i]) == InstFromStr(Lines(input)[i])
    ensures r.Ok? ==> forall i | 0 <= i < |r.value| :: InRange(r.value[i])
  {
    var ls := Lines(input);
    var r := CollectMap(ls, InstFromStr);
    assert r.Ok? ==> forall i | 0 <= i < |ls| :: InstFromStr(ls[i]).Ok?;
    assert (forall i | 0 <= i < |ls| :: InstFromStr(ls[i]).Ok?) ==> r.Ok?;
    r
  }

  // ---------------------------------------------------------------------
  // Directions

  /** `Dir`, a compass point, clockwise from North. */
  datatype Dir = North | NorthEast | East | SouthEast | South | SouthWest | West | NorthWest
  {
    /** The enum's discriminant. */
    function Index(): (n: nat)
      ensures n <= 7
    {
      match this
      case North => 0
      case NorthEast => 1
      case East => 2
      case SouthEast => 3
      case South => 4
      case SouthWest => 5
      case West => 6
      case NorthWest => 7
    }

    /** `Dir::turn`: clockwise by `deg` degrees, which has to be a multiple
        of 45 (the source asserts it); the new discriminant is the old one
        plus `deg / 45`, modulo 8. */
    function Turn(deg: int): (r: Dir)
      requires deg % 45 == 0
      ensures r.Index() == (Index() + deg / 45) % 8
    {
      FromInt((Index() + deg / 45) % 8).value
    }

    /** The unit step of the direction. */
    function Unit(): (r: (int, int))
      ensures -1 <= r.0 <= 1 && -1 <= r.1 <= 1 && r != (0, 0)
    {
      match this
      case North => (0, 1)
      case NorthEast => (1, 1)
      case East => (1, 0)
      case SouthEast => (1, -1)
      case South => (0, -1)
      case SouthWest => (-1, -1)
      case West => (-1, 0)
      case NorthWest => (-1, 1)
    }

    /** `Dir::jump`: `lang` unit steps from `oud`, which moves `|lang|`
        away in the king's-move sense: at most that far along each axis,
        and exactly that far along one. */
    function Jump(oud: Coord, lang: int): (r: Coord)
      ensures Abs(r.0 - oud.0) <= Abs(lang) && Abs(r.1 - oud.1) <= Abs(lang)
      ensures Abs(r.0 - oud.0) == Abs(lang) || Abs(r.1 - oud.1) == Abs(lang)
    {
      (lang * Unit().0 + oud.0, lang * Unit().1 + oud.1)
    }
  }

  /** `Dir::from_int`: a discriminant's direction, or none above 7. */
  function FromInt(n: nat): (r: Option<Dir>)
    ensures r.Some? <==> n <= 7
    ensures r.Some? ==> r.value.Index() == n
  {
    match n
    case 0 => Some(North)
    case 1 => Some(NorthEast)
    case 2 => Some(East)
    case 3 => Some(SouthEast)
    case 4 => Some(South)
    case 5 => Some(SouthWest)
    case 6 => Some(West)
    case 7 => Some(NorthWest)
    case _ => None
  }

  /** `from_int` inverts the discriminant. */
  lemma FromIntIndex(d: Dir)
    ensures FromInt(d.Index()) == Some(d)
  {
  }

  /** Directions with the same discriminant are the same. */
  lemma IndexInjective(d: Dir, e: Dir)
    requires d.Index() == e.Index()
    ensures d == e
  {
    FromIntIndex(d);
    FromIntIndex(e);
  }

  /** Two turns make one turn by their sum. */
  lemma TurnAdd(d: Dir, a: int, b: int)
    requires a % 45 == 0 && b % 45 == 0
    ensures (a + b) % 45 == 0
    ensures d.Turn(a).Turn(b) == d.Turn(a + b)
  {
    var qa, qb := a / 45, b / 45;
    assert a == qa * 45 && b == qb * 45;
    assert a + b == (qa + qb) * 45;
    ModUnique(a + b, 45, qa + qb, 0);
    var x := d.Index() + qa;
    assert x == (x / 8) * 8 + x % 8;
    ModMultiple(x + qb, 0 - x / 8, 8);
    assert (0 - x / 8) * 8 + (x + qb) == x % 8 + qb;
    IndexInjective(d.Turn(a).Turn(b), d.Turn(a + b));
  }

  /** A full circle, in either sense, changes nothing. */
  lemma TurnFull(d: Dir)
    ensures d.Turn(360) == d && d.Turn(-360) == d && d.Turn(0) == d
  {
    ModMultiple(d.Index(), 1, 8);
    ModMultiple(d.Index(), -1, 8);
    ModUnique(d.Index(), 8, 0, d.Index());
    IndexInjective(d.Turn(360), d);
    IndexInjective(d.Turn(-360), d);
    IndexInjective(d.Turn(0), d);
  }

  /** Turning back undoes a turn. */
  lemma TurnBack(d: Dir, a: int)
    requires a % 45 == 0
    ensures (-a) % 45 == 0 && d.Turn(a).Turn(-a) == d
  {
    NegMultiple(a, 45);
    TurnAdd(d, a, -a);
    assert a + -a == 0;
    TurnZero(d);
  }

  lemma TurnZero(d: Dir)
    ensures d.Turn(0) == d
  {
    IndexInjective(d.Turn(0), d);
  }

  lemma NegMultiple(a: int, m: int)
    requires m > 0 && a % m == 0
    ensures (-a) % m == 0
  {
    var q := a / m;
    assert a == q * m;
    assert -a == (-q) * m;
    ModUnique(-a, m, -q, 0);
  }

  /** Two jumps in one direction make one jump by their sum. */
  lemma JumpAdd(d: Dir, p: Coord, a: int, b: int)
    ensures d.Jump(d.Jump(p, a), b) == d.Jump(p, a + b)
  {
    var u := d.Unit();
    assert (a + b) * u.0 == a * u.0 + b * u.0;
    assert (a + b) * u.1 == a * u.1 + b * u.1;
  }

  /** Facing the other way, a jump goes back. */
  lemma JumpOpposite(d: Dir, p: Coord, n: int)
    ensures d.Turn(180).Jump(p, n) == d.Jump(p, -n)
  {
    Opposite(d);
    var u := d.Unit();
    NegMul(n, u.0);
    NegMul(n, u.1);
  }

  /** Turning by 180 degrees reverses the unit step. */
  lemma Opposite(d: Dir)
    ensures d.Turn(180).Unit() == (-d.Unit().0, -d.Unit().1)
  {
    var e := d.Turn(180);
    var i := d.Index();
    assert e.Index() == (i + 4) % 8;
    var k := if i < 4 then i + 4 else i - 4;
    ModUnique(i + 4, 8, if i < 4 then 0 else 1, k);
    UnitOfIndex(e, k);
    UnitOfIndex(d, i);
  }

  /** The unit step of the direction with discriminant `k`: clockwise
      from North by `k` eighths of a turn. */
  lemma UnitOfIndex(d: Dir, k: nat)
    requires d.Index() == k
    ensures d.Unit() == [(0, 1), (1, 1), (1, 0), (1, -1), (0, -1), (-1, -1), (-1, 0), (-1, 1)][k]
  {
  }

  lemma NegMul(n: int, u: int)
    ensures n * -u == (-n) * u
  {
  }

  /** Absolute value. */
  function Abs(v: int): nat { if v < 0 then -v else v }

  // ---------------------------------------------------------------------
  // The walker

  /** A position and a heading. */
  datatype Walker = Walker(pos: Coord, dir: Dir)

  /** `KerstMens::default`: at the origin, facing North. */
  const Start: Walker := Walker((0, 0), North)

  /** The instruction can run: a turn is by a multiple of 45 degrees. */
  predicate Executable(i: Inst) {
    i.Turn? ==> i.deg % 45 == 0
  }

  /** Every instruction of the program can run. */
  predicate Runnable(insts: seq<Inst>) {
    forall k | 0 <= k < |insts| :: Executable(insts[k])
  }

  /** `KerstMens::exec` on values: a turn changes only the heading, a walk
      or a jump only the position, and a walk and a jump of the same length
      end in the same place. */
  function Step(w: Walker, i: Inst): (r: Walker)
    requires Executable(i)
    ensures i.Turn? ==> r.pos == w.pos && r.dir.Index() == (w.dir.Index() + i.deg / 45) % 8
    ensures !i.Turn? ==> r.dir == w.dir && r.pos == w.dir.Jump(w.pos, Arg(i))
  {
    match i
    case Turn(deg) => w.(dir := w.dir.Turn(deg))
    case Walk(n) => w.(pos := w.dir.Jump(w.pos, n))
    case Jump(n) => w.(pos := w.dir.Jump(w.pos, n))
  }

  /** The walker after running a program from `w`; a program without turns
      keeps the heading. */
  function Run(w: Walker, insts: seq<Inst>): (r: Walker)
    requires Runnable(insts)
    ensures (forall k | 0 <= k < |insts| :: !insts[k].Turn?) ==> r.dir == w.dir
  {
    if insts == [] then w
    else
      var init := insts[..|insts| - 1];
      assert forall k | 0 <= k < |init| :: init[k] == insts[k];
      Step(Run(w, init), insts[|insts| - 1])
  }

  /** A program that only turns leaves the walker in place. */
  lemma {:induction false} TurnsStayPut(w: Walker, insts: seq<Inst>)
    requires Runnable(insts) && forall k | 0 <= k < |insts| :: insts[k].Turn?
    ensures Run(w, insts).pos == w.pos
  {
    if insts != [] {
      var init := insts[..|insts| - 1];
      assert forall k | 0 <= k < |init| :: init[k] == insts[k];
      TurnsStayPut(w, init);
    }
  }

  /** `KerstMens`: the walker whose fields `exec` updates. */
  class KerstMens {
    var pos: Coord
    var dir: Dir

    function State(): Walker
      reads this
    {
      Walker(pos, dir)
    }

    /** `KerstMens::default`. */
    constructor Default()
      ensures State() == Start
    {
      pos, dir := (0, 0), North;
    }

    /** `KerstMens::exec`: a turn sets the heading, a walk or a jump the
        position. */
    method Exec(i: Inst)
      requires Executable(i)
      modifies this
      ensures State() == Step(old(State()), i)
      ensures i.Turn? ==> pos == old(pos)
      ensures !i.Turn? ==> dir == old(dir)
    {
      match i
      case Turn(deg) =>
        dir := dir.Turn(deg);
      case Walk(n) =>
        pos := dir.Jump(pos, n);
      case Jump(n) =>
        pos := dir.Jump(pos, n);
    }
  }

  /** The Manhattan distance from the origin. */
  function Manhattan(c: Coord): nat { Abs(c.0) + Abs(c.1) }

  /** `part1`: run every instruction from the start, then the distance of
      the final position. */
  method Part1(insts: seq<Inst>) returns (r: int)
    requires Runnable(insts)
    ensures r == Manhattan(Run(Start, insts).pos)
  {
    var km := new KerstMens.Default();
    for k := 0 to |insts|
      invariant km.State() == Run(Start, insts[..k])
    {
      assert insts[..k + 1][..k] == insts[..k];
      km.Exec(insts[k]);
    }
    assert insts[..|insts|] == insts;
    r := Abs(km.pos.0) + Abs(km.pos.1);
  }

  /** The example program: `draai 90`, `loop 6`, `spring 2`, `draai -45`,
      `loop 2`. */
  function Example(): seq<Inst> {
    [Turn(90), Walk(6), Jump(2), Turn(-45), Walk(2)]
  }

  /** Running one more instruction. */
  lemma RunSnoc(w: Walker, insts: seq<Inst>, i: Inst)
    requires Runnable(insts) && Executable(i)
    ensures Runnable(insts + [i])
    ensures Run(w, insts + [i]) == Step(Run(w, insts), i)
  {
    assert (insts + [i])[..|insts|] == insts;
  }

  /** The example's first instruction turns the walker to face East. */
  lemma ExampleFirstTurn()
    ensures Runnable(Example()[..1])
    ensures Run(Start, Example()[..1]) == Walker((0, 0), East)
  {
    var p0: seq<Inst> := [];
    RunSnoc(Start, p0, Turn(90));
    assert North.Turn(90) == East by {
      IndexInjective(North.Turn(90), East);
    }
    assert p0 + [Turn(90)] == Example()[..1];
  }

  /** The example's first three instructions end at (8, 0), facing East. */
  lemma ExampleFirstThree()
    ensures Runnable(Example()[..3])
    ensures Run(Start, Example()[..3]) == Walker((8, 0), East)
  {
    ExampleFirstTurn();
    var p1 := Example()[..1];
    var p2 := p1 + [Walk(6)];
    RunSnoc(Start, p1, Walk(6));
    assert Run(Start, p2) == Walker((6, 0), East);
    var p3 := p2 + [Jump(2)];
    RunSnoc(Start, p2, Jump(2));
    assert p3 == Example()[..3];
  }

  /** The example ends at (10, 2), distance 12. */
  lemma ExamplePart1()
    ensures Runnable(Example())
    ensures Run(Start, Example()).pos == (10, 2)
    ensures Manhattan(Run(Start, Example()).pos) == 12
  {
    ExampleFirstThree();
    var p3 := Example()[..3];
    var p4 := p3 + [Turn(-45)];
    RunSnoc(Start, p3, Turn(-45));
    assert East.Turn(-45) == NorthEast by {
      IndexInjective(East.Turn(-45), NorthEast);
    }
    assert Run(Start, p4) == Walker((8, 0), NorthEast);
    var p5 := p4 + [Walk(2)];
    RunSnoc(Start, p4, Walk(2));
    assert p5 == Example();
  }

  // ---------------------------------------------------------------------
  // Traces

  /** The walker after `n` walks of one step, as `part2` runs a walk. */
  function UnitWalks(w: Walker, n: nat): Walker {
    if n == 0 then w else Step(UnitWalks(w, n - 1), Walk(1))
  }

  /** `n` unit walks end where one walk of `n` ends. */
  lemma {:induction false} WalkSteps(w: Walker, n: nat)
    ensures UnitWalks(w, n) == Step(w, Walk(n))
  {
    if n > 0 {
      WalkSteps(w, n - 1);
      JumpAdd(w.dir, w.pos, n - 1, 1);
    }
  }

  /** The positions `part2` records during `n` unit walks. */
  function WalkMarks(w: Walker, n: nat): set<Coord> {
    if n == 0 then {} else WalkMarks(w, n - 1) + {UnitWalks(w, n).pos}
  }

  /** A walk of `n` records exactly the positions 1 to `n` steps ahead. */
  lemma {:induction false} WalkMarksMeaning(w: Walker, n: nat, q: Coord)
    ensures q in WalkMarks(w, n) <==> exists k | 1 <= k <= n :: q == w.dir.Jump(w.pos, k)
  {
    if n > 0 {
      WalkMarksMeaning(w, n - 1, q);
      WalkSteps(w, n);
    }
  }

  /** One instruction as `part2` runs it: a walk of `n` becomes `n` unit
      walks (none when `n` is negative). */
  function After(w: Walker, i: Inst): Walker
    requires Executable(i)
  {
    match i
    case Walk(n) => UnitWalks(w, if n < 0 then 0 else n)
    case _ => Step(w, i)
  }

  /** The positions recorded for one instruction: every unit step of a
      walk, the end of a jump or a turn. */
  function Marks(w: Walker, i: Inst): set<Coord>
    requires Executable(i)
  {
    match i
    case Walk(n) => WalkMarks(w, if n < 0 then 0 else n)
    case _ => {Step(w, i).pos}
  }

  /** The walker and the recorded positions after a program, starting with
      the start position recorded. */
  function Trace(insts: seq<Inst>): (Walker, set<Coord>)
    requires Runnable(insts)
  {
    if insts == [] then (Start, {Start.pos})
    else
      var (w, t) := Trace(insts[..|insts| - 1]);
      var i := insts[|insts| - 1];
      (After(w, i), t + Marks(w, i))
  }

  /** Without a backward walk, one instruction moves the walker in `part2`
      as in `part1`, and where it stops is recorded, unless it stays put. */
  lemma AfterIsStep(w: Walker, i: Inst)
    requires Executable(i) && (i.Walk? ==> i.lang >= 0)
    ensures After(w, i) == Step(w, i)
    ensures Step(w, i).pos in Marks(w, i) || Step(w, i).pos == w.pos
  {
    if i.Walk? {
      WalkSteps(w, i.lang);
      if i.lang > 0 {
        WalkMarksMeaning(w, i.lang, Step(w, i).pos);
      }
    }
  }

  /** Without backward walks, `part2` moves the walker as `part1` does, and
      every position `part1` stops at is recorded. */
  lemma {:induction false} TraceFollowsRun(insts: seq<Inst>)
    requires Runnable(insts) && forall k | 0 <= k < |insts| :: insts[k].Walk? ==> insts[k].lang >= 0
    ensures Trace(insts).0 == Run(Start, insts)
    ensures Run(Start, insts).pos in Trace(insts).1
  {
    if insts != [] {
      var init := insts[..|insts| - 1];
      var i := insts[|insts| - 1];
      assert forall k | 0 <= k < |init| :: init[k] == insts[k];
      TraceFollowsRun(init);
      AfterIsStep(Run(Start, init), i);
    }
  }

  /** What is recorded only grows along the program, and the start is
      always recorded, so `first()` and `last()` never fail. */
  lemma {:induction false} TraceGrows(insts: seq<Inst>, k: nat)
    requires Runnable(insts) && k <= |insts|
    ensures Runnable(insts[..k])
    ensures Trace(insts[..k]).1 <= Trace(insts).1
    ensures Start.pos in Trace(insts).1
    decreases |insts|
  {
    assert forall j | 0 <= j < k :: insts[..k][j] == insts[j];
    if k < |insts| {
      var init := insts[..|insts| - 1];
      assert forall j | 0 <= j < |init| :: init[j] == insts[j];
      assert init[..k] == insts[..k];
      TraceGrows(init, k);
    } else {
      assert insts[..k] == insts;
      if insts != [] {
        var init := insts[..|insts| - 1];
        assert forall j | 0 <= j < |init| :: init[j] == insts[j];
        TraceGrows(init, 0);
      }
    }
  }

  /** A backward walk is taken by `part1` but skipped by `part2`: after
      `loop -1`, `part1` stands at (0, -1) and `part2` still at the
      origin. */
  lemma BackwardWalkSkipped()
    ensures Runnable([Walk(-1)])
    ensures Run(Start, [Walk(-1)]).pos == (0, -1)
    ensures Trace([Walk(-1)]).0.pos == (0, 0)
    ensures Trace([Walk(-1)]).1 == {(0, 0)}
  {
    var p := [Walk(-1)];
    assert p[..0] == [];
  }

  /** The unit walks of `part2`, recording each position. */
  method WalkTrace(km: KerstMens, n: int, traces0: set<Coord>) returns (traces: set<Coord>)
    modifies km
    ensures km.State() == UnitWalks(old(km.State()), if n < 0 then 0 else n)
    ensures traces == traces0 + WalkMarks(old(km.State()), if n < 0 then 0 else n)
  {
    ghost var w := km.State();
    traces := traces0;
    var k := 0;
    while k < n
      invariant 0 <= k && (n >= 0 ==> k <= n) && (n < 0 ==> k == 0)
      invariant km.State() == UnitWalks(w, k)
      invariant traces == traces0 + WalkMarks(w, k)
    {
      km.Exec(Walk(1));
      traces := traces + {km.pos};
      k := k + 1;
    }
  }

  /** `part2`'s collection of trace positions (the rendering of the picture
      is not modelled). */
  method Part2Traces(insts: seq<Inst>) returns (traces: set<Coord>)
    requires Runnable(insts)
    ensures traces == Trace(insts).1
  {
    var km := new KerstMens.Default();
    traces := {km.pos};
    for k := 0 to |insts|
      invariant (km.State(), traces) == Trace(insts[..k])
    {
      assert insts[..k + 1][..k] == insts[..k];
      var i := insts[k];
      match i {
        case Walk(n) =>
          traces := WalkTrace(km, n, traces);
        case Turn(_) =>
          km.Exec(i);
          traces := traces + {km.pos};
        case Jump(_) =>
          km.Exec(i);
          traces := traces + {km.pos};
      }
    }
    assert insts[..|insts|] == insts;
  }
}
