/** Cathode-ray tube (src/bin/day10.rs): a CPU with one register `X` runs a
    program of `noop` (one cycle) and `addx v` (two cycles, then `X += v`);
    part 1 sums signal strengths, part 2 draws a 40 x 6 screen whose pixel is
    lit when the three-wide sprite at `X` covers the column being drawn. */
module SrcDay10 {
  import opened Wrappers
  import opened Text

  datatype Instruction = Nop | AddX(val: int)

  /** The error for a line that is neither `noop` nor `addx <v>`; the source
      prints the line with `Debug`, which is modelled as plain quoting. */
  function InvalidLine(s: string): string { "Invalid line: " + Quoted(s) }

  /** `Instruction::from_str` on the whitespace-separated words of the line:
      exactly `noop`, or `addx` and an `i64`; a third word after `addx v` is
      ignored. */
  function InstructionOfWords(ws: seq<string>, s: string): (r: Result<Instruction>)
    ensures r == Ok(Nop) <==> ws == ["noop"]
    ensures r.Ok? && r.value.AddX? <==>
              |ws| >= 2 && ws[0] == "addx" && ParseInt(ws[1]).Some? && I64Min <= ParseInt(ws[1]).value <= I64Max
    ensures r.Ok? && r.value.AddX? ==> r.value.val == ParseInt(ws[1]).value
    ensures r.Err? && |ws| >= 2 && ws[0] == "addx" ==>
              r.error == if ParseInt(ws[1]).None? then InvalidDigit()
                         else if ParseInt(ws[1]).value > I64Max then TooLarge()
                         else TooSmall()
    ensures r.Err? && !(|ws| >= 2 && ws[0] == "addx") ==> r.error == InvalidLine(s)
  {
    if |ws| == 1 && ws[0] == "noop" then Ok(Nop)
    else if |ws| >= 2 && ws[0] == "addx" then
      match ParseIntIn(ws[1], I64Min, I64Max)
      case Err(e) => Err(e)
      case Ok(v) => Ok(AddX(v))
    else Err(InvalidLine(s))
  }

  /** `Instruction::from_str`: what it reads fits an `i64`, and a line it
      refuses gets one of four errors. */
  function InstructionFromStr(s: string): (r: Result<Instruction>)
    ensures r.Ok? ==> InRange(r.value)
    ensures r.Err? ==> r.error in {InvalidLine(s), InvalidDigit(), TooLarge(), TooSmall()}
  {
    InstructionOfWords(SplitWhitespace(s), s)
  }

  /** The text of an instruction: `noop`, or `addx` and its operand. */
  function Render(i: Instruction): string {
    match i
    case Nop => "noop"
    case AddX(v) => "addx " + IntToString(v)
  }

  /** The operand of an `addx` fits an `i64`. */
  predicate InRange(i: Instruction) {
    i.AddX? ==> I64Min <= i.val <= I64Max
  }

  /** A `Render`ed instruction whose operand fits is read back. */
  lemma RenderRoundTrip(i: Instruction)
    requires InRange(i)
    ensures InstructionFromStr(Render(i)) == Ok(i)
  {
    match i
    case Nop =>
      NopWords();
    case AddX(v) =>
      AddXWords(v);
  }

  lemma NopWords()
    ensures SplitWhitespace("noop") == ["noop"]
  {
    SplitWhitespaceJoin(["noop"]);
  }

  lemma AddXWords(v: int)
    ensures SplitWhitespace(Render(AddX(v))) == ["addx", IntToString(v)]
    ensures ParseInt(IntToString(v)) == Some(v)
  {
    var t := IntToString(v);
    ParseIntToString(v);
    assert IsWord("addx");
    assert Join(["addx", t], ' ') == Render(AddX(v)) by {
      assert ["addx", t][1..] == [t];
    }
    SplitWhitespaceJoin(["addx", t]);
  }

  /** `parse_input`: one instruction per line, stopping at the first error. */
  function ParseInput(input: string): (r: Result<seq<Instruction>>)
    ensures var ls := Lines(input);
      && (r.Ok? <==> forall i | 0 <= i < |ls| :: InstructionFromStr(ls[i]).Ok?)
      && (r.Ok? ==> |r.value| == |ls|
                    && forall i | 0 <= i < |ls| :: Ok(r.value[i]) == InstructionFromStr(ls[i]) && InRange(r.value[i]))
  {
    CollectMap(Lines(input), InstructionFromStr)
  }

  // ---------------------------------------------------------------------
  // The machine as a value

  /** A snapshot of `McMachine`: the register, the instruction in progress
      with the cycles it still has to wait, the instruction pointer (`usize`
      in the source, a `nat` here) and the program. The register is `i64` in
      the source and unbounded here. */
  datatype Machine = Machine(regX: int, waiting: Option<(nat, Instruction)>, ip: nat, instructions: seq<Instruction>)

  /** `McMachine::with_instructions`. */
  function Init(prog: seq<Instruction>): (m: Machine)
    ensures m.regX == 1 && m.waiting == None && m.ip == 0 && m.instructions == prog
  {
    Machine(1, None, 0, prog)
  }

  /** Only an `addx` is ever left waiting; a waiting `noop` is the source's
      `unreachable!`. */
  predicate Valid(m: Machine) {
    m.waiting.Some? ==> m.waiting.value.1.AddX?
  }

  function FellOff(): string { "Fell of the program" }

  /** `McMachine::step` as a function of the machine's state. */
  function StepState(m: Machine): (r: Result<Machine>)
    requires Valid(m)
    ensures r.Ok? ==> Valid(r.value) && r.value.instructions == m.instructions
    ensures r.Err? <==> m.waiting.None? && m.ip >= |m.instructions|
    ensures r.Err? ==> r.error == FellOff()
  {
    match m.waiting
    case Some((toWait, inst)) =>
      var left := if toWait == 0 then 0 else toWait - 1;
      if left > 0 then Ok(m.(waiting := Some((left, inst))))
      else Ok(m.(regX := m.regX + inst.val, waiting := None, ip := m.ip + 1))
    case None =>
      if m.ip >= |m.instructions| then Err(FellOff())
      else match m.instructions[m.ip]
        case Nop => Ok(m.(ip := m.ip + 1))
        case AddX(_) => Ok(m.(waiting := Some((1, m.instructions[m.ip]))))
  }

  /** A `noop` takes one step: only the instruction pointer moves. */
  lemma NopStep(m: Machine)
    requires m.waiting.None? && m.ip < |m.instructions| && m.instructions[m.ip] == Nop
    ensures StepState(m) == Ok(m.(ip := m.ip + 1))
  {
  }

  /** An `addx v` takes two steps: the first only records it as pending, the
      second adds `v` to the register and moves the instruction pointer. */
  lemma AddXSteps(m: Machine, v: int)
    requires m.waiting.None? && m.ip < |m.instructions| && m.instructions[m.ip] == AddX(v)
    ensures StepState(m).Ok? && StepState(m).value.regX == m.regX && StepState(m).value.ip == m.ip
    ensures StepState(m).value.waiting.Some?
    ensures StepState(StepState(m).value) == Ok(m.(regX := m.regX + v, ip := m.ip + 1))
  {
  }

  /** The register changes only when a pending instruction completes, by
      exactly its operand, and the instruction pointer then advances by one;
      every other step leaves the register alone and the pointer advances by
      at most one. */
  lemma RegisterChanges(m: Machine)
    requires Valid(m) && StepState(m).Ok?
    ensures var m' := StepState(m).value;
      && (m'.regX != m.regX ==>
           m.waiting.Some? && m'.regX == m.regX + m.waiting.value.1.val
           && m'.ip == m.ip + 1 && m'.waiting.None?)
      && (m'.ip == m.ip || m'.ip == m.ip + 1)
  {
  }

  /** The machine after `n` steps, or the first error. */
  function Steps(m: Machine, n: nat): (r: Result<Machine>)
    requires Valid(m)
    ensures r.Ok? ==> Valid(r.value) && r.value.instructions == m.instructions
    ensures r.Err? ==> r.error == FellOff()
  {
    if n == 0 then Ok(m)
    else match Steps(m, n - 1)
      case Err(e) => Err(e)
      case Ok(m') => StepState(m')
  }

  /** The first `n` steps all succeed. */
  predicate RunsFor(m: Machine, n: nat)
    requires Valid(m)
  {
    forall j | 0 <= j <= n :: Steps(m, j).Ok?
  }

  /** A machine that can take `n` steps can take every fewer number of them. */
  lemma {:induction false} StepsPrefix(m: Machine, n: nat, j: nat)
    requires Valid(m) && Steps(m, n).Ok? && j <= n
    ensures Steps(m, j).Ok?
    decreases n
  {
    if j < n {
      StepsPrefix(m, n - 1, j);
    }
  }

  lemma RunsForIff(m: Machine, n: nat)
    requires Valid(m)
    ensures RunsFor(m, n) <==> Steps(m, n).Ok?
  {
    if Steps(m, n).Ok? {
      forall j | 0 <= j <= n ensures Steps(m, j).Ok? {
        StepsPrefix(m, n, j);
      }
    }
  }

  /** A step that fails ends every longer run. */
  lemma StepsErr(m: Machine, j: nat, n: nat)
    requires Valid(m) && Steps(m, j).Err? && j <= n
    ensures !RunsFor(m, n)
  {
  }

  /** A run that fails within `j` steps fails within every longer run. */
  lemma StepsMore(m: Machine, j: nat, n: nat)
    requires Valid(m) && !RunsFor(m, j) && j <= n
    ensures !RunsFor(m, n)
  {
  }

  /** The register after `j` steps of the program, which is its value during
      cycle `j + 1`. */
  function RegAfter(prog: seq<Instruction>, j: nat): int
    requires Steps(Init(prog), j).Ok?
  {
    Steps(Init(prog), j).value.regX
  }

  // ---------------------------------------------------------------------
  // The machine as an object

  /** `McMachine`. */
  class McMachine {
    var regX: int
    var waiting: Option<(nat, Instruction)>
    var ip: nat
    var instructions: seq<Instruction>

    function State(): Machine
      reads this
    {
      Machine(regX, waiting, ip, instructions)
    }

    /** `McMachine::default`. */
    constructor Default()
      ensures State() == Init([])
    {
      regX, waiting, ip, instructions := 1, None, 0, [];
    }

    /** `McMachine::with_instructions`. */
    constructor WithInstructions(prog: seq<Instruction>)
      ensures State() == Init(prog)
    {
      regX, waiting, ip, instructions := 1, None, 0, prog;
    }

    /** `McMachine::step`: a pending instruction counts down (saturating at
      zero) and completes when nothing is left to wait; with nothing
      pending, the instruction at `ip` starts, and there being none is an
      error that changes nothing. */
    method Step() returns (r: Result<()>)
      requires Valid(State())
      modifies this
      ensures r.Ok? <==> StepState(old(State())).Ok?
      ensures r.Ok? ==> State() == StepState(old(State())).value
      ensures r.Err? ==> State() == old(State()) && r.error == FellOff()
    {
      if waiting.Some? {
        var (toWait, inst) := waiting.value;
        toWait := if toWait == 0 then 0 else toWait - 1;
        if toWait > 0 {
          waiting := Some((toWait, inst));
          return Ok(());
        }
        regX := regX + inst.val;
        waiting := None;
        ip := ip + 1;
        return Ok(());
      }
      if ip >= |instructions| {
        return Err(FellOff());
      }
      if instructions[ip].Nop? {
        ip := ip + 1;
      } else {
        waiting := Some((1, instructions[ip]));
      }
      return Ok(());
    }
  }

  /** `run_for`: the register after each of the first `steps` steps, or the
      first error. */
  method RunFor(prog: seq<Instruction>, steps: nat) returns (r: Result<seq<int>>)
    ensures r.Ok? <==> RunsFor(Init(prog), steps)
    ensures r.Ok? ==> |r.value| == steps && forall k | 0 <= k < steps :: r.value[k] == RegAfter(prog, k + 1)
    ensures r.Err? ==> r.error == FellOff()
  {
    var m := new McMachine.WithInstructions(prog);
    ghost var init := Init(prog);
    var vals: seq<int> := [];
    for k := 0 to steps
      invariant RunsFor(init, k) && m.State() == Steps(init, k).value
      invariant |vals| == k && forall j | 0 <= j < k :: vals[j] == RegAfter(prog, j + 1)
    {
      var s := m.Step();
      if s.Err? {
        StepsErr(init, k + 1, steps);
        return Err(s.error);
      }
      vals := vals + [m.regX];
    }
    return Ok(vals);
  }

  /** The signal strength during cycle `c`: `c` times the register during that
      cycle. */
  function Strength(prog: seq<Instruction>, c: nat): int
    requires c >= 1 && Steps(Init(prog), c - 1).Ok?
  {
    c * RegAfter(prog, c - 1)
  }

  /** `part1`: the signal strengths during cycles 20, 60, ..., 220, summed;
      the machine has to run for 221 steps. */
  method Part1(prog: seq<Instruction>) returns (r: Result<int>)
    ensures r.Ok? <==> RunsFor(Init(prog), 221)
    ensures r.Err? ==> r.error == FellOff()
    ensures r.Ok? ==> r.value == Strength(prog, 20) + Strength(prog, 60) + Strength(prog, 100)
                                 + Strength(prog, 140) + Strength(prog, 180) + Strength(prog, 220)
  {
    var vals := RunFor(prog, 221);
    if vals.Err? {
      return Err(vals.error);
    }
    var v := vals.value;
    return Ok(20 * v[18] + 60 * v[58] + 100 * v[98] + 140 * v[138] + 180 * v[178] + 220 * v[218]);
  }

  // ---------------------------------------------------------------------
  // The screen

  /** Whether the sprite centred on `x` covers column `col`. */
  function Lit(col: int, x: int): char {
    if x - 1 <= col <= x + 1 then '█' else ' '
  }

  /** The first `x` pixels of row `y`: pixel `c` is drawn during cycle
      `40 * y + c + 1`, i.e. after `40 * y + c` steps. */
  function Pixels(prog: seq<Instruction>, y: nat, x: nat): (r: string)
    requires RunsFor(Init(prog), 40 * y + x)
    ensures |r| == x
  {
    if x == 0 then []
    else Pixels(prog, y, x - 1) + [Lit(x - 1, RegAfter(prog, 40 * y + x - 1))]
  }

  /** The first `y` rows of the screen, each of 40 pixels and a newline. */
  function Rows(prog: seq<Instruction>, y: nat): (r: string)
    requires RunsFor(Init(prog), 40 * y)
    ensures |r| == 41 * y
  {
    if y == 0 then [] else Rows(prog, y - 1) + Pixels(prog, y - 1, 40) + "\n"
  }

  /** The character in column `col` of row `row` of the screen text (each
      row is 40 pixels and a newline): the pixel in column `col` is lit when
      the register during its cycle is `col - 1`, `col` or `col + 1`. */
  function ScreenChar(prog: seq<Instruction>, row: nat, col: nat): char
    requires col <= 40 && RunsFor(Init(prog), 40 * row + 40)
  {
    if col == 40 then '\n' else Lit(col, RegAfter(prog, 40 * row + col))
  }

  lemma {:induction false} PixelsAt(prog: seq<Instruction>, y: nat, x: nat, c: nat)
    requires RunsFor(Init(prog), 40 * y + x) && c < x
    ensures Pixels(prog, y, x)[c] == Lit(c, RegAfter(prog, 40 * y + c))
    decreases x
  {
    if c < x - 1 {
      PixelsAt(prog, y, x - 1, c);
    }
  }

  /** The rows are laid out as `ScreenChar` says. */
  lemma {:induction false} RowsAt(prog: seq<Instruction>, y: nat, row: nat, col: nat)
    requires RunsFor(Init(prog), 40 * y) && row < y && col <= 40
    ensures RunsFor(Init(prog), 40 * row + 40)
    ensures Rows(prog, y)[41 * row + col] == ScreenChar(prog, row, col)
    decreases y
  {
    if row < y - 1 {
      RowsAt(prog, y - 1, row, col);
    } else if col < 40 {
      PixelsAt(prog, y - 1, 40, col);
    }
  }

  /** After `y` complete rows and `x` more pixels. */
  ghost predicate Drawn(m: McMachine, prog: seq<Instruction>, y: nat, x: nat, s: string)
    reads m
  {
    && RunsFor(Init(prog), 40 * y + x) && m.State() == Steps(Init(prog), 40 * y + x).value
    && RunsFor(Init(prog), 40 * y) && s == Rows(prog, y) + Pixels(prog, y, x)
  }

  /** A complete row followed by its newline. */
  lemma RowDone(m: McMachine, prog: seq<Instruction>, y: nat, s: string)
    requires Drawn(m, prog, y, 40, s)
    ensures Drawn(m, prog, y + 1, 0, s + "\n")
  {
    assert 40 * (y + 1) + 0 == 40 * y + 40;
  }

  /** One pixel of `part2`: draw it from the register, then step. */
  method DrawPixel(m: McMachine, ghost prog: seq<Instruction>, ghost y: nat, x: nat, s: string)
    returns (s': string, r: Result<()>)
    requires Drawn(m, prog, y, x, s)
    modifies m
    ensures r.Ok? ==> Drawn(m, prog, y, x + 1, s')
    ensures r.Err? ==> !RunsFor(Init(prog), 40 * y + x + 1) && r.error == FellOff()
  {
    s' := s + [Lit(x, m.regX)];
    r := m.Step();
    if r.Err? {
      StepsErr(Init(prog), 40 * y + x + 1, 40 * y + x + 1);
    } else {
      assert RunsFor(Init(prog), 40 * y + x + 1);
    }
  }

  /** `part2`: the 6 rows of 40 pixels, each row ended by a newline; the
      machine steps once after every pixel, so it has to run 240 steps. */
  method Part2(prog: seq<Instruction>) returns (r: Result<string>)
    ensures r.Ok? <==> RunsFor(Init(prog), 240)
    ensures r.Err? ==> r.error == FellOff()
    ensures r.Ok? ==> r.value == Rows(prog, 6)
  {
    var m := new McMachine.WithInstructions(prog);
    var s: string := [];
    for y := 0 to 6
      invariant Drawn(m, prog, y, 0, s)
    {
      for x := 0 to 40
        invariant Drawn(m, prog, y, x, s)
      {
        var st;
        s, st := DrawPixel(m, prog, y, x, s);
        if st.Err? {
          StepsMore(Init(prog), 40 * y + x + 1, 240);
          return Err(st.error);
        }
      }
      RowDone(m, prog, y, s);
      s := s + "\n";
    }
    return Ok(s);
  }

  // ---------------------------------------------------------------------
  // The small example

  /** The program `noop`, `addx 3`, `addx -5`: the register is 1, 1, 1, 4, 4,
      -1 after 0 to 5 steps, and the sixth step falls off the program. */
  lemma SmallExample()
    ensures var m := Init([Nop, AddX(3), AddX(-5)]);
      && Steps(m, 0).Ok? && Steps(m, 0).value.regX == 1
      && Steps(m, 1).Ok? && Steps(m, 1).value.regX == 1
      && Steps(m, 2).Ok? && Steps(m, 2).value.regX == 1
      && Steps(m, 3).Ok? && Steps(m, 3).value.regX == 4
      && Steps(m, 4).Ok? && Steps(m, 4).value.regX == 4
      && Steps(m, 5).Ok? && Steps(m, 5).value.regX == -1
      && Steps(m, 6).Err?
  {
  }

  /** The lines of the small example parse to its three instructions. */
  lemma SmallExampleLine1()
    ensures InstructionFromStr("noop") == Ok(Nop)
  {
    RenderedParses("noop", Nop);
  }

  lemma SmallExampleLine2()
    ensures InstructionFromStr("addx 3") == Ok(AddX(3))
  {
    RenderedParses("addx 3", AddX(3));
  }

  lemma SmallExampleLine3()
    ensures InstructionFromStr("addx -5") == Ok(AddX(-5))
  {
    RenderedParses("addx -5", AddX(-5));
  }

  lemma RenderedParses(s: string, i: Instruction)
    requires s == Render(i) && InRange(i)
    ensures InstructionFromStr(s) == Ok(i)
  {
    RenderRoundTrip(i);
  }
}
