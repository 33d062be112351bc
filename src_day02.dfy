/** Rock paper scissors (src/bin/day02.rs): score a strategy guide, reading the
    second column either as Santa's move or as the outcome to aim for. */
module SrcDay02 {
  import opened Wrappers
  import opened Text

  datatype Outcome = Win | Draw | Loose

  /** `Outcome::inverse`: the outcome seen from the other player. */
  function Inverse(o: Outcome): (r: Outcome)
    ensures (r == Draw) <==> (o == Draw)
    ensures r != o || o == Draw
  {
    match o
    case Win => Loose
    case Draw => Draw
    case Loose => Win
  }

  /** The inverse undoes itself. */
  lemma InverseInvolution(o: Outcome)
    ensures Inverse(Inverse(o)) == o
  {
  }

  /** `Outcome::score`. */
  function OutcomeScore(o: Outcome): (r: nat)
    ensures r <= 6 && r % 3 == 0
    ensures o == Win <==> r == 6
    ensures o == Loose <==> r == 0
  {
    match o
    case Win => 6
    case Draw => 3
    case Loose => 0
  }

  /** `Outcome::from_xyz`. */
  function OutcomeFromXyz(input: string): (r: Result<Outcome>)
    ensures r.Ok? <==> input in {"X", "Y", "Z"}
    ensures r.Err? ==> r.error == "Unexpected " + input + " where XYZ was expected"
  {
    match input
    case "X" => Ok(Loose)
    case "Y" => Ok(Draw)
    case "Z" => Ok(Win)
    case _ => Err("Unexpected " + input + " where XYZ was expected")
  }

  datatype Rps = Rock | Paper | Sciscors

  /** `Rps::ALL`, in the order `choose_to_get_outcome` tries the moves. */
  const All: seq<Rps> := [Rock, Paper, Sciscors]

  /** The move each move beats. */
  function Beats(a: Rps): Rps {
    match a
    case Rock => Sciscors
    case Sciscors => Paper
    case Paper => Rock
  }

  /** `Rps::play`: the outcome for `self` playing against `other`. */
  function Play(self: Rps, other: Rps): (r: Outcome)
    ensures r == Win <==> Beats(self) == other
    ensures r == Draw <==> self == other
    ensures r == Loose <==> Beats(other) == self
  {
    match (self, other)
    case (Rock, Sciscors) => Win
    case (Sciscors, Paper) => Win
    case (Paper, Rock) => Win
    case (a, b) => if a == b then Draw else Loose
  }

  /** The game logic is consistent: swapping the players inverts the outcome. */
  lemma PlayAntisymmetric(a: Rps, b: Rps)
    ensures Play(a, b) == Inverse(Play(b, a))
  {
  }

  /** `Rps::score`. */
  function RpsScore(a: Rps): (r: nat)
    ensures 1 <= r <= 3
  {
    match a
    case Rock => 1
    case Paper => 2
    case Sciscors => 3
  }

  /** `Rps::score_game`: the score for `self`'s move plus the score for its outcome. */
  function ScoreGame(self: Rps, other: Rps): (r: nat)
    ensures 1 <= r <= 9
    ensures r == RpsScore(self) + OutcomeScore(Play(self, other))
  {
    RpsScore(self) + OutcomeScore(Play(self, other))
  }

  /** The two players' scores for one round add up to the two move scores plus
      six: a win and a loss make six, and so do two draws. */
  lemma ScoreGameTotal(a: Rps, b: Rps)
    ensures ScoreGame(a, b) + ScoreGame(b, a) == RpsScore(a) + RpsScore(b) + 6
  {
    PlayAntisymmetric(a, b);
  }

  /** The move that gives `outcome` against `elf`, stated without searching. */
  function Response(elf: Rps, outcome: Outcome): Rps {
    match outcome
    case Draw => elf
    case Loose => Beats(elf)
    case Win => Beats(Beats(elf))
  }

  /** Exactly one move gives each outcome, and it is `Response`. */
  lemma ResponseUnique(elf: Rps, outcome: Outcome, choice: Rps)
    ensures Play(choice, elf) == outcome <==> choice == Response(elf, outcome)
  {
  }

  /** `Rps::choose_to_get_outcome`: try the moves of `All` in order and return
      the first that gives `outcome` against `self`; the loop always returns, so
      the source's `unreachable!` after it is never reached. */
  method ChooseToGetOutcome(self: Rps, outcome: Outcome) returns (choice: Rps)
    ensures Play(choice, self) == outcome
    ensures choice == Response(self, outcome)
  {
    ResponseUnique(self, outcome, Response(self, outcome));
    var i := 0;
    while i < |All|
      invariant 0 <= i <= |All|
      invariant Response(self, outcome) in All[i..]
    {
      if Play(All[i], self) == outcome {
        ResponseUnique(self, outcome, All[i]);
        return All[i];
      }
      i := i + 1;
    }
    assert false;
  }

  /** `Rps::from_abc`. */
  function FromAbc(input: string): (r: Result<Rps>)
    ensures r.Ok? <==> input in {"A", "B", "C"}
    ensures r.Err? ==> r.error == "Unexpected " + input + " where ABC was expected"
  {
    match input
    case "A" => Ok(Rock)
    case "B" => Ok(Paper)
    case "C" => Ok(Sciscors)
    case _ => Err("Unexpected " + input + " where ABC was expected")
  }

  /** `Rps::from_xyz`. */
  function RpsFromXyz(input: string): (r: Result<Rps>)
    ensures r.Ok? <==> input in {"X", "Y", "Z"}
    ensures r.Err? ==> r.error == "Unexpected " + input + " where XYZ was expected"
  {
    match input
    case "X" => Ok(Rock)
    case "Y" => Ok(Paper)
    case "Z" => Ok(Sciscors)
    case _ => Err("Unexpected " + input + " where XYZ was expected")
  }

  /** `parse_line`, generic in how the second column is read (`T::from_xyz`):
      split at the first space, then the elf's move, then the second column. */
  function ParseLine<T>(line: string, fromXyz: string -> Result<T>): (r: Result<(Rps, T)>)
    ensures ' ' !in line ==> r == Err("Weird line: " + line)
    ensures r.Ok? <==> exists a, b :: line == a + " " + b && ' ' !in a
                                    && FromAbc(a).Ok? && fromXyz(b).Ok?
                                    && r == Ok((FromAbc(a).value, fromXyz(b).value))
  {
    match SplitOnce(line, ' ')
    case None => Err("Weird line: " + line)
    case Some((a, b)) =>
      assert line == a + " " + b;
      (match FromAbc(a)
       case Err(e) => Err(e)
       case Ok(elf) =>
         match fromXyz(b)
         case Err(e) => Err(e)
         case Ok(x) => Ok((elf, x)))
  }

  /** `parse_input`: every line of the trimmed input, stopping at the first error. */
  function ParseInput<T>(input: string, fromXyz: string -> Result<T>): (r: Result<seq<(Rps, T)>>)
    ensures r.Ok? ==> forall l | l in Lines(Trim(input)) :: ParseLine(l, fromXyz).Ok?
    ensures (forall l | l in Lines(Trim(input)) :: ParseLine(l, fromXyz).Ok?) ==> r.Ok?
    ensures r.Ok? ==> var ls := Lines(Trim(input));
      |r.value| == |ls| && forall i | 0 <= i < |ls| :: Ok(r.value[i]) == ParseLine(ls[i], fromXyz)
  {
    var ls := Lines(Trim(input));
    var parsed := seq(|ls|, i requires 0 <= i < |ls| => ParseLine(ls[i], fromXyz));
    assert forall i | 0 <= i < |ls| :: parsed[i] == ParseLine(ls[i], fromXyz);
    var r := Collect(parsed);
    r
  }

  /** `part1`: the second column is Santa's move. */
  function Part1(games: seq<(Rps, Rps)>): (r: nat)
    ensures |games| <= r <= 9 * |games|
    ensures forall i | 0 <= i < |games| :: ScoreGame(games[i].1, games[i].0) <= r
  {
    if games == [] then 0
    else
      assert forall i | 1 <= i < |games| :: games[1..][i - 1] == games[i];
      ScoreGame(games[0].1, games[0].0) + Part1(games[1..])
  }

  /** `part2`: the second column is the outcome Santa must reach; the move is
      the one `choose_to_get_outcome` returns. */
  function Part2(games: seq<(Rps, Outcome)>): (r: nat)
    ensures |games| <= r <= 9 * |games|
    ensures forall i | 0 <= i < |games| :: ScoreGame(Response(games[i].0, games[i].1), games[i].0) <= r
  {
    if games == [] then 0
    else
      assert forall i | 1 <= i < |games| :: games[1..][i - 1] == games[i];
      var (elf, outcome) := games[0];
      ScoreGame(Response(elf, outcome), elf) + Part2(games[1..])
  }

  /** The moves Santa plays in part 2. */
  function Choices(games: seq<(Rps, Outcome)>): (r: seq<(Rps, Rps)>)
    ensures |r| == |games|
    ensures forall i | 0 <= i < |games| :: r[i].0 == games[i].0
                                        && Play(r[i].1, r[i].0) == games[i].1
  {
    seq(|games|, i requires 0 <= i < |games| => (games[i].0, Response(games[i].0, games[i].1)))
  }

  /** Part 2 is part 1 played with the chosen moves. */
  lemma {:induction false} Part2IsPart1OfChoices(games: seq<(Rps, Outcome)>)
    ensures Part2(games) == Part1(Choices(games))
  {
    if games != [] {
      Part2IsPart1OfChoices(games[1..]);
      assert Choices(games)[1..] == Choices(games[1..]);
    }
  }

  /** Part 2 scores each round with exactly the outcome the guide asks for. */
  lemma {:induction false} Part2Meaning(games: seq<(Rps, Outcome)>, i: nat)
    requires i < |games|
    ensures Part2(games) == Part2(games[..i])
                          + RpsScore(Response(games[i].0, games[i].1)) + OutcomeScore(games[i].1)
                          + Part2(games[i + 1..])
  {
    if i == 0 {
      assert games[..0] == [];
      ResponseUnique(games[0].0, games[0].1, Response(games[0].0, games[0].1));
    } else {
      Part2Meaning(games[1..], i - 1);
      assert games[1..][..i - 1] == games[..i][1..];
      assert games[1..][i - 1 + 1..] == games[i + 1..];
    }
  }

  lemma ExampleSplit(l: string)
    requires |l| == 3 && l[0] != ' ' && l[1] == ' ' && l[2] != ' '
    ensures SplitOnce(l, ' ') == Some(([l[0]], [l[2]]))
  {
    assert IndexOfAny(l, {' '}) == Some(1);
    assert l[..1] == [l[0]] && l[2..] == [l[2]];
  }

  /** The example in the source's tests, as parsed each way. */
  lemma Example()
    ensures Part1([(Rock, Paper), (Paper, Rock), (Sciscors, Sciscors)]) == 15
    ensures Part2([(Rock, Draw), (Paper, Loose), (Sciscors, Win)]) == 12
  {
  }

  /** Each example line parses to the pair the example uses. */
  lemma ExampleLines()
    ensures ParseLine("A Y", RpsFromXyz) == Ok((Rock, Paper))
    ensures ParseLine("A Y", OutcomeFromXyz) == Ok((Rock, Draw))
    ensures ParseLine("B X", RpsFromXyz) == Ok((Paper, Rock))
    ensures ParseLine("B X", OutcomeFromXyz) == Ok((Paper, Loose))
    ensures ParseLine("C Z", RpsFromXyz) == Ok((Sciscors, Sciscors))
    ensures ParseLine("C Z", OutcomeFromXyz) == Ok((Sciscors, Win))
  {
    ExampleSplit("A Y");
    ExampleSplit("B X");
    ExampleSplit("C Z");
  }
}
