/** Cube conundrum (2023/src/bin/day02.rs): each game shows several rounds
    of red, green and blue cubes. Part 1 sums the ids of the games possible
    with 12 red, 13 green and 14 blue cubes; part 2 sums, over the games,
    the product of the fewest cubes of each colour that make the game
    possible. */
module Y2023Day02 {
  import opened Wrappers
  import opened Text

  /** `Round`: cubes of each colour shown at once. */
  datatype Round = Round(red: nat, green: nat, blue: nat)

  /** `Game`: an id and its rounds, in order. */
  datatype Game = Game(id: nat, rounds: seq<Round>)

  datatype Colour = Red | Green | Blue

  function ColourName(c: Colour): string {
    match c
    case Red => "red"
    case Green => "green"
    case Blue => "blue"
  }

  /** The colour a name stands for, if any. */
  function ColourOf(name: string): (r: Option<Colour>)
    ensures r.Some? <==> name == "red" || name == "green" || name == "blue"
    ensures r.Some? ==> ColourName(r.value) == name
  {
    if name == "red" then Some(Red)
    else if name == "green" then Some(Green)
    else if name == "blue" then Some(Blue)
    else None
  }

  /** The count of one colour in a round. */
  function Field(rd: Round, c: Colour): nat {
    match c
    case Red => rd.red
    case Green => rd.green
    case Blue => rd.blue
  }

  // ---------------------------------------------------------------------
  // Parsing a round

  /** One comma-separated element of a round: a count and a colour. */
  datatype Elem = Elem(num: nat, colour: Colour)

  function CouldNotSplit(elem: string): string { "Could not split element: " + elem }

  function WeirdColour(name: string): string { "Weird color: " + name }

  function DoubleColour(name: string): string { "Double color: " + name }

  /** The body of the loop in `Round::from_str` up to the colour: the
      trimmed element is cut at its first space into a `u32` count and a
      colour name. An element without a space is an error; one that parses
      has its count before the space and its colour's name after it; a
      count followed by an unknown name is a colour error. */
  function ElemFromStr(elem: string): (r: Result<Elem>)
    ensures SplitOnce(Trim(elem), ' ').None? ==> r == Err(CouldNotSplit(elem))
    ensures r.Ok? ==>
              && SplitOnce(Trim(elem), ' ').Some?
              && ParseNatUpTo(SplitOnce(Trim(elem), ' ').value.0, U32Max) == Ok(r.value.num)
              && ColourName(r.value.colour) == SplitOnce(Trim(elem), ' ').value.1
    ensures SplitOnce(Trim(elem), ' ').Some? && ParseNatUpTo(SplitOnce(Trim(elem), ' ').value.0, U32Max).Ok?
            && ColourOf(SplitOnce(Trim(elem), ' ').value.1).None? ==>
              r == Err(WeirdColour(SplitOnce(Trim(elem), ' ').value.1))
  {
    match SplitOnce(Trim(elem), ' ')
    case None => Err(CouldNotSplit(elem))
    case Some((num, name)) =>
      match ParseNatUpTo(num, U32Max)
      case Err(e) => Err(e)
      case Ok(n) =>
        match ColourOf(name)
        case None => Err(WeirdColour(name))
        case Some(c) => Ok(Elem(n, c))
  }

  /** The loop's variables `r`, `g` and `b`: the count of each colour seen
      so far. */
  datatype Seen = Seen(r: Option<nat>, g: Option<nat>, b: Option<nat>)

  function Get(seen: Seen, c: Colour): Option<nat> {
    match c
    case Red => seen.r
    case Green => seen.g
    case Blue => seen.b
  }

  function Put(seen: Seen, c: Colour, n: nat): (r: Seen)
    ensures Get(r, c) == Some(n)
    ensures forall d | d != c :: Get(r, d) == Get(seen, d)
  {
    match c
    case Red => seen.(r := Some(n))
    case Green => seen.(g := Some(n))
    case Blue => seen.(b := Some(n))
  }

  /** Every element of a round, parsed. */
  function Parsed(elems: seq<string>): (rs: seq<Result<Elem>>)
    ensures |rs| == |elems| && forall k | 0 <= k < |elems| :: rs[k] == ElemFromStr(elems[k])
  {
    seq(|elems|, k requires 0 <= k < |elems| => ElemFromStr(elems[k]))
  }

  /** The loop over the parsed elements: the first element that does not
      parse or that repeats a colour ends it with an error. */
  function Scan(rs: seq<Result<Elem>>): Result<Seen> {
    if rs == [] then Ok(Seen(None, None, None))
    else
      match Scan(rs[..|rs| - 1])
      case Err(e) => Err(e)
      case Ok(seen) =>
        match rs[|rs| - 1]
        case Err(e) => Err(e)
        case Ok(el) =>
          if Get(seen, el.colour).Some? then Err(DoubleColour(ColourName(el.colour)))
          else Ok(Put(seen, el.colour, el.num))
  }

  function Default(o: Option<nat>): nat {
    if o.Some? then o.value else 0
  }

  /** `Round::from_str`: the elements between commas, a missing colour
      counting 0. It succeeds exactly when every element parses and no
      colour is named twice; each named colour then has its count, and a
      colour not named counts 0. */
  function RoundFromStr(s: string): (r: Result<Round>)
    ensures var rs := Parsed(Split(s, {','}));
      r.Ok? <==> AllElems(rs) && Distinct(rs)
    ensures var rs := Parsed(Split(s, {','}));
      r.Ok? ==>
        && (forall k | 0 <= k < |rs| :: Field(r.value, rs[k].value.colour) == rs[k].value.num)
        && (forall c: Colour | (forall k | 0 <= k < |rs| :: rs[k].value.colour != c) :: Field(r.value, c) == 0)
  {
    ScanRound(Parsed(Split(s, {','})));
    FromSeen(Scan(Parsed(Split(s, {','}))))
  }

  /** The round the loop's variables make once it is done. */
  function FromSeen(sc: Result<Seen>): Result<Round> {
    match sc
    case Err(e) => Err(e)
    case Ok(seen) => Ok(Round(Default(seen.r), Default(seen.g), Default(seen.b)))
  }

  /** Every element parses. */
  predicate AllElems(rs: seq<Result<Elem>>) {
    forall k | 0 <= k < |rs| :: rs[k].Ok?
  }

  /** No two elements name the same colour. */
  predicate Distinct(rs: seq<Result<Elem>>)
    requires AllElems(rs)
  {
    forall j, k | 0 <= j < k < |rs| :: rs[j].value.colour != rs[k].value.colour
  }

  /** Once the first elements fail, the whole loop fails the same way. */
  lemma {:induction false} ScanErrStays(rs: seq<Result<Elem>>, k: nat)
    requires k <= |rs| && Scan(rs[..k]).Err?
    ensures Scan(rs) == Scan(rs[..k])
    decreases |rs|
  {
    if k < |rs| {
      var init := rs[..|rs| - 1];
      assert init[..k] == rs[..k];
      ScanErrStays(init, k);
    } else {
      assert rs[..k] == rs;
    }
  }

  /** What the loop holds: each parsed element's count under its colour,
      and nothing under a colour no element names. */
  ghost predicate Holds(rs: seq<Result<Elem>>, seen: Seen)
    requires AllElems(rs)
  {
    && (forall k | 0 <= k < |rs| :: Get(seen, rs[k].value.colour) == Some(rs[k].value.num))
    && (forall c: Colour | Get(seen, c).Some? :: exists k | 0 <= k < |rs| :: rs[k].value.colour == c)
  }

  /** The loop succeeds exactly when every element parses and no colour is
      named twice; it then holds each named colour's count and nothing for
      the others. */
  lemma {:induction false} ScanMeaning(rs: seq<Result<Elem>>)
    ensures Scan(rs).Ok? <==> AllElems(rs) && Distinct(rs)
    ensures Scan(rs).Ok? ==> Holds(rs, Scan(rs).value)
  {
    if rs != [] {
      var init := rs[..|rs| - 1];
      var n := |rs| - 1;
      assert forall k | 0 <= k < n :: init[k] == rs[k];
      ScanMeaning(init);
      if Scan(init).Ok? && rs[n].Ok? {
        var seen := Scan(init).value;
        var el := rs[n].value;
        if Get(seen, el.colour).Some? {
          var j :| 0 <= j < n && init[j].value.colour == el.colour;
          assert rs[j].value.colour == rs[n].value.colour;
        } else {
          ScanStepMeaning(rs, seen, el);
        }
      }
    }
  }

  /** The last element, of a colour not seen before, keeps the loop's
      meaning. */
  lemma ScanStepMeaning(rs: seq<Result<Elem>>, seen: Seen, el: Elem)
    requires rs != []
    requires var init := rs[..|rs| - 1]; AllElems(init) && Distinct(init) && Holds(init, seen)
    requires rs[|rs| - 1] == Ok(el) && Get(seen, el.colour).None?
    ensures AllElems(rs) && Distinct(rs) && Holds(rs, Put(seen, el.colour, el.num))
  {
    var init := rs[..|rs| - 1];
    var n := |rs| - 1;
    assert forall k | 0 <= k < n :: init[k] == rs[k];
    forall k | 0 <= k < n ensures rs[k].value.colour != el.colour {
      assert Get(seen, init[k].value.colour).Some?;
    }
    var next := Put(seen, el.colour, el.num);
    forall c: Colour | Get(next, c).Some?
      ensures exists k | 0 <= k < |rs| :: rs[k].value.colour == c
    {
      if c == el.colour {
        assert rs[n].value.colour == c;
      } else {
        var k :| 0 <= k < n && init[k].value.colour == c;
        assert rs[k].value.colour == c;
      }
    }
  }

  /** The finished loop succeeds exactly when every element parses and no
      colour is named twice; each named colour then has its count, and a
      colour not named counts 0. */
  lemma ScanRound(rs: seq<Result<Elem>>)
    ensures FromSeen(Scan(rs)).Ok? <==> AllElems(rs) && Distinct(rs)
    ensures FromSeen(Scan(rs)).Ok? ==>
        && (forall k | 0 <= k < |rs| :: Field(FromSeen(Scan(rs)).value, rs[k].value.colour) == rs[k].value.num)
        && (forall c: Colour | (forall k | 0 <= k < |rs| :: rs[k].value.colour != c) ::
              Field(FromSeen(Scan(rs)).value, c) == 0)
  {
    ScanMeaning(rs);
    if Scan(rs).Ok? {
      var seen := Scan(rs).value;
      var rd := FromSeen(Scan(rs)).value;
      assert forall c: Colour :: Field(rd, c) == Default(Get(seen, c));
      forall c: Colour | (forall k | 0 <= k < |rs| :: rs[k].value.colour != c)
        ensures Get(seen, c).None?
      {
      }
    }
  }

  /** `Round::from_str` as the source writes it: a loop over the elements
      that fills `r`, `g` and `b`, failing on a repeated colour. */
  method ParseRound(s: string) returns (res: Result<Round>)
    ensures res == RoundFromStr(s)
  {
    var elems := Split(s, {','});
    ghost var rs := Parsed(elems);
    var r: Option<nat> := None;
    var g: Option<nat> := None;
    var b: Option<nat> := None;
    assert rs[..0] == [];
    for k := 0 to |elems|
      invariant Scan(rs[..k]) == Ok(Seen(r, g, b))
    {
      assert rs[..k + 1][..k] == rs[..k];
      var el := ElemFromStr(elems[k]);
      assert rs[..k + 1][k] == el;
      if el.Err? {
        ScanErrStays(rs, k + 1);
        return Err(el.error);
      }
      var num := el.value.num;
      var prev: Option<nat>;
      match el.value.colour {
        case Red =>
          prev := r;
          r := Some(num);
        case Green =>
          prev := g;
          g := Some(num);
        case Blue =>
          prev := b;
          b := Some(num);
      }
      if prev.Some? {
        ScanErrStays(rs, k + 1);
        return Err(DoubleColour(ColourName(el.value.colour)));
      }
    }
    assert rs[..|rs|] == rs;
    res := Ok(Round(Default(r), Default(g), Default(b)));
  }

  // ---------------------------------------------------------------------
  // Parsing a game

  /** The source prints the line with `Debug`, modelled as plain quoting. */
  function WeirdGame(s: string): string { "Weird game " + Quoted(s) }

  /** `Game::from_str`: the id after the line's leading `"Game "`s, up to
      the first colon, then the rounds between semicolons. */
  function GameFromStr(s: string): (r: Result<Game>)
    ensures ':' !in s ==> r == Err(WeirdGame(s))
    ensures r.Ok? ==>
              && ':' in s
              && var (start, rest) := SplitOnce(s, ':').value;
                 && ParseNatUpTo(TrimStartMatches(start, "Game "), U32Max) == Ok(r.value.id)
                 && |r.value.rounds| == |Split(rest, {';'})|
                 && forall k | 0 <= k < |r.value.rounds| :: RoundFromStr(Split(rest, {';'})[k]) == Ok(r.value.rounds[k])
  {
    match SplitOnce(s, ':')
    case None => Err(WeirdGame(s))
    case Some((start, rest)) =>
      match ParseNatUpTo(TrimStartMatches(start, "Game "), U32Max)
      case Err(e) => Err(e)
      case Ok(id) =>
        match CollectMap(Split(rest, {';'}), RoundFromStr)
        case Err(e) => Err(e)
        case Ok(rounds) => Ok(Game(id, rounds))
  }

  /** `parse_games`: one game per line, stopping at the first error. */
  function ParseGames(input: string): (r: Result<seq<Game>>)
    ensures r.Ok? <==> forall i | 0 <= i < |Lines(input)| :: GameFromStr(Lines(input)[i]).Ok?
    ensures r.Ok? ==> |r.value| == |Lines(input)|
                      && forall i | 0 <= i < |r.value| :: Ok(r.value[i]) == GameFromStr(Lines(input)[i])
  {
    var ls := Lines(input);
    var r := CollectMap(ls, GameFromStr);
    assert r.Ok? ==> forall i | 0 <= i < |ls| :: GameFromStr(ls[i]).Ok? by {
      if r.Ok? {
        forall i | 0 <= i < |ls| ensures GameFromStr(ls[i]).Ok? {
          assert Ok(r.value[i]) == GameFromStr(ls[i]);
        }
      }
    }
    r
  }

  // ---------------------------------------------------------------------
  // The fewest cubes

  function MaxRound(a: Round, b: Round): Round {
    Round(if a.red >= b.red then a.red else b.red,
          if a.green >= b.green then a.green else b.green,
          if a.blue >= b.blue then a.blue else b.blue)
  }

  /** `Game::min_stones`: the componentwise maximum, folded from all zeros;
      every round fits within it. */
  function MinStones(rounds: seq<Round>): (r: Round)
    ensures forall k | 0 <= k < |rounds| :: Covers(r, rounds[k])
  {
    if rounds == [] then Round(0, 0, 0)
    else
      var init := rounds[..|rounds| - 1];
      assert forall k | 0 <= k < |init| :: init[k] == rounds[k];
      MaxRound(MinStones(init), rounds[|rounds| - 1])
  }

  /** `m` has at least as many cubes of each colour as `rd`. */
  predicate Covers(m: Round, rd: Round) {
    rd.red <= m.red && rd.green <= m.green && rd.blue <= m.blue
  }

  /** Any cubes that every round fits within are at least the fewest. */
  lemma {:induction false} MinStonesLeast(rounds: seq<Round>, m: Round)
    requires forall k | 0 <= k < |rounds| :: Covers(m, rounds[k])
    ensures Covers(m, MinStones(rounds))
  {
    if rounds != [] {
      var init := rounds[..|rounds| - 1];
      assert forall k | 0 <= k < |init| :: init[k] == rounds[k];
      MinStonesLeast(init, m);
    }
  }

  // ---------------------------------------------------------------------
  // The parts

  /** The cubes in the bag for part 1. */
  const Bag: Round := Round(12, 13, 14)

  /** Every round of the game fits within the bag. */
  predicate Possible(g: Game) {
    forall k | 0 <= k < |g.rounds| :: Covers(Bag, g.rounds[k])
  }

  /** A game is possible exactly when its fewest cubes fit within the bag. */
  lemma PossibleMinStones(g: Game)
    ensures Possible(g) <==> Covers(Bag, MinStones(g.rounds))
  {
    if Possible(g) {
      MinStonesLeast(g.rounds, Bag);
    }
  }

  /** `part1`: the ids of the possible games, summed; every possible game's
      id is at most the sum, and the sum is 0 when no game is possible. */
  function Part1(games: seq<Game>): (r: nat)
    ensures forall k | 0 <= k < |games| && Possible(games[k]) :: games[k].id <= r
    ensures (forall k | 0 <= k < |games| :: !Possible(games[k])) ==> r == 0
  {
    if games == [] then 0
    else
      var init, g := games[..|games| - 1], games[|games| - 1];
      assert forall k | 0 <= k < |init| :: init[k] == games[k];
      Part1(init) + (if Possible(g) then g.id else 0)
  }

  /** The product of a round's counts. */
  function Power(rd: Round): nat { rd.red * rd.green * rd.blue }

  /** `part2`: the powers of every game's fewest cubes, summed; no game's
      power exceeds the sum. */
  function Part2(games: seq<Game>): (r: nat)
    ensures forall k | 0 <= k < |games| :: Power(MinStones(games[k].rounds)) <= r
  {
    if games == [] then 0
    else
      var init := games[..|games| - 1];
      assert forall k | 0 <= k < |init| :: init[k] == games[k];
      Part2(init) + Power(MinStones(games[|games| - 1].rounds))
  }

  /** Part 1 counts a game exactly when part 2's fewest cubes for it fit
      within the bag. */
  lemma {:induction false} Part1ByMinStones(games: seq<Game>)
    ensures Part1(games) == Part1Min(games)
  {
    if games != [] {
      Part1ByMinStones(games[..|games| - 1]);
      PossibleMinStones(games[|games| - 1]);
    }
  }

  /** Part 1 with the fewest cubes in place of every round. */
  function Part1Min(games: seq<Game>): nat {
    if games == [] then 0
    else
      var g := games[|games| - 1];
      Part1Min(games[..|games| - 1]) + (if Covers(Bag, MinStones(g.rounds)) then g.id else 0)
  }

  // ---------------------------------------------------------------------
  // The example

  function ExampleGames(): seq<Game> {
    [ Game(1, [Round(4, 0, 3), Round(1, 2, 6), Round(0, 2, 0)]),
      Game(2, [Round(0, 2, 1), Round(1, 3, 4), Round(0, 1, 1)]),
      Game(3, [Round(20, 8, 6), Round(4, 13, 5), Round(1, 5, 0)]),
      Game(4, [Round(3, 1, 6), Round(6, 3, 0), Round(14, 3, 15)]),
      Game(5, [Round(6, 3, 1), Round(1, 2, 2)]) ]
  }

  /** One more round folds into the fewest cubes. */
  lemma MinStonesSnoc(rounds: seq<Round>, rd: Round)
    ensures MinStones(rounds + [rd]) == MaxRound(MinStones(rounds), rd)
  {
    assert (rounds + [rd])[..|rounds|] == rounds;
  }

  /** One more game adds its share to part 1. */
  lemma Part1MinSnoc(games: seq<Game>, g: Game)
    ensures Part1Min(games + [g]) == Part1Min(games) + (if Covers(Bag, MinStones(g.rounds)) then g.id else 0)
  {
    assert (games + [g])[..|games|] == games;
  }

  /** One more game adds its power to part 2. */
  lemma Part2Snoc(games: seq<Game>, g: Game)
    ensures Part2(games + [g]) == Part2(games) + Power(MinStones(g.rounds))
  {
    assert (games + [g])[..|games|] == games;
  }

  /** The fewest cubes of three rounds, one after the other. */
  lemma MinStonesOfThree(a: Round, b: Round, c: Round)
    ensures MinStones([a, b, c]) == MaxRound(MaxRound(MaxRound(Round(0, 0, 0), a), b), c)
  {
    MinStonesSnoc([], a);
    MinStonesSnoc([a], b);
    MinStonesSnoc([a, b], c);
    assert [] + [a] == [a] && [a] + [b] == [a, b] && [a, b] + [c] == [a, b, c];
  }

  /** The fewest cubes of two rounds. */
  lemma MinStonesOfTwo(a: Round, b: Round)
    ensures MinStones([a, b]) == MaxRound(MaxRound(Round(0, 0, 0), a), b)
  {
    MinStonesSnoc([], a);
    MinStonesSnoc([a], b);
    assert [] + [a] == [a] && [a] + [b] == [a, b];
  }

  /** The example's fewest cubes per game. */
  lemma ExampleMinStones()
    ensures var gs := ExampleGames();
      && MinStones(gs[0].rounds) == Round(4, 2, 6)
      && MinStones(gs[1].rounds) == Round(1, 3, 4)
      && MinStones(gs[2].rounds) == Round(20, 13, 6)
      && MinStones(gs[3].rounds) == Round(14, 3, 15)
      && MinStones(gs[4].rounds) == Round(6, 3, 2)
  {
    MinStonesOfThree(Round(4, 0, 3), Round(1, 2, 6), Round(0, 2, 0));
    MinStonesOfThree(Round(0, 2, 1), Round(1, 3, 4), Round(0, 1, 1));
    MinStonesOfThree(Round(20, 8, 6), Round(4, 13, 5), Round(1, 5, 0));
    MinStonesOfThree(Round(3, 1, 6), Round(6, 3, 0), Round(14, 3, 15));
    MinStonesOfTwo(Round(6, 3, 1), Round(1, 2, 2));
  }

  /** The example's part 1 answer in the source's test: games 1, 2 and 5
      are possible, and their ids sum to 8. */
  lemma ExamplePart1()
    ensures Part1(ExampleGames()) == 8
  {
    var gs := ExampleGames();
    ExampleMinStones();
    Part1ByMinStones(gs);
    ExampleSnocs1();
  }

  /** The example's part 2 answer, 2286, which the puzzle text gives and the
      source's tests do not check: the powers 48, 12, 1560, 630 and 36. */
  lemma ExamplePart2()
    ensures Part2(ExampleGames()) == 2286
  {
    ExampleMinStones();
    ExampleSnocs2();
  }

  /** The example's games, added one at a time, for part 1. */
  lemma ExampleSnocs1()
    ensures var gs := ExampleGames();
      && Part1Min(gs) == Part1Min(gs[..4]) + (if Covers(Bag, MinStones(gs[4].rounds)) then gs[4].id else 0)
      && Part1Min(gs[..4]) == Part1Min(gs[..3]) + (if Covers(Bag, MinStones(gs[3].rounds)) then gs[3].id else 0)
      && Part1Min(gs[..3]) == Part1Min(gs[..2]) + (if Covers(Bag, MinStones(gs[2].rounds)) then gs[2].id else 0)
      && Part1Min(gs[..2]) == Part1Min(gs[..1]) + (if Covers(Bag, MinStones(gs[1].rounds)) then gs[1].id else 0)
      && Part1Min(gs[..1]) == (if Covers(Bag, MinStones(gs[0].rounds)) then gs[0].id else 0)
  {
    var gs := ExampleGames();
    assert [] + [gs[0]] == gs[..1] && gs[..1] + [gs[1]] == gs[..2] && gs[..2] + [gs[2]] == gs[..3];
    assert gs[..3] + [gs[3]] == gs[..4] && gs[..4] + [gs[4]] == gs;
    Part1MinSnoc([], gs[0]);
    Part1MinSnoc(gs[..1], gs[1]);
    Part1MinSnoc(gs[..2], gs[2]);
    Part1MinSnoc(gs[..3], gs[3]);
    Part1MinSnoc(gs[..4], gs[4]);
  }

  /** The example's games, added one at a time, for part 2. */
  lemma ExampleSnocs2()
    ensures var gs := ExampleGames();
      && Part2(gs) == Part2(gs[..4]) + Power(MinStones(gs[4].rounds))
      && Part2(gs[..4]) == Part2(gs[..3]) + Power(MinStones(gs[3].rounds))
      && Part2(gs[..3]) == Part2(gs[..2]) + Power(MinStones(gs[2].rounds))
      && Part2(gs[..2]) == Part2(gs[..1]) + Power(MinStones(gs[1].rounds))
      && Part2(gs[..1]) == Power(MinStones(gs[0].rounds))
  {
    var gs := ExampleGames();
    assert [] + [gs[0]] == gs[..1] && gs[..1] + [gs[1]] == gs[..2] && gs[..2] + [gs[2]] == gs[..3];
    assert gs[..3] + [gs[3]] == gs[..4] && gs[..4] + [gs[4]] == gs;
    Part2Snoc([], gs[0]);
    Part2Snoc(gs[..1], gs[1]);
    Part2Snoc(gs[..2], gs[2]);
    Part2Snoc(gs[..3], gs[3]);
    Part2Snoc(gs[..4], gs[4]);
  }
}
