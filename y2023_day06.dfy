/** Boat races (2023/src/bin/day06.rs): holding the button for `hold` of a
    race's `time` milliseconds makes the boat travel `hold * (time - hold)`,
    and a hold wins when that beats the record distance. */
module Y2023Day06 {
  import opened Wrappers
  import opened Text

  /** `Race`: the race's length and the record to beat. */
  datatype Race = Race(time: nat, dist: nat)

  /** How far the boat goes when the button is held for `hold`: it moves
      `hold` per millisecond for the rest of the race. */
  function Distance(r: Race, hold: nat): nat
    requires hold <= r.time
  {
    hold * (r.time - hold)
  }

  /** A hold within the race that goes further than the record. */
  predicate Wins(r: Race, hold: nat) {
    hold <= r.time && Distance(r, hold) > r.dist
  }

  /** `hold` wins and no shorter hold does. */
  predicate IsLeastWin(r: Race, hold: nat) {
    Wins(r, hold) && forall h | 0 <= h < hold :: !Wins(r, h)
  }

  /** `hold` wins and no longer hold within the race does. */
  predicate IsGreatestWin(r: Race, hold: nat) {
    Wins(r, hold) && forall h | hold < h <= r.time :: !Wins(r, h)
  }

  /** Some hold wins the race; `num_holds` panics on a race without one. */
  predicate Winnable(r: Race) {
    exists h | 0 <= h <= r.time :: Wins(r, h)
  }

  // ---------------------------------------------------------------------
  // The searches

  /** The inner loop of `min_hold` and `max_hold`: `hold` added once for
      each of the `remain` milliseconds left. */
  method Travel(hold: nat, remain: nat) returns (dist: nat)
    ensures dist == hold * remain
  {
    dist := 0;
    for t := 0 to remain
      invariant dist == hold * t
    {
      dist := dist + hold;
    }
  }

  /** `Race::min_hold`: the holds from 0 up, the first that wins. */
  method MinHold(r: Race) returns (res: Option<nat>)
    ensures res.Some? ==> IsLeastWin(r, res.value)
    ensures res.None? ==> forall h | 0 <= h <= r.time :: !Wins(r, h)
  {
    for hold := 0 to r.time + 1
      invariant forall h | 0 <= h < hold :: !Wins(r, h)
    {
      var dist := Travel(hold, r.time - hold);
      if dist > r.dist {
        return Some(hold);
      }
    }
    return None;
  }

  /** `Race::max_hold`: the holds from `time` down, the first that wins. */
  method MaxHold(r: Race) returns (res: Option<nat>)
    ensures res.Some? ==> IsGreatestWin(r, res.value)
    ensures res.None? ==> forall h | 0 <= h <= r.time :: !Wins(r, h)
  {
    for hold := r.time + 1 downto 0
      invariant forall h | hold <= h <= r.time :: !Wins(r, h)
    {
      var dist := Travel(hold, r.time - hold);
      if dist > r.dist {
        return Some(hold);
      }
    }
    return None;
  }

  // ---------------------------------------------------------------------
  // The winning holds form an interval

  lemma MulNonNegative(x: int, y: int)
    requires x >= 0 && y >= 0
    ensures x * y >= 0
  {
  }

  /** Every hold between two winning holds wins too: the distance rises
      up to half the race and falls after it. */
  lemma WinsBetween(r: Race, a: nat, h: nat, b: nat)
    requires Wins(r, a) && Wins(r, b) && a <= h <= b
    ensures Wins(r, h)
  {
    var t: int := r.time;
    if h + a <= t {
      assert h * (t - h) - a * (t - a) == (h - a) * (t - h - a);
      MulNonNegative(h - a, t - h - a);
    } else {
      assert h * (t - h) - b * (t - b) == (b - h) * (h + b - t);
      MulNonNegative(b - h, h + b - t);
    }
  }

  /** Holding for `hold` or for the rest of the race goes as far. */
  lemma WinsMirror(r: Race, hold: nat)
    requires hold <= r.time
    ensures Wins(r, hold) <==> Wins(r, r.time - hold)
  {
    assert Distance(r, r.time - hold) == (r.time - hold) * hold;
  }

  /** The least and greatest winning holds lie symmetrically about half the
      race. */
  lemma LeastGreatestSum(r: Race, a: nat, b: nat)
    requires IsLeastWin(r, a) && IsGreatestWin(r, b)
    ensures a + b == r.time
  {
    WinsMirror(r, a);
    WinsMirror(r, b);
  }

  /** How many holds below `k` win. */
  function CountWins(r: Race, k: nat): (n: nat)
    ensures n == |set h: nat | h < k && Wins(r, h)|
  {
    if k == 0 then
      assert (set h: nat | h < k && Wins(r, h)) == {};
      0
    else
      var below := set h: nat | h < k - 1 && Wins(r, h);
      assert (set h: nat | h < k && Wins(r, h)) == if Wins(r, k - 1) then below + {k - 1} else below;
      CountWins(r, k - 1) + (if Wins(r, k - 1) then 1 else 0)
  }

  /** How many holds win the race. */
  function WinCount(r: Race): nat {
    CountWins(r, r.time + 1)
  }

  /** Between a least and a greatest winning hold, the holds below `k` that
      win are those from `a` on. */
  lemma {:induction false} CountWinsInterval(r: Race, a: nat, b: nat, k: nat)
    requires IsLeastWin(r, a) && IsGreatestWin(r, b)
    ensures CountWins(r, k) == if k <= a then 0 else if k <= b + 1 then k - a else b - a + 1
  {
    if k > 0 {
      CountWinsInterval(r, a, b, k - 1);
      var h := k - 1;
      if a <= h <= b {
        WinsBetween(r, a, h, b);
      }
    }
  }

  /** The number of winning holds is the width of the interval between the
      least and the greatest. */
  lemma WinCountInterval(r: Race, a: nat, b: nat)
    requires IsLeastWin(r, a) && IsGreatestWin(r, b)
    ensures a <= b && WinCount(r) == b - a + 1
  {
    CountWinsInterval(r, a, b, r.time + 1);
  }

  /** A winning hold that the one before it does not share is the least; one
      that the next does not share is the greatest. */
  lemma EdgesOfWins(r: Race, a: nat, b: nat)
    requires Wins(r, a) && Wins(r, b)
    requires a == 0 || !Wins(r, a - 1)
    requires b == r.time || !Wins(r, b + 1)
    ensures IsLeastWin(r, a) && IsGreatestWin(r, b)
  {
    forall h | 0 <= h < a ensures !Wins(r, h) {
      if Wins(r, h) { WinsBetween(r, h, a - 1, b); }
    }
    forall h | b < h <= r.time ensures !Wins(r, h) {
      if Wins(r, h) { WinsBetween(r, a, b + 1, h); }
    }
  }

  /** `Race::num_holds`: the holds from the least to the greatest winning
      one. Both searches must succeed, or it panics. */
  method NumHolds(r: Race) returns (n: nat)
    requires Winnable(r)
    ensures n == WinCount(r)
  {
    var lo := MinHold(r);
    var hi := MaxHold(r);
    var a := lo.value;
    var b := hi.value;
    WinCountInterval(r, a, b);
    n := if a <= b then b - a + 1 else 0;
  }

  // ---------------------------------------------------------------------
  // The input and the two parts

  /** `Input`: the races in the order they are listed. */
  datatype Input = Input(races: seq<Race>)

  /** The product of the races' winning counts, in order. */
  function HoldsProduct(rs: seq<Race>): nat {
    if rs == [] then 1 else HoldsProduct(rs[..|rs| - 1]) * WinCount(rs[|rs| - 1])
  }

  /** `Input::p1`: the product of every race's `num_holds`. */
  method P1(input: Input) returns (p: nat)
    requires forall i | 0 <= i < |input.races| :: Winnable(input.races[i])
    ensures p == HoldsProduct(input.races)
  {
    var rs := input.races;
    p := 1;
    for i := 0 to |rs|
      invariant p == HoldsProduct(rs[..i])
    {
      var n := NumHolds(rs[i]);
      assert rs[..i + 1][..i] == rs[..i];
      p := p * n;
    }
    assert rs[..|rs|] == rs;
  }

  /** The product is zero exactly when some race cannot be won. */
  lemma {:induction false} HoldsProductZero(rs: seq<Race>)
    ensures HoldsProduct(rs) == 0 <==> exists i | 0 <= i < |rs| :: WinCount(rs[i]) == 0
  {
    if rs != [] {
      var init := rs[..|rs| - 1];
      HoldsProductZero(init);
      assert forall i | 0 <= i < |init| :: init[i] == rs[i];
      if WinCount(rs[|rs| - 1]) != 0 && HoldsProduct(init) != 0 {
        MulNonZero(HoldsProduct(init), WinCount(rs[|rs| - 1]));
      }
    }
  }

  lemma MulNonZero(x: nat, y: nat)
    requires x > 0 && y > 0
    ensures x * y > 0
  {
  }

  /** The races' times, in order. */
  function Times(input: Input): (ts: seq<nat>)
    ensures |ts| == |input.races| && forall i | 0 <= i < |ts| :: ts[i] == input.races[i].time
  {
    seq(|input.races|, i requires 0 <= i < |input.races| => input.races[i].time)
  }

  /** The races' record distances, in order. */
  function Dists(input: Input): (ds: seq<nat>)
    ensures |ds| == |input.races| && forall i | 0 <= i < |ds| :: ds[i] == input.races[i].dist
  {
    seq(|input.races|, i requires 0 <= i < |input.races| => input.races[i].dist)
  }

  /** The decimal numerals of `ns`, one after the other. */
  function Numerals(ns: seq<nat>): (s: string)
    ensures AllDigits(s)
    ensures ns != [] ==> s != []
  {
    if ns == [] then []
    else
      var init := Numerals(ns[..|ns| - 1]);
      DigitsValueAppend(init, NatToString(ns[|ns| - 1]));
      init + NatToString(ns[|ns| - 1])
  }

  /** The number that writing `ns` one after the other spells: each number
      shifts the ones before it left by its own count of digits. */
  function Concatenated(ns: seq<nat>): nat {
    if ns == [] then 0
    else Concatenated(ns[..|ns| - 1]) * Pow10(|NatToString(ns[|ns| - 1])|) + ns[|ns| - 1]
  }

  /** Reading the numerals back gives the concatenated number. */
  lemma {:induction false} NumeralsValue(ns: seq<nat>)
    ensures DigitsValue(Numerals(ns)) == Concatenated(ns)
  {
    if ns != [] {
      var last := ns[|ns| - 1];
      NumeralsValue(ns[..|ns| - 1]);
      DigitsValueAppend(Numerals(ns[..|ns| - 1]), NatToString(last));
      NatToStringValue(last);
    }
  }

  /** The numerals parse, as `str::parse::<u64>` reads them, to the
      concatenated number, or fail as too large. */
  lemma ParseNumerals(ns: seq<nat>)
    requires ns != []
    ensures ParseNatUpTo(Numerals(ns), U64Max) ==
      if Concatenated(ns) <= U64Max then Ok(Concatenated(ns)) else Err(TooLarge())
  {
    var s := Numerals(ns);
    NumeralsValue(ns);
    assert IsDigit(s[0]);
    assert UnsignedPart(s) == s;
  }

  /** `Input::into_p2`: the race whose time and record are the races' times
      and records written one after the other. It panics when there is no
      race (the empty string does not parse) or a number does not fit a
      `u64`. */
  function IntoP2(input: Input): (r: Race)
    requires input.races != []
    requires Concatenated(Times(input)) <= U64Max && Concatenated(Dists(input)) <= U64Max
    ensures r == Race(Concatenated(Times(input)), Concatenated(Dists(input)))
  {
    ParseNumerals(Times(input));
    ParseNumerals(Dists(input));
    Race(ParseNatUpTo(Numerals(Times(input)), U64Max).value,
         ParseNatUpTo(Numerals(Dists(input)), U64Max).value)
  }

  // ---------------------------------------------------------------------
  // Parsing

  /** Each word as a `u64`. */
  function U64s(ws: seq<string>): (rs: seq<Result<nat>>)
    ensures |rs| == |ws| && forall k | 0 <= k < |ws| :: rs[k] == ParseNatUpTo(ws[k], U64Max)
  {
    seq(|ws|, k requires 0 <= k < |ws| => ParseNatUpTo(ws[k], U64Max))
  }

  /** The words of a line after its first (the label), each a `u64`: all
      of them, or the first error. */
  function LabelledNumbers(line: string): Result<seq<nat>> {
    NumbersAfterLabel(SplitWhitespace(line))
  }

  /** `skip(1)` and then every word as a `u64`. */
  function NumbersAfterLabel(ws: seq<string>): Result<seq<nat>> {
    Collect(U64s(if ws == [] then [] else ws[1..]))
  }

  /** `zip`: the races paired by position, as many as the shorter list. */
  function Zip(ts: seq<nat>, ds: seq<nat>): seq<Race> {
    var n := if |ts| <= |ds| then |ts| else |ds|;
    seq(n, i requires 0 <= i < n => Race(ts[i], ds[i]))
  }

  /** `Input::from_str` on the lines of the text: the times and the records
      after the first two lines' labels. Fewer than two lines is an error;
      a third line makes it panic. */
  function InputFromLines(ls: seq<string>): Result<Input>
    requires |ls| <= 2
  {
    if |ls| < 2 then Err("") else InputOf(LabelledNumbers(ls[0]), LabelledNumbers(ls[1]))
  }

  /** The races from the parsed times and records: there are races when
      both lists parse, paired by position up to the shorter; otherwise the
      times' error, or else the records'. */
  function InputOf(times: Result<seq<nat>>, dists: Result<seq<nat>>): (r: Result<Input>)
    ensures r.Ok? <==> times.Ok? && dists.Ok?
    ensures times.Err? ==> r == Err(times.error)
    ensures times.Ok? && dists.Err? ==> r == Err(dists.error)
    ensures r.Ok? ==>
      var ts, ds, rs := times.value, dists.value, r.value.races;
      && |rs| == (if |ts| <= |ds| then |ts| else |ds|)
      && forall i | 0 <= i < |rs| :: rs[i] == Race(ts[i], ds[i])
  {
    match times
    case Err(e) => Err(e)
    case Ok(ts) =>
      match dists
      case Err(e) => Err(e)
      case Ok(ds) => Ok(Input(Zip(ts, ds)))
  }

  /** `Input::from_str`: the input parses exactly when it has two lines
      whose numbers after the labels parse; race `i` pairs time `i` with
      record `i`. */
  function InputFromStr(s: string): (r: Result<Input>)
    requires |Lines(s)| <= 2
    ensures r.Ok? <==> |Lines(s)| == 2 && LabelledNumbers(Lines(s)[0]).Ok? && LabelledNumbers(Lines(s)[1]).Ok?
    ensures r.Ok? ==>
      var ts, ds, rs := LabelledNumbers(Lines(s)[0]).value, LabelledNumbers(Lines(s)[1]).value, r.value.races;
      && |rs| == (if |ts| <= |ds| then |ts| else |ds|)
      && forall i | 0 <= i < |rs| :: rs[i] == Race(ts[i], ds[i])
  {
    InputFromLines(Lines(s))
  }

  /** The numbers' decimal numerals. */
  function NumeralWords(ns: seq<nat>): (ws: seq<string>)
    ensures |ws| == |ns| && forall i | 0 <= i < |ns| :: ws[i] == NatToString(ns[i])
  {
    seq(|ns|, i requires 0 <= i < |ns| => NatToString(ns[i]))
  }

  /** A line with a label and numbers, single spaces between. */
  function RenderLine(tag: string, ns: seq<nat>): string {
    Join([tag] + NumeralWords(ns), ' ')
  }

  /** A label and numerals read back as the numbers, when they fit
      `u64`s. */
  lemma NumbersAfterLabelRoundTrip(tag: string, ns: seq<nat>)
    requires forall i | 0 <= i < |ns| :: ns[i] <= U64Max
    ensures NumbersAfterLabel([tag] + NumeralWords(ns)) == Ok(ns)
  {
    var nws := NumeralWords(ns);
    var ws := [tag] + nws;
    assert ws[1..] == nws;
    var rs := U64s(nws);
    forall i | 0 <= i < |ns| ensures rs[i] == Ok(ns[i]) {
      ParseNatToString(ns[i]);
    }
    CollectOks(rs, ns);
  }

  /** Results that are all values collect to those values. */
  lemma CollectOks(rs: seq<Result<nat>>, ns: seq<nat>)
    requires |rs| == |ns| && forall i | 0 <= i < |ns| :: rs[i] == Ok(ns[i])
    ensures Collect(rs) == Ok(ns)
  {
    var c := Collect(rs);
    assert c.Ok?;
    assert c.value == ns;
  }

  /** A rendered line reads back as its numbers, when they fit `u64`s. */
  lemma RenderLineRoundTrip(tag: string, ns: seq<nat>)
    requires IsWord(tag) && forall i | 0 <= i < |ns| :: ns[i] <= U64Max
    ensures LabelledNumbers(RenderLine(tag, ns)) == Ok(ns)
  {
    var nws := NumeralWords(ns);
    var ws := [tag] + nws;
    forall i | 0 <= i < |ws| ensures IsWord(ws[i]) {
      if i > 0 {
        assert ws[i] == nws[i - 1];
        assert IsDigit(nws[i - 1][0]);
      }
    }
    SplitWhitespaceJoin(ws);
    NumbersAfterLabelRoundTrip(tag, ns);
  }

  /** The input written back as its two lines parses to the same races,
      whatever words label the lines ("Time:" and "Distance:" in the
      puzzle). */
  lemma InputRoundTrip(input: Input, timeTag: string, distTag: string)
    requires IsWord(timeTag) && IsWord(distTag)
    requires forall i | 0 <= i < |input.races| :: input.races[i].time <= U64Max && input.races[i].dist <= U64Max
    ensures InputFromLines([RenderLine(timeTag, Times(input)), RenderLine(distTag, Dists(input))]) == Ok(input)
  {
    var ts, ds := Times(input), Dists(input);
    assert forall i | 0 <= i < |ts| :: ts[i] <= U64Max;
    assert forall i | 0 <= i < |ds| :: ds[i] <= U64Max;
    RenderLineRoundTrip(timeTag, ts);
    RenderLineRoundTrip(distTag, ds);
    ZipTimesDists(input);
    InputOfLines(RenderLine(timeTag, ts), RenderLine(distTag, ds));
  }

  lemma InputOfLines(l0: string, l1: string)
    ensures InputFromLines([l0, l1]) == InputOf(LabelledNumbers(l0), LabelledNumbers(l1))
  {
    assert [l0, l1][0] == l0 && [l0, l1][1] == l1;
  }

  /** Pairing the times with the records gives the races back. */
  lemma ZipTimesDists(input: Input)
    ensures Zip(Times(input), Dists(input)) == input.races
  {
  }

  // ---------------------------------------------------------------------
  // The example

  function ExampleRaces(): seq<Race> {
    [Race(7, 9), Race(15, 40), Race(30, 200)]
  }

  /** The first race is won by holding from 2 to 5 milliseconds. */
  lemma ExampleFirstRace()
    ensures IsLeastWin(Race(7, 9), 2) && IsGreatestWin(Race(7, 9), 5)
    ensures WinCount(Race(7, 9)) == 4
  {
    var r := Race(7, 9);
    assert Wins(r, 2) && !Wins(r, 1) && Wins(r, 5) && !Wins(r, 6);
    EdgesOfWins(r, 2, 5);
    WinCountInterval(r, 2, 5);
  }

  /** The second race of the example wins with holds 4 to 11. */
  lemma ExampleSecondRace()
    ensures WinCount(Race(15, 40)) == 8
  {
    var r := Race(15, 40);
    assert Distance(r, 3) == 36 && Distance(r, 4) == 44 && Distance(r, 11) == 44 && Distance(r, 12) == 36;
    EdgesOfWins(r, 4, 11);
    WinCountInterval(r, 4, 11);
  }

  /** The third race of the example wins with holds 11 to 19. */
  lemma ExampleThirdRace()
    ensures WinCount(Race(30, 200)) == 9
  {
    var r := Race(30, 200);
    assert Distance(r, 10) == 200 && Distance(r, 11) == 209 && Distance(r, 19) == 209 && Distance(r, 20) == 200;
    EdgesOfWins(r, 11, 19);
    WinCountInterval(r, 11, 19);
  }

  /** The example's races have 4, 8 and 9 winning holds, so part 1 is
      288. */
  lemma ExampleP1()
    ensures WinCount(Race(15, 40)) == 8 && WinCount(Race(30, 200)) == 9
    ensures HoldsProduct(ExampleRaces()) == 288
  {
    ExampleFirstRace();
    ExampleSecondRace();
    ExampleThirdRace();
    var r1, r2 := Race(15, 40), Race(30, 200);
    var s1: seq<Race> := [Race(7, 9)];
    var s2 := s1 + [r1];
    var s3 := s2 + [r2];
    assert s1[..0] == [] && s2[..1] == s1 && s3[..2] == s2;
    assert HoldsProduct(s1) == 4;
    assert HoldsProduct(s2) == 32;
    assert s3 == ExampleRaces();
  }

  /** Three numbers written one after the other. */
  lemma ConcatenatedThree(a: nat, b: nat, c: nat)
    ensures Concatenated([a, b, c]) == (a * Pow10(|NatToString(b)|) + b) * Pow10(|NatToString(c)|) + c
  {
    assert [a, b, c][..2] == [a, b] && [a, b][..1] == [a] && [a][..0] == [];
    assert Concatenated([a]) == a;
    assert Concatenated([a, b]) == a * Pow10(|NatToString(b)|) + b;
  }

  /** The example's times and records, in order. */
  lemma ExampleColumns()
    ensures Times(Input(ExampleRaces())) == [7, 15, 30]
    ensures Dists(Input(ExampleRaces())) == [9, 40, 200]
  {
    var ts, ds := Times(Input(ExampleRaces())), Dists(Input(ExampleRaces()));
    assert ts[0] == 7 && ts[1] == 15 && ts[2] == 30;
    assert ds[0] == 9 && ds[1] == 40 && ds[2] == 200;
  }

  /** The example's races written together make the race of time 71530 and
      record 940200. */
  lemma ExampleP2()
    ensures Concatenated(Times(Input(ExampleRaces()))) == 71530
    ensures Concatenated(Dists(Input(ExampleRaces()))) == 940200
    ensures IntoP2(Input(ExampleRaces())) == Race(71530, 940200)
  {
    ExampleColumns();
    assert |NatToString(15)| == 2 && |NatToString(30)| == 2;
    assert |NatToString(40)| == 2 && |NatToString(200)| == 3;
    ConcatenatedThree(7, 15, 30);
    ConcatenatedThree(9, 40, 200);
  }

  /** The example's lines, as their words: three races, the last of time
      30 and record 200. */
  lemma ExampleParse()
    ensures InputOf(NumbersAfterLabel(["Time:", "7", "15", "30"]), NumbersAfterLabel(["Distance:", "9", "40", "200"]))
      == Ok(Input(ExampleRaces()))
  {
    ExampleTimes();
    ExampleDists();
    ExampleZip();
  }

  lemma ExampleZip()
    ensures Zip([7, 15, 30], [9, 40, 200]) == ExampleRaces()
  {
    var z := Zip([7, 15, 30], [9, 40, 200]);
    assert z[0] == Race(7, 9) && z[1] == Race(15, 40) && z[2] == Race(30, 200);
  }

  lemma ExampleTimes()
    ensures NumbersAfterLabel(["Time:", "7", "15", "30"]) == Ok([7, 15, 30])
  {
    Numeral("7", 7);
    Numeral("15", 15);
    Numeral("30", 30);
    ThreeNumbers("Time:", "7", "15", "30", 7, 15, 30);
  }

  lemma ExampleDists()
    ensures NumbersAfterLabel(["Distance:", "9", "40", "200"]) == Ok([9, 40, 200])
  {
    Numeral("9", 9);
    Numeral("40", 40);
    Numeral("200", 200);
    ThreeNumbers("Distance:", "9", "40", "200", 9, 40, 200);
  }

  /** A label and three numerals read as the three numbers. */
  lemma ThreeNumbers(tag: string, w0: string, w1: string, w2: string, n0: nat, n1: nat, n2: nat)
    requires ParseNatUpTo(w0, U64Max) == Ok(n0)
    requires ParseNatUpTo(w1, U64Max) == Ok(n1)
    requires ParseNatUpTo(w2, U64Max) == Ok(n2)
    ensures NumbersAfterLabel([tag, w0, w1, w2]) == Ok([n0, n1, n2])
  {
    assert [tag, w0, w1, w2][1..] == [w0, w1, w2];
    CollectOks(U64s([w0, w1, w2]), [n0, n1, n2]);
  }

  /** A numeral that fits a `u64` reads as its value. */
  lemma Numeral(w: string, n: nat)
    requires w != [] && AllDigits(w) && n == DigitsValue(w) && n <= U64Max
    ensures ParseNatUpTo(w, U64Max) == Ok(n)
  {
    assert UnsignedPart(w) == w;
  }
}
