/** Trebuchet calibration (2023/src/bin/day01.rs): the two-digit number made of
    the first and last digit of each line, where part 2 also accepts the digits
    spelled out as words. */
module Y2023Day01 {
  import opened Wrappers
  import opened Text
  import opened Seqs
  import opened Arith

  // ---------------------------------------------------------------------
  // Part 1

  /** `line.chars().find(char::is_ascii_digit)`, as an index. */
  function FirstDigit(line: string): (r: Option<nat>)
    ensures r.Some? ==> r.value < |line| && IsDigit(line[r.value])
                        && forall k | 0 <= k < r.value :: !IsDigit(line[k])
    ensures r.None? <==> forall k | 0 <= k < |line| :: !IsDigit(line[k])
  {
    if line == [] then None
    else if IsDigit(line[0]) then Some(0)
    else match FirstDigit(line[1..])
      case None => None
      case Some(k) => Some(k + 1)
  }

  /** `line.chars().rfind(char::is_ascii_digit)`, as an index. */
  function LastDigit(line: string): (r: Option<nat>)
    ensures r.Some? ==> r.value < |line| && IsDigit(line[r.value])
                        && forall k | r.value < k < |line| :: !IsDigit(line[k])
    ensures r.None? <==> forall k | 0 <= k < |line| :: !IsDigit(line[k])
  {
    if line == [] then None
    else if IsDigit(line[|line| - 1]) then Some(|line| - 1)
    else LastDigit(line[..|line| - 1])
  }

  predicate HasDigit(line: string) { exists k | 0 <= k < |line| :: IsDigit(line[k]) }

  /** `format!("{first}{last}").parse::<usize>()` on two digit characters. */
  function TwoDigitNumber(first: char, last: char): (r: nat)
    requires IsDigit(first) && IsDigit(last)
    ensures r == 10 * DigitValue(first) + DigitValue(last)
  {
    var s := [first, last];
    assert AllDigits(s) && UnsignedPart(s) == s;
    assert s[..1] == [first] && [first][..0] == [];
    assert DigitsValue(s[..1]) == DigitValue(first);
    ParseNat(s).value
  }

  /** One line of part 1; `unwrap` panics on a line without a digit. */
  function Part1Line(line: string): (r: nat)
    requires HasDigit(line)
    ensures r < 100
    ensures r == 10 * DigitValue(line[FirstDigit(line).value]) + DigitValue(line[LastDigit(line).value])
  {
    TwoDigitNumber(line[FirstDigit(line).value], line[LastDigit(line).value])
  }

  /** Two lines of the part 1 example in the source's tests. */
  lemma ExamplePart1Line1()
    ensures HasDigit("1abc2") && Part1Line("1abc2") == 12
  {
    var a := "1abc2";
    assert a[0] == '1' && a[4] == '2' && IsDigit(a[0]);
    assert FirstDigit(a) == Some(0);
    assert LastDigit(a) == Some(4);
  }

  lemma ExamplePart1Line2()
    ensures HasDigit("treb7uchet") && Part1Line("treb7uchet") == 77
  {
    var b := "treb7uchet";
    assert b[4] == '7' && IsDigit(b[4]);
    assert forall k | 0 <= k < 4 :: !IsDigit(b[k]);
    assert forall k | 4 < k < 10 :: !IsDigit(b[k]);
    assert FirstDigit(b) == Some(4);
    assert LastDigit(b) == Some(4);
  }

  /** `part1`: the sum over all lines of their two-digit numbers. */
  function Part1(input: string): (r: nat)
    requires forall l | l in Lines(input) :: HasDigit(l)
    ensures r <= 99 * |Lines(input)|
    ensures forall i | 0 <= i < |Lines(input)| :: Part1Line(Lines(input)[i]) <= r
  {
    var ls := Lines(input);
    var t := seq(|ls|, i requires 0 <= i < |ls| => Part1Line(ls[i]) as int);
    assert forall i | 0 <= i < |t| :: t[i] == Part1Line(ls[i]) && 0 <= t[i] <= 99;
    SumBounded(t, 99);
    SumBoundsTerms(t);
    Sum(t)
  }

  // ---------------------------------------------------------------------
  // Part 2: searching for any of several needles

  /** The needles of `part2_line`: index `i` names the digit `i % 10`. */
  const Digits: seq<string> := ["0", "1", "2", "3", "4", "5", "6", "7", "8", "9",
                                "zero", "one", "two", "three", "four",
                                "five", "six", "seven", "eight", "nine"]

  datatype Dir = Forward | Reverse

  /** Needle `d` ends at position `e` of `h`. */
  predicate EndsAt(h: string, d: string, e: nat) {
    |d| <= e <= |h| && h[e - |d|..e] == d
  }

  /** Some needle occurs somewhere in `h`. */
  predicate AnyOccurs(needles: seq<string>, h: string) {
    exists j, k | 0 <= j < |needles| && 0 <= k <= |h| :: OccursAt(h, needles[j], k)
  }

  /** The smallest index `i >= j` whose needle `h` starts with. */
  function FirstPrefix(needles: seq<string>, h: string, j: nat): (r: Option<nat>)
    ensures r.Some? ==> j <= r.value < |needles| && OccursAt(h, needles[r.value], 0)
                        && forall i | j <= i < r.value :: !OccursAt(h, needles[i], 0)
    ensures r.None? ==> forall i | j <= i < |needles| :: !OccursAt(h, needles[i], 0)
    decreases |needles| - j
  {
    if j >= |needles| then None
    else if StartsWith(h, needles[j]) then Some(j)
    else FirstPrefix(needles, h, j + 1)
  }

  /** The smallest index `i >= j` whose needle `h` ends with. */
  function FirstSuffix(needles: seq<string>, h: string, j: nat): (r: Option<nat>)
    ensures r.Some? ==> j <= r.value < |needles| && EndsAt(h, needles[r.value], |h|)
                        && forall i | j <= i < r.value :: !EndsAt(h, needles[i], |h|)
    ensures r.None? ==> forall i | j <= i < |needles| :: !EndsAt(h, needles[i], |h|)
    decreases |needles| - j
  {
    if j >= |needles| then None
    else if EndsWith(h, needles[j]) then Some(j)
    else FirstSuffix(needles, h, j + 1)
  }

  lemma OccursAtShift(h: string, d: string, k: nat)
    requires h != []
    ensures OccursAt(h, d, k + 1) <==> OccursAt(h[1..], d, k)
  {
    if k + 1 + |d| <= |h| {
      assert h[k + 1..k + 1 + |d|] == h[1..][k..k + |d|];
    }
  }

  /** The forward search as a position and a needle index: the earliest position
      where any needle starts, and at that position the first needle in order. */
  function ForwardMatch(needles: seq<string>, h: string): (r: Option<(nat, nat)>)
    ensures r.Some? ==> var (k, i) := r.value;
      && k <= |h| && i < |needles| && OccursAt(h, needles[i], k)
      && (forall j | 0 <= j < i :: !OccursAt(h, needles[j], k))
      && (forall k', j | 0 <= k' < k && 0 <= j < |needles| :: !OccursAt(h, needles[j], k'))
    ensures r.None? <==> !AnyOccurs(needles, h)
    decreases |h|
  {
    match FirstPrefix(needles, h, 0)
    case Some(i) => Some((0, i))
    case None =>
      if h == [] then None
      else match ForwardMatch(needles, h[1..])
        case None =>
          NoneShift(needles, h);
          None
        case Some((k, i)) =>
          SomeShift(needles, h, k, i);
          Some((k + 1, i))
  }

  /** With no needle at the front, a needle occurs in `h` only if it occurs
      in `h[1..]`. */
  lemma NoneShift(needles: seq<string>, h: string)
    requires h != [] && FirstPrefix(needles, h, 0).None? && !AnyOccurs(needles, h[1..])
    ensures !AnyOccurs(needles, h)
  {
    forall j, k | 0 <= j < |needles| && 0 <= k <= |h| ensures !OccursAt(h, needles[j], k) {
      if k > 0 {
        OccursAtShift(h, needles[j], k - 1);
      }
    }
  }

  /** With no needle at the front, the earliest match of `h[1..]` is one
      position later in `h`. */
  lemma SomeShift(needles: seq<string>, h: string, k: nat, i: nat)
    requires h != [] && FirstPrefix(needles, h, 0).None?
    requires k <= |h[1..]| && i < |needles| && OccursAt(h[1..], needles[i], k)
    requires forall j | 0 <= j < i :: !OccursAt(h[1..], needles[j], k)
    requires forall k', j | 0 <= k' < k && 0 <= j < |needles| :: !OccursAt(h[1..], needles[j], k')
    ensures OccursAt(h, needles[i], k + 1)
    ensures forall j | 0 <= j < i :: !OccursAt(h, needles[j], k + 1)
    ensures forall k', j | 0 <= k' < k + 1 && 0 <= j < |needles| :: !OccursAt(h, needles[j], k')
  {
    OccursAtShift(h, needles[i], k);
    forall j | 0 <= j < i ensures !OccursAt(h, needles[j], k + 1) {
      OccursAtShift(h, needles[j], k);
    }
    forall k', j | 0 <= k' < k + 1 && 0 <= j < |needles| ensures !OccursAt(h, needles[j], k') {
      if k' > 0 {
        OccursAtShift(h, needles[j], k' - 1);
      }
    }
  }

  /** Some needle ends somewhere in `h`. */
  predicate AnyEnds(needles: seq<string>, h: string) {
    exists j, e | 0 <= j < |needles| && 0 <= e <= |h| :: EndsAt(h, needles[j], e)
  }

  /** A needle occurs exactly when a needle ends. */
  lemma AnyOccursEnds(needles: seq<string>, h: string)
    ensures AnyOccurs(needles, h) <==> AnyEnds(needles, h)
  {
    if AnyOccurs(needles, h) {
      var j, k :| 0 <= j < |needles| && 0 <= k <= |h| && OccursAt(h, needles[j], k);
      assert EndsAt(h, needles[j], k + |needles[j]|);
    }
    if AnyEnds(needles, h) {
      var j, e :| 0 <= j < |needles| && 0 <= e <= |h| && EndsAt(h, needles[j], e);
      assert OccursAt(h, needles[j], e - |needles[j]|);
    }
  }

  /** The reverse search: the latest position where any needle ends, and at that
      position the first needle in order. The source panics (`len() - 1` on an
      empty haystack) when no needle occurs, hence the precondition. */
  function ReverseMatch(needles: seq<string>, h: string): (r: (nat, nat))
    requires AnyEnds(needles, h)
    ensures var (e, i) := r;
      && e <= |h| && i < |needles| && EndsAt(h, needles[i], e)
      && (forall j | 0 <= j < i :: !EndsAt(h, needles[j], e))
      && (forall e', j | e < e' <= |h| && 0 <= j < |needles| :: !EndsAt(h, needles[j], e'))
    decreases |h|
  {
    match FirstSuffix(needles, h, 0)
    case Some(i) => (|h|, i)
    case None =>
      DropLastEnds(needles, h);
      ReverseMatch(needles, h[..|h| - 1])
  }

  /** When no needle ends at the very end of `h`, dropping the last character
      keeps every earlier end position and some needle still ends. */
  lemma DropLastEnds(needles: seq<string>, h: string)
    requires AnyEnds(needles, h) && FirstSuffix(needles, h, 0).None?
    ensures h != [] && AnyEnds(needles, h[..|h| - 1])
    ensures forall j, e | 0 <= j < |needles| && 0 <= e < |h| ::
              EndsAt(h, needles[j], e) == EndsAt(h[..|h| - 1], needles[j], e)
  {
    var h' := h[..|h| - 1];
    forall j, e | 0 <= j < |needles| && 0 <= e < |h|
      ensures EndsAt(h, needles[j], e) == EndsAt(h', needles[j], e)
    {
      if |needles[j]| <= e {
        assert h[e - |needles[j]|..e] == h'[e - |needles[j]|..e];
      }
    }
    var j, e :| 0 <= j < |needles| && 0 <= e <= |h| && EndsAt(h, needles[j], e);
    assert e < |h|;
    assert EndsAt(h', needles[j], e);
  }

  /** `find_any`: check the needles in order against the front (`Forward`) or the
      back (`Reverse`) of the haystack, and drop one character from that end when
      none matches. Forward gives None once the haystack is used up; Reverse needs
      a needle to occur, as it would otherwise panic on the empty haystack. */
  method FindAny(needles: seq<string>, haystack: string, dir: Dir) returns (r: Option<nat>)
    requires dir == Reverse ==> AnyEnds(needles, haystack)
    ensures dir == Forward ==> (r.None? <==> ForwardMatch(needles, haystack).None?)
    ensures dir == Forward && r.Some? ==> r.value == ForwardMatch(needles, haystack).value.1
    ensures dir == Reverse ==> r == Some(ReverseMatch(needles, haystack).1)
  {
    var h := haystack;
    ghost var dropped: nat := 0;
    while true
      invariant dir == Forward ==> dropped + |h| == |haystack| && h == haystack[dropped..]
      invariant dir == Forward ==> match ForwardMatch(needles, haystack)
                                   case None => ForwardMatch(needles, h).None?
                                   case Some((k, i)) => dropped <= k && ForwardMatch(needles, h) == Some((k - dropped, i))
      invariant dir == Reverse ==> AnyEnds(needles, h) && ReverseMatch(needles, h) == ReverseMatch(needles, haystack)
      decreases |h|
    {
      var idx := 0;
      while idx < |needles|
        invariant 0 <= idx <= |needles|
        invariant dir == Forward ==> FirstPrefix(needles, h, 0) == FirstPrefix(needles, h, idx)
        invariant dir == Reverse ==> FirstSuffix(needles, h, 0) == FirstSuffix(needles, h, idx)
      {
        match dir {
          case Forward =>
            if StartsWith(h, needles[idx]) {
              return Some(idx);
            }
          case Reverse =>
            if EndsWith(h, needles[idx]) {
              return Some(idx);
            }
        }
        idx := idx + 1;
      }
      match dir {
        case Forward =>
          if |h| < 1 {
            return None;
          }
          h := h[1..];
          dropped := dropped + 1;
        case Reverse =>
          h := h[..|h| - 1];
      }
    }
  }

  // ---------------------------------------------------------------------
  // Part 2

  /** What `part2_line` needs to run without panicking. */
  predicate HasNeedle(line: string) { AnyOccurs(Digits, line) }

  /** `part2_line` over a table of needles: the first and the last needle found,
      each index taken modulo ten, as a two-digit number. */
  function Part2LineWith(needles: seq<string>, line: string): (r: nat)
    requires AnyOccurs(needles, line)
    ensures r < 100
    ensures AnyEnds(needles, line)
    ensures r == 10 * (ForwardMatch(needles, line).value.1 % 10) + ReverseMatch(needles, line).1 % 10
  {
    AnyOccursEnds(needles, line);
    var first := ForwardMatch(needles, line).value.1 % 10;
    var last := ReverseMatch(needles, line).1 % 10;
    TwoDigitNumber(DigitChar(first), DigitChar(last))
  }

  /** `part2_line` with the source's needles: the tens digit is the one the
      first needle found names, the units digit the one the last names. */
  function Part2Line(line: string): (r: nat)
    requires HasNeedle(line)
    ensures r < 100 && AnyEnds(Digits, line)
    ensures r / 10 == ForwardMatch(Digits, line).value.1 % 10 && r % 10 == ReverseMatch(Digits, line).1 % 10
  {
    TensAndUnits(Digits, line);
    Part2LineWith(Digits, line)
  }

  lemma TensAndUnits(needles: seq<string>, line: string)
    requires AnyOccurs(needles, line)
    ensures AnyEnds(needles, line)
    ensures var r := Part2LineWith(needles, line);
      r / 10 == ForwardMatch(needles, line).value.1 % 10 && r % 10 == ReverseMatch(needles, line).1 % 10
  {
    var r := Part2LineWith(needles, line);
    ModUnique(r, 10, ForwardMatch(needles, line).value.1 % 10, ReverseMatch(needles, line).1 % 10);
  }

  /** `part2`: the sum over all lines of their two-digit numbers. */
  function Part2(input: string): (r: nat)
    requires forall l | l in Lines(input) :: HasNeedle(l)
    ensures r <= 99 * |Lines(input)|
    ensures forall i | 0 <= i < |Lines(input)| :: Part2Line(Lines(input)[i]) <= r
  {
    var ls := Lines(input);
    var t := seq(|ls|, i requires 0 <= i < |ls| => Part2Line(ls[i]) as int);
    assert forall i | 0 <= i < |t| :: t[i] == Part2Line(ls[i]) && 0 <= t[i] <= 99;
    SumBounded(t, 99);
    SumBoundsTerms(t);
    Sum(t)
  }

  /** Needles whose first ten entries are the digit characters, in order. */
  predicate DigitNeedles(needles: seq<string>) {
    |needles| == 20 && forall d | 0 <= d < 10 :: needles[d] == [DigitChar(d)]
  }

  lemma DigitsAreDigitNeedles()
    ensures DigitNeedles(Digits)
  {
    forall d | 0 <= d < 10 ensures Digits[d] == [DigitChar(d)] {
    }
  }

  /** A one-character needle occurs at `k` exactly when that character is there. */
  lemma OccursAtDigit(h: string, needles: seq<string>, d: nat, k: nat)
    requires DigitNeedles(needles) && d < 10
    ensures OccursAt(h, needles[d], k) <==> k < |h| && h[k] == DigitChar(d)
  {
    if k < |h| {
      assert h[k..k + 1] == [h[k]];
    }
  }

  lemma EndsAtDigit(h: string, needles: seq<string>, d: nat, e: nat)
    requires DigitNeedles(needles) && d < 10
    ensures EndsAt(h, needles[d], e) <==> 0 < e <= |h| && h[e - 1] == DigitChar(d)
  {
    if 0 < e <= |h| {
      assert h[e - 1..e] == [h[e - 1]];
    }
  }

  lemma EndsAtOccurs(h: string, d: string, e: nat)
    requires EndsAt(h, d, e)
    ensures OccursAt(h, d, e - |d|)
  {
  }

  lemma DigitCharValue(c: char)
    requires IsDigit(c)
    ensures DigitValue(c) < 10 && DigitChar(DigitValue(c)) == c
  {
  }

  /** No needle past the ten digits occurs in `line`. */
  predicate NoWords(needles: seq<string>, line: string) {
    forall j, k | 10 <= j < |needles| && 0 <= k <= |line| :: !OccursAt(line, needles[j], k)
  }

  /** Where no word occurs, the forward search finds the first digit character. */
  lemma ForwardFindsFirstDigit(needles: seq<string>, line: string)
    requires DigitNeedles(needles) && HasDigit(line) && NoWords(needles, line)
    ensures AnyOccurs(needles, line)
    ensures ForwardMatch(needles, line).value.1 == DigitValue(line[FirstDigit(line).value])
  {
    var f := FirstDigit(line).value;
    var d := DigitValue(line[f]);
    DigitCharValue(line[f]);
    OccursAtDigit(line, needles, d, f);
    var m := ForwardMatch(needles, line).value;
    var k, i := m.0, m.1;
    assert OccursAt(line, needles[i], k);
    assert i < 10;
    OccursAtDigit(line, needles, i, k);
    assert IsDigit(line[k]);
    assert OccursAt(line, needles[d], f);
    assert k == f;
  }

  /** Where no word occurs, the reverse search finds the last digit character. */
  lemma ReverseFindsLastDigit(needles: seq<string>, line: string)
    requires DigitNeedles(needles) && HasDigit(line) && NoWords(needles, line)
    ensures AnyEnds(needles, line)
    ensures ReverseMatch(needles, line).1 == DigitValue(line[LastDigit(line).value])
  {
    var l := LastDigit(line).value;
    var d := DigitValue(line[l]);
    DigitCharValue(line[l]);
    EndsAtDigit(line, needles, d, l + 1);
    assert AnyEnds(needles, line);
    var m := ReverseMatch(needles, line);
    var e, i := m.0, m.1;
    assert i < 10 by {
      if i >= 10 {
        EndsAtOccurs(line, needles[i], e);
      }
    }
    EndsAtDigit(line, needles, i, e);
    assert IsDigit(line[e - 1]);
    assert l + 1 <= e;
    assert e - 1 == l;
  }

  /** On a line where no digit is spelled out, part 2 reads the same number as
      part 1. */
  lemma NoWordsSameAsPart1(line: string)
    requires HasDigit(line) && NoWords(Digits, line)
    ensures HasNeedle(line)
    ensures Part2Line(line) == Part1Line(line)
  {
    DigitsAreDigitNeedles();
    NoWordsSameWith(Digits, line);
  }

  lemma NoWordsSameWith(needles: seq<string>, line: string)
    requires DigitNeedles(needles) && HasDigit(line) && NoWords(needles, line)
    ensures AnyOccurs(needles, line)
    ensures Part2LineWith(needles, line) == Part1Line(line)
  {
    ForwardFindsFirstDigit(needles, line);
    ReverseFindsLastDigit(needles, line);
    SmallMod(DigitValue(line[FirstDigit(line).value]));
    SmallMod(DigitValue(line[LastDigit(line).value]));
  }

  lemma SmallMod(a: nat)
    requires a < 10
    ensures a % 10 == a
  {
  }

  // ---------------------------------------------------------------------
  // The test line two1nine: the first needle found is `two`, the last `nine`

  /** A needle whose first character differs from the haystack's does not
      occur at its start. */
  lemma NoFrontMatch(h: string, d: string)
    requires h != [] && d != [] && d[0] != h[0]
    ensures !OccursAt(h, d, 0)
  {
    if |d| <= |h| {
      assert h[0..|d|][0] == h[0];
    }
  }

  lemma ExampleFront()
    ensures OccursAt("two1nine", Digits[12], 0)
    ensures forall i | 0 <= i < 12 :: !OccursAt("two1nine", Digits[i], 0)
  {
    var h := "two1nine";
    assert h[0..3] == "two";
    forall i | 0 <= i < 12
      ensures !OccursAt(h, Digits[i], 0)
    {
      NoFrontMatch(h, Digits[i]);
    }
  }

  /** A needle that is too long, or whose first or last character does not
      match, does not end at `e`. */
  lemma NoBackMatch(h: string, d: string, e: nat)
    requires d != [] && e <= |h|
    requires |d| > e || h[e - |d|] != d[0] || h[e - 1] != d[|d| - 1]
    ensures !EndsAt(h, d, e)
  {
    if |d| <= e {
      var s := h[e - |d|..e];
      assert s[0] == h[e - |d|] && s[|d| - 1] == h[e - 1];
    }
  }

  lemma ExampleBack()
    ensures EndsAt("two1nine", Digits[19], 8)
    ensures forall i | 0 <= i < 19 :: !EndsAt("two1nine", Digits[i], 8)
  {
    var h := "two1nine";
    assert h[4..8] == "nine";
    forall i | 0 <= i < 19
      ensures !EndsAt(h, Digits[i], 8)
    {
      NoBackMatch(h, Digits[i], 8);
    }
  }

  /** The forward search stops at position 0 on `two`. */
  lemma ExampleForward()
    ensures ForwardMatch(Digits, "two1nine") == Some((0, 12))
  {
    ExampleFront();
    assert FirstPrefix(Digits, "two1nine", 0) == Some(12);
  }

  /** The reverse search stops at the end of the line on `nine`. */
  lemma ExampleReverse()
    ensures AnyEnds(Digits, "two1nine")
    ensures ReverseMatch(Digits, "two1nine") == (8, 19)
  {
    ExampleBack();
    assert FirstSuffix(Digits, "two1nine", 0) == Some(19);
  }

  /** `part2_line("two1nine") == 29`. */
  lemma ExamplePart2Line()
    ensures HasNeedle("two1nine") && Part2Line("two1nine") == 29
  {
    ExampleForward();
    ExampleReverse();
    assert HasNeedle("two1nine");
    assert Part2LineWith(Digits, "two1nine") == 10 * (12 % 10) + 19 % 10;
  }
}
