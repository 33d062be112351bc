/** Calorie counting (src/bin/day01.rs): blocks of numbers separated by blank
    lines, one block per elf; the largest block total and the sum of the three
    largest. */
module SrcDay01 {
  import opened Wrappers
  import opened Text
  import opened Seqs

  /** One elf: the calorie count on each line of its block. */
  datatype Elf = Elf(cals: seq<nat>)

  /** `Elf::from_input`: every line of the block must be a `usize`; the
      first line that is not gives its parse error. */
  function ElfFromInput(input: string): (r: Result<Elf>)
    ensures var lines := Split(input, {'\n'});
      && (r.Ok? <==> forall i | 0 <= i < |lines| :: ParseNatUpTo(lines[i], USizeMax).Ok?)
      && (r.Ok? ==> |r.value.cals| == |lines|
                    && forall i | 0 <= i < |lines| :: ParseNatUpTo(lines[i], USizeMax) == Ok(r.value.cals[i]))
  {
    var lines := Split(input, {'\n'});
    var parsed := seq(|lines|, i requires 0 <= i < |lines| => ParseNatUpTo(lines[i], USizeMax));
    assert forall i | 0 <= i < |lines| :: parsed[i] == ParseNatUpTo(lines[i], USizeMax);
    match Collect(parsed)
    case Ok(cals) => Ok(Elf(cals))
    case Err(e) => Err(e)
  }

  /** `Elf::total_cal`: the sum of the elf's counts; no count exceeds it. */
  function TotalCal(e: Elf): (r: nat)
    ensures forall i | 0 <= i < |e.cals| :: e.cals[i] <= r
    ensures e.cals == [] ==> r == 0
    decreases |e.cals|
  {
    if e.cals == [] then 0 else e.cals[0] + TotalCal(Elf(e.cals[1..]))
  }

  /** The total is the sum of the counts, split anywhere. */
  lemma {:induction false} TotalCalAppend(a: seq<nat>, b: seq<nat>)
    ensures TotalCal(Elf(a + b)) == TotalCal(Elf(a)) + TotalCal(Elf(b))
  {
    if a == [] {
      assert a + b == b;
    } else {
      assert (a + b)[1..] == a[1..] + b;
      TotalCalAppend(a[1..], b);
    }
  }

  /** The input is trimmed and split into blocks at blank lines. */
  function Blocks(input: string): (r: seq<string>)
    ensures |r| >= 1
  {
    SplitStr(Trim(input), "\n\n")
  }

  /** `parse_input`: one elf per block; a successful parse yields at least one elf,
      so an empty input is a parse error rather than an empty list of elves. */
  function ParseInput(input: string): (r: Result<seq<Elf>>)
    ensures var blocks := Blocks(input);
      && (r.Ok? <==> forall i | 0 <= i < |blocks| :: ElfFromInput(blocks[i]).Ok?)
      && (r.Ok? ==> |r.value| == |blocks| >= 1
                    && forall i | 0 <= i < |blocks| :: ElfFromInput(blocks[i]) == Ok(r.value[i]))
  {
    var blocks := Blocks(input);
    var parsed := seq(|blocks|, i requires 0 <= i < |blocks| => ElfFromInput(blocks[i]));
    assert forall i | 0 <= i < |blocks| :: parsed[i] == ElfFromInput(blocks[i]);
    Collect(parsed)
  }

  function Totals(elfs: seq<Elf>): (r: seq<int>)
    ensures |r| == |elfs|
    ensures forall i | 0 <= i < |elfs| :: r[i] == TotalCal(elfs[i])
  {
    seq(|elfs|, i requires 0 <= i < |elfs| => TotalCal(elfs[i]))
  }

  /** `part1`: None exactly when there are no elves, otherwise the largest total. */
  function Part1(elfs: seq<Elf>): (r: Option<int>)
    ensures r.None? <==> elfs == []
    ensures r.Some? ==> (exists i | 0 <= i < |elfs| :: r.value == TotalCal(elfs[i]))
                        && forall i | 0 <= i < |elfs| :: TotalCal(elfs[i]) <= r.value
  {
    var t := Totals(elfs);
    var m := Max(t);
    if m.Some? then
      var i :| 0 <= i < |t| && t[i] == m.value;
      Some(m.value)
    else None
  }

  /** The totals in ascending order, as `sort_unstable` leaves them. */
  function SortedTotals(elfs: seq<Elf>): (s: seq<int>)
    ensures |s| == |elfs|
    ensures forall i, j | 0 <= i < j < |s| :: s[i] <= s[j]
    ensures multiset(s) == multiset(Totals(elfs))
  {
    var s := SortBy(Totals(elfs), Identity);
    assert forall i, j | 0 <= i < j < |s| :: Identity(s[i]) <= Identity(s[j]);
    s
  }

  /** `part2`: None with fewer than three elves; otherwise the sum of the last
      three sorted totals. */
  function Part2(elfs: seq<Elf>): (r: Option<int>)
    ensures r.None? <==> |elfs| < 3
    ensures r.Some? ==> var s := SortedTotals(elfs); var n := |s|;
                        r.value == s[n - 1] + s[n - 2] + s[n - 3]
  {
    if |elfs| < 3 then None
    else
      var s := SortedTotals(elfs);
      var n := |s|;
      assert s[n - 3..] == [s[n - 3]] + ([s[n - 2]] + [s[n - 1]]);
      assert Sum([s[n - 1]]) == s[n - 1];
      assert Sum([s[n - 2]] + [s[n - 1]]) == s[n - 2] + s[n - 1];
      Some(Sum(s[n - 3..]))
  }

  /** The three summed totals are a sub-multiset of all totals, and every other
      total is at most each of them: they are the three largest. */
  lemma {:induction false} Part2IsTopThree(elfs: seq<Elf>)
    requires |elfs| >= 3
    ensures var s := SortedTotals(elfs); var n := |s|;
      var top := multiset{s[n - 1], s[n - 2], s[n - 3]};
      && top <= multiset(Totals(elfs))
      && s[n - 3] <= s[n - 2] <= s[n - 1]
      && forall v | v in multiset(Totals(elfs)) - top :: v <= s[n - 3]
  {
    SortedTopThree(SortedTotals(elfs), Totals(elfs));
  }

  lemma SortedTopThree(s: seq<int>, t: seq<int>)
    requires |s| >= 3 && multiset(s) == multiset(t)
    requires forall i, j | 0 <= i < j < |s| :: s[i] <= s[j]
    ensures var n := |s|;
      var top := multiset{s[n - 1], s[n - 2], s[n - 3]};
      && top <= multiset(t)
      && s[n - 3] <= s[n - 2] <= s[n - 1]
      && forall v | v in multiset(t) - top :: v <= s[n - 3]
  {
    var n := |s|;
    var low := s[..n - 3];
    var top := multiset{s[n - 1], s[n - 2], s[n - 3]};
    assert s == low + [s[n - 3], s[n - 2], s[n - 1]];
    assert multiset(s) == multiset(low) + top;
    assert multiset(s) - top == multiset(low);
    LowBelow(s, n - 3);
  }

  lemma LowBelow(s: seq<int>, k: nat)
    requires k < |s|
    requires forall i, j | 0 <= i < j < |s| :: s[i] <= s[j]
    ensures forall v | v in multiset(s[..k]) :: v <= s[k]
  {
    forall v | v in multiset(s[..k]) ensures v <= s[k] {
      assert v in s[..k];
      var i :| 0 <= i < k && s[..k][i] == v;
    }
  }

  /** With at least three elves, part 2 is at least part 1, because the largest
      total is one of the three summed. */
  lemma {:induction false} Part2AtLeastPart1(elfs: seq<Elf>)
    requires |elfs| >= 3
    ensures Part2(elfs).Some? && Part1(elfs).Some? && Part2(elfs).value >= Part1(elfs).value
  {
    var t := Totals(elfs);
    var s := SortedTotals(elfs);
    var n := |s|;
    var m := Part1(elfs).value;
    var i :| 0 <= i < |elfs| && m == TotalCal(elfs[i]);
    assert t[i] in multiset(s);
    var k :| 0 <= k < n && s[k] == t[i];
    assert s[k] <= s[n - 1];
    assert s[n - 3] in multiset(t);
    assert s[n - 2] in multiset(t);
    var a :| 0 <= a < n && t[a] == s[n - 3];
    var b :| 0 <= b < n && t[b] == s[n - 2];
  }

  /** The example's elves, as parsed. */
  function ExampleElves(): seq<Elf> {
    [Elf([1000, 2000, 3000]), Elf([4000]), Elf([5000, 6000]), Elf([7000, 8000, 9000]), Elf([10000])]
  }

  lemma ExampleTotals()
    ensures Totals(ExampleElves()) == [6000, 4000, 11000, 24000, 10000]
  {
    var e := ExampleElves();
    assert TotalCal(e[0]) == 6000 by {
      assert e[0].cals[1..] == [2000, 3000];
      assert e[0].cals[1..][1..] == [3000];
    }
    assert TotalCal(e[2]) == 11000 by {
      assert e[2].cals[1..] == [6000];
    }
    assert TotalCal(e[3]) == 24000 by {
      assert e[3].cals[1..] == [8000, 9000];
      assert e[3].cals[1..][1..] == [9000];
    }
  }

  lemma ExamplePart1()
    ensures Part1(ExampleElves()) == Some(24000)
  {
    ExampleTotals();
  }
}
