/** Rucksack reorganisation with hash sets (2022/src/bin/day03.rs): each line is
    a rucksack whose two halves are compartments of items; the common item of
    the two halves, and the badge common to each group of three rucksacks. */
module Y2022Day03 {
  import opened Wrappers
  import opened Text

  predicate IsLower(c: char) { 'a' <= c <= 'z' }

  predicate IsUpper(c: char) { 'A' <= c <= 'Z' }

  predicate IsLetter(c: char) { IsLower(c) || IsUpper(c) }

  /** `Item::try_from`: the priority of a letter, 1..26 for a..z and 27..52 for
      A..Z; any other byte is an error naming the byte's value. An item is
      represented by its priority. */
  function ItemTryFrom(c: char): (r: Result<nat>)
    ensures r.Ok? <==> IsLetter(c)
    ensures r.Ok? ==> 1 <= r.value <= 52
    ensures r.Ok? && IsLower(c) ==> r.value == (c as int) - ('a' as int) + 1
    ensures r.Ok? && IsUpper(c) ==> r.value == (c as int) - ('A' as int) + 27
    ensures r.Err? ==> r.error == "Unexpected item: " + NatToString(c as nat)
  {
    if IsLower(c) then Ok((c as int) - ('a' as int) + 1)
    else if IsUpper(c) then Ok((c as int) - ('A' as int) + 27)
    else Err("Unexpected item: " + NatToString(c as nat))
  }

  /** Different letters have different priorities. */
  lemma ItemTryFromInjective(c: char, d: char)
    requires IsLetter(c) && IsLetter(d) && c != d
    ensures ItemTryFrom(c).value != ItemTryFrom(d).value
  {
  }

  /** A rucksack: the sets of items in its two compartments. */
  datatype Rucksack = Rucksack(left: set<nat>, right: set<nat>)

  predicate IsAscii(s: string) { forall i | 0 <= i < |s| :: s[i] < 128 as char }

  /** The set of items of one compartment, or the first byte that is not an item. */
  function ParseSide(side: string): (r: Result<set<nat>>)
    ensures r.Ok? <==> forall i | 0 <= i < |side| :: IsLetter(side[i])
    ensures r.Ok? ==> forall p :: p in r.value <==>
                        exists i | 0 <= i < |side| :: ItemTryFrom(side[i]) == Ok(p)
    ensures r.Err? ==> exists i | 0 <= i < |side| :: ItemTryFrom(side[i]) == Err(r.error)
  {
    var parsed := seq(|side|, i requires 0 <= i < |side| => ItemTryFrom(side[i]));
    assert forall i | 0 <= i < |side| :: parsed[i] == ItemTryFrom(side[i]);
    match Collect(parsed)
    case Err(e) => Err(e)
    case Ok(items) =>
      var r := set x | x in items;
      assert forall p :: p in r <==> exists i | 0 <= i < |side| :: ItemTryFrom(side[i]) == Ok(p) by {
        forall p ensures p in r <==> exists i | 0 <= i < |side| :: ItemTryFrom(side[i]) == Ok(p) {
          if p in r {
            var i :| 0 <= i < |items| && items[i] == p;
            assert ItemTryFrom(side[i]) == Ok(p);
          }
        }
      }
      Ok(r)
  }

  /** `Rucksack::from_str`: the line must be ASCII and of even length; its
      halves are the compartments. */
  function RucksackFromStr(s: string): (r: Result<Rucksack>)
    ensures !IsAscii(s) ==> r == Err("Input " + Quoted(s) + " is not ASCII")
    ensures IsAscii(s) && |s| % 2 != 0 ==> r == Err("Input length of " + Quoted(s) + " is not even")
    ensures r.Ok? <==> IsAscii(s) && |s| % 2 == 0 && forall i | 0 <= i < |s| :: IsLetter(s[i])
    ensures r.Ok? ==> r.value.left == ParseSide(s[..|s| / 2]).value
                      && r.value.right == ParseSide(s[|s| / 2..]).value
  {
    if !IsAscii(s) then Err("Input " + Quoted(s) + " is not ASCII")
    else if |s| % 2 != 0 then Err("Input length of " + Quoted(s) + " is not even")
    else
      var a, b := s[..|s| / 2], s[|s| / 2..];
      assert forall i | 0 <= i < |s| :: s[i] == if i < |s| / 2 then a[i] else b[i - |s| / 2];
      match ParseSide(a)
      case Err(e) => Err(e)
      case Ok(l) =>
        match ParseSide(b)
        case Err(e) => Err(e)
        case Ok(r) => Ok(Rucksack(l, r))
  }

  /** `Rucksack::diff`: the items in both compartments. */
  function Diff(r: Rucksack): (d: set<nat>)
    ensures forall p :: p in d <==> p in r.left && p in r.right
  {
    r.left * r.right
  }

  /** `Rucksack::all`: the items in either compartment. */
  function All(r: Rucksack): (a: set<nat>)
    ensures forall p :: p in a <==> p in r.left || p in r.right
  {
    r.left + r.right
  }

  /** `parse_input`: one rucksack per line, stopping at the first error. */
  function ParseInput(input: string): (r: Result<seq<Rucksack>>)
    ensures r.Ok? <==> forall l | l in Lines(input) :: RucksackFromStr(l).Ok?
    ensures r.Ok? ==> |r.value| == |Lines(input)|
                      && forall i | 0 <= i < |r.value| :: Ok(r.value[i]) == RucksackFromStr(Lines(input)[i])
  {
    var ls := Lines(input);
    var parsed := seq(|ls|, i requires 0 <= i < |ls| => RucksackFromStr(ls[i]));
    assert forall i | 0 <= i < |ls| :: parsed[i] == RucksackFromStr(ls[i]);
    Collect(parsed)
  }

  /** The only element of a one-element set, or `Err(msg)` for any other size. */
  function TheOnly(d: set<nat>, msg: string): (r: Result<nat>)
    ensures r.Ok? <==> |d| == 1
    ensures r.Ok? ==> d == {r.value}
    ensures r.Err? ==> r.error == msg
  {
    if |d| != 1 then Err(msg)
    else
      var x :| x in d;
      assert |d - {x}| == 0;
      assert d == {x};
      Ok(x)
  }

  /** `part1`: the priority of each rucksack's one common item, summed; a
      rucksack whose halves do not share exactly one item makes it fail. */
  function Part1(rs: seq<Rucksack>): (r: Result<nat>)
    ensures r.Ok? <==> forall i | 0 <= i < |rs| :: |Diff(rs[i])| == 1
    ensures r.Err? ==> r.error == "Diff contains not exactly one item"
    decreases |rs|
  {
    if rs == [] then Ok(0)
    else
      match TheOnly(Diff(rs[0]), "Diff contains not exactly one item")
      case Err(e) => Err(e)
      case Ok(p) =>
        match Part1(rs[1..])
        case Err(e) => Err(e)
        case Ok(rest) => Ok(p + rest)
  }

  /** The items common to all three rucksacks of a group. */
  function Badges(group: seq<Rucksack>): (b: set<nat>)
    requires |group| == 3
    ensures forall p :: p in b <==> forall k | 0 <= k < 3 :: p in All(group[k])
  {
    All(group[0]) * All(group[1]) * All(group[2])
  }

  /** `chunks_exact(3)`: the consecutive groups of three; a trailing partial
      group is dropped. */
  function Chunks3<T>(xs: seq<T>): (r: seq<seq<T>>)
    ensures |r| == |xs| / 3
    ensures forall g | 0 <= g < |r| :: |r[g]| == 3
                                    && forall k | 0 <= k < 3 :: r[g][k] == xs[3 * g + k]
  {
    seq(|xs| / 3, g requires 0 <= g < |xs| / 3 => xs[3 * g..3 * g + 3])
  }

  /** The priorities of the groups' badges, summed; a group with not exactly one
      common item makes it fail. */
  function SumBadges(groups: seq<seq<Rucksack>>): (r: Result<nat>)
    requires forall g | 0 <= g < |groups| :: |groups[g]| == 3
    ensures r.Ok? <==> forall g | 0 <= g < |groups| :: |Badges(groups[g])| == 1
    ensures r.Err? ==> r.error == "Group contains not exactly one badge"
    decreases |groups|
  {
    if groups == [] then Ok(0)
    else
      match TheOnly(Badges(groups[0]), "Group contains not exactly one badge")
      case Err(e) => Err(e)
      case Ok(p) =>
        match SumBadges(groups[1..])
        case Err(e) => Err(e)
        case Ok(rest) => Ok(p + rest)
  }

  /** `part2`. */
  function Part2(rs: seq<Rucksack>): (r: Result<nat>)
    ensures r.Ok? <==> forall g | 0 <= g < |rs| / 3 :: |Badges(Chunks3(rs)[g])| == 1
  {
    SumBadges(Chunks3(rs))
  }

  /** Part 1 adds up the one common item of each rucksack. */
  lemma {:induction false} Part1Value(rs: seq<Rucksack>, ps: seq<nat>)
    requires |ps| == |rs| && forall i | 0 <= i < |rs| :: Diff(rs[i]) == {ps[i]}
    ensures Part1(rs) == Ok(SumNat(ps))
  {
    if rs != [] {
      Part1Value(rs[1..], ps[1..]);
    }
  }

  /** The groups' sum adds up the one badge of each group. */
  lemma {:induction false} SumBadgesValue(groups: seq<seq<Rucksack>>, bs: seq<nat>)
    requires forall g | 0 <= g < |groups| :: |groups[g]| == 3
    requires |bs| == |groups| && forall g | 0 <= g < |groups| :: Badges(groups[g]) == {bs[g]}
    ensures SumBadges(groups) == Ok(SumNat(bs))
  {
    if groups != [] {
      SumBadgesValue(groups[1..], bs[1..]);
    }
  }

  /** Part 2 adds up the one badge of each complete group of three. */
  lemma Part2Value(rs: seq<Rucksack>, bs: seq<nat>)
    requires |bs| == |rs| / 3 && forall g | 0 <= g < |rs| / 3 :: Badges(Chunks3(rs)[g]) == {bs[g]}
    ensures Part2(rs) == Ok(SumNat(bs))
  {
    SumBadgesValue(Chunks3(rs), bs);
  }

  function SumNat(ps: seq<nat>): nat {
    if ps == [] then 0 else ps[0] + SumNat(ps[1..])
  }

  /** The priorities of the example: `p`, the item common to the first
      rucksack's halves, is 16 and `L` is 38; a digit is no item. */
  lemma ExamplePriorities()
    ensures ItemTryFrom('p') == Ok(16) && ItemTryFrom('L') == Ok(38)
    ensures ItemTryFrom('1') == Err("Unexpected item: 49")
  {
    assert NatToString(4) == "4" && NatToString(49) == NatToString(4) + "9";
  }

  /** A side parses to `items` when every char is a letter whose priority is
      in `items` and every priority in `items` is that of some char. */
  lemma ParseSideIs(side: string, items: set<nat>)
    requires forall i | 0 <= i < |side| :: IsLetter(side[i]) && ItemTryFrom(side[i]).value in items
    requires forall p | p in items :: exists i | 0 <= i < |side| :: ItemTryFrom(side[i]) == Ok(p)
    ensures ParseSide(side) == Ok(items)
  {
    var r := ParseSide(side);
    assert r.Ok?;
    forall p | p in r.value ensures p in items {
      var i :| 0 <= i < |side| && ItemTryFrom(side[i]) == Ok(p);
    }
    forall p | p in items ensures p in r.value {
      var i :| 0 <= i < |side| && ItemTryFrom(side[i]) == Ok(p);
    }
    assert r.value == items;
  }

  /** The priorities in the two halves of the test's first rucksack. */
  lemma ExampleCommon()
    ensures {7, 16, 18, 20, 22, 23, 36, 49} * {3, 6, 8, 16, 19, 32, 39} == {16}
  {
  }

  /** The first half of the test's first rucksack: v J r w p W t w J g W r. */
  lemma ExampleLeftHalf()
    ensures ParseSide("vJrwpWtwJgWr") == Ok({7, 16, 18, 20, 22, 23, 36, 49})
  {
    var side := "vJrwpWtwJgWr";
    var items := {7, 16, 18, 20, 22, 23, 36, 49};
    forall i | 0 <= i < |side| ensures IsLetter(side[i]) && ItemTryFrom(side[i]).value in items {
      if i == 0 { assert side[i] == 'v' && ItemTryFrom('v') == Ok(22);
      } else if i == 1 { assert side[i] == 'J' && ItemTryFrom('J') == Ok(36);
      } else if i == 2 { assert side[i] == 'r' && ItemTryFrom('r') == Ok(18);
      } else if i == 3 { assert side[i] == 'w' && ItemTryFrom('w') == Ok(23);
      } else if i == 4 { assert side[i] == 'p' && ItemTryFrom('p') == Ok(16);
      } else if i == 5 { assert side[i] == 'W' && ItemTryFrom('W') == Ok(49);
      } else if i == 6 { assert side[i] == 't' && ItemTryFrom('t') == Ok(20);
      } else if i == 7 { assert side[i] == 'w' && ItemTryFrom('w') == Ok(23);
      } else if i == 8 { assert side[i] == 'J' && ItemTryFrom('J') == Ok(36);
      } else if i == 9 { assert side[i] == 'g' && ItemTryFrom('g') == Ok(7);
      } else if i == 10 { assert side[i] == 'W' && ItemTryFrom('W') == Ok(49);
      } else { assert side[i] == 'r' && ItemTryFrom('r') == Ok(18);
      }
    }
    assert ItemTryFrom(side[0]) == Ok(22) && ItemTryFrom(side[1]) == Ok(36);
    assert ItemTryFrom(side[2]) == Ok(18) && ItemTryFrom(side[3]) == Ok(23);
    assert ItemTryFrom(side[4]) == Ok(16) && ItemTryFrom(side[5]) == Ok(49);
    assert ItemTryFrom(side[6]) == Ok(20) && ItemTryFrom(side[9]) == Ok(7);
    ParseSideIs(side, items);
  }

  /** The second half of the test's first rucksack: h c s F M M f F F h F p. */
  lemma ExampleRightHalf()
    ensures ParseSide("hcsFMMfFFhFp") == Ok({3, 6, 8, 16, 19, 32, 39})
  {
    var side := "hcsFMMfFFhFp";
    var items := {3, 6, 8, 16, 19, 32, 39};
    forall i | 0 <= i < |side| ensures IsLetter(side[i]) && ItemTryFrom(side[i]).value in items {
      if i == 0 { assert side[i] == 'h' && ItemTryFrom('h') == Ok(8);
      } else if i == 1 { assert side[i] == 'c' && ItemTryFrom('c') == Ok(3);
      } else if i == 2 { assert side[i] == 's' && ItemTryFrom('s') == Ok(19);
      } else if i == 3 { assert side[i] == 'F' && ItemTryFrom('F') == Ok(32);
      } else if i == 4 { assert side[i] == 'M' && ItemTryFrom('M') == Ok(39);
      } else if i == 5 { assert side[i] == 'M' && ItemTryFrom('M') == Ok(39);
      } else if i == 6 { assert side[i] == 'f' && ItemTryFrom('f') == Ok(6);
      } else if i == 7 { assert side[i] == 'F' && ItemTryFrom('F') == Ok(32);
      } else if i == 8 { assert side[i] == 'F' && ItemTryFrom('F') == Ok(32);
      } else if i == 9 { assert side[i] == 'h' && ItemTryFrom('h') == Ok(8);
      } else if i == 10 { assert side[i] == 'F' && ItemTryFrom('F') == Ok(32);
      } else { assert side[i] == 'p' && ItemTryFrom('p') == Ok(16);
      }
    }
    assert ItemTryFrom(side[0]) == Ok(8) && ItemTryFrom(side[1]) == Ok(3);
    assert ItemTryFrom(side[2]) == Ok(19) && ItemTryFrom(side[3]) == Ok(32);
    assert ItemTryFrom(side[4]) == Ok(39) && ItemTryFrom(side[6]) == Ok(6);
    assert ItemTryFrom(side[11]) == Ok(16);
    ParseSideIs(side, items);
  }

  /** Two halves of equal length that parse make a rucksack of those halves. */
  lemma RucksackOfHalves(a: string, b: string)
    requires |a| == |b| && ParseSide(a).Ok? && ParseSide(b).Ok?
    ensures RucksackFromStr(a + b) == Ok(Rucksack(ParseSide(a).value, ParseSide(b).value))
  {
    var s := a + b;
    forall i | 0 <= i < |s| ensures IsLetter(s[i]) && s[i] < 128 as char {
      if i < |a| { assert s[i] == a[i]; } else { assert s[i] == b[i - |a|]; }
    }
    assert s[..|s| / 2] == a && s[|s| / 2..] == b;
  }

  /** The test's first rucksack parses into the two halves above. */
  lemma ExampleFirstParses()
    ensures RucksackFromStr("vJrwpWtwJgWrhcsFMMfFFhFp")
         == Ok(Rucksack({7, 16, 18, 20, 22, 23, 36, 49}, {3, 6, 8, 16, 19, 32, 39}))
  {
    var a, b := "vJrwpWtwJgWr", "hcsFMMfFFhFp";
    assert "vJrwpWtwJgWrhcsFMMfFFhFp" == a + b;
    ExampleLeftHalf();
    ExampleRightHalf();
    RucksackOfHalves(a, b);
  }

  /** The test's first rucksack parses, and its halves share only `p`, of
      priority 16. */
  lemma ExampleFirstDiff()
    ensures RucksackFromStr("vJrwpWtwJgWrhcsFMMfFFhFp").Ok?
    ensures Diff(RucksackFromStr("vJrwpWtwJgWrhcsFMMfFFhFp").value) == {16}
  {
    ExampleFirstParses();
    ExampleCommon();
  }
}
