/** Rucksack reorganisation with bit masks (2022/src/bin/day03_faster.rs): a
    compartment is a `u64` whose bit `p` is set when it holds an item of
    priority `p`; union and intersection are bitwise or and and. The answers
    agree with the set-based model of 2022/src/bin/day03.rs. */
module Y2022Day03Faster {
  import opened Wrappers
  import opened Text
  import S = Y2022Day03

  /** `priority`: 1..26 for a..z, 27..52 for A..Z, None for anything else. */
  function Priority(c: char): (r: Option<nat>)
    ensures r.Some? <==> S.IsLetter(c)
    ensures r.Some? ==> 1 <= r.value <= 52
  {
    if 'a' <= c <= 'z' then Some((c as int) - ('a' as int) + 1)
    else if 'A' <= c <= 'Z' then Some((c as int) - ('A' as int) + 27)
    else None
  }

  /** `priority` gives the same letter-to-number mapping as `Item::try_from`. */
  lemma PriorityAgrees(c: char)
    ensures Priority(c).Some? <==> S.ItemTryFrom(c).Ok?
    ensures Priority(c).Some? ==> Priority(c).value == S.ItemTryFrom(c).value
  {
  }

  // ---------------------------------------------------------------------
  // A `u64` as its 64 bits

  /** A `u64`, as its bits from the least significant (bit 0) up. */
  type U64 = b: seq<bool> | |b| == 64 witness Zero()

  /** `0`. */
  function Zero(): (r: seq<bool>)
    ensures |r| == 64 && forall k | 0 <= k < 64 :: !r[k]
  {
    seq(64, k => false)
  }

  /** `!0`: all bits set. */
  function AllOnes(): (r: U64)
    ensures forall k | 0 <= k < 64 :: r[k]
  {
    seq(64, k => true)
  }

  /** `a | b`. */
  function Or(a: U64, b: U64): (r: U64)
    ensures forall k | 0 <= k < 64 :: r[k] == (a[k] || b[k])
  {
    seq(64, k requires 0 <= k < 64 => a[k] || b[k])
  }

  /** `a & b`. */
  function And(a: U64, b: U64): (r: U64)
    ensures forall k | 0 <= k < 64 :: r[k] == (a[k] && b[k])
  {
    seq(64, k requires 0 <= k < 64 => a[k] && b[k])
  }

  /** `1 << p`. */
  function Shl1(p: nat): (r: U64)
    requires p < 64
    ensures forall k | 0 <= k < 64 :: r[k] == (k == p)
  {
    seq(64, k requires 0 <= k < 64 => k == p)
  }

  /** The number a run of bits stands for, bit `k` of the `u64` worth `2^k`. */
  function ValueFrom(m: U64, k: nat): nat
    requires k <= 64
    decreases 64 - k
  {
    if k == 64 then 0 else (if m[k] then 1 else 0) + 2 * ValueFrom(m, k + 1)
  }

  /** The value of a `u64`, as printed in error messages. */
  function Value(m: U64): nat {
    ValueFrom(m, 0)
  }

  /** Bit `p` of `m` is set, that is, `m` holds the item of priority `p`
      (a `u64` has no bits from 64 on). */
  predicate Has(m: U64, p: nat) {
    p < 64 && m[p]
  }

  // ---------------------------------------------------------------------
  // Compartments

  datatype Compartment = Compartment(mask: U64)

  /** `Compartment::union`: the items of either compartment. */
  function Union(a: Compartment, b: Compartment): (r: Compartment)
    ensures forall p :: Has(r.mask, p) <==> Has(a.mask, p) || Has(b.mask, p)
  {
    Compartment(Or(a.mask, b.mask))
  }

  /** `Compartment::intersection`: the items of both compartments. */
  function Intersection(a: Compartment, b: Compartment): (r: Compartment)
    ensures forall p :: Has(r.mask, p) <==> Has(a.mask, p) && Has(b.mask, p)
  {
    Compartment(And(a.mask, b.mask))
  }

  /** `u64::count_ones`, restricted to bits `i` and above. */
  function CountOnesFrom(m: U64, i: nat): nat
    decreases 64 - i
  {
    if i >= 64 then 0 else (if Has(m, i) then 1 else 0) + CountOnesFrom(m, i + 1)
  }

  /** `u64::trailing_zeros`, searching from bit `i`: the lowest set bit from `i`
      on, or 64 when there is none. */
  function TrailingZerosFrom(m: U64, i: nat): (r: nat)
    ensures i <= r || r == 64
    ensures r <= 64 && (r < 64 ==> Has(m, r))
    ensures forall q | i <= q < r :: !Has(m, q)
    decreases 64 - i
  {
    if i >= 64 then 64 else if Has(m, i) then i else TrailingZerosFrom(m, i + 1)
  }

  /** No bit from `i` on exactly when the count from `i` is zero. */
  lemma {:induction false} CountOnesZero(m: U64, i: nat)
    ensures CountOnesFrom(m, i) == 0 <==> forall q | i <= q :: !Has(m, q)
    decreases 64 - i
  {
    if i < 64 {
      CountOnesZero(m, i + 1);
    }
  }

  /** The count from `i` is one exactly when the lowest set bit from `i` on is
      the only one. */
  lemma {:induction false} CountOnesOne(m: U64, i: nat)
    ensures CountOnesFrom(m, i) == 1 <==>
              var t := TrailingZerosFrom(m, i); t < 64 && forall q | i <= q && q != t :: !Has(m, q)
    decreases 64 - i
  {
    if i < 64 {
      CountOnesOne(m, i + 1);
      CountOnesZero(m, i + 1);
    }
  }

  /** Exactly one bit of `m` is set, the bit `p`. */
  predicate OnlyBit(m: U64, p: nat) {
    Has(m, p) && forall q: nat | q < 64 && q != p :: !Has(m, q)
  }

  /** A mask with one set bit counts one, and that bit is its lowest. */
  lemma OnlyBitCount(m: U64, p: nat)
    requires OnlyBit(m, p)
    ensures CountOnesFrom(m, 0) == 1 && TrailingZerosFrom(m, 0) == p
  {
    CountOnesOne(m, 0);
    assert TrailingZerosFrom(m, 0) == p;
  }

  /** `Compartment::single_item`: the only item (the index of the only set bit),
      or an error naming the number of set bits and the mask. */
  function SingleItem(c: Compartment): (r: Result<nat>)
    ensures r.Err? ==> r.error == "Not exactly one but " + NatToString(CountOnesFrom(c.mask, 0))
                                   + " items in compartment: " + NatToString(Value(c.mask))
  {
    var ones := CountOnesFrom(c.mask, 0);
    if ones != 1 then
      Err("Not exactly one but " + NatToString(ones) + " items in compartment: " + NatToString(Value(c.mask)))
    else
      Ok(TrailingZerosFrom(c.mask, 0))
  }

  /** `single_item` succeeds exactly when one bit is set, and returns that bit. */
  lemma SingleItemMeaning(c: Compartment)
    ensures SingleItem(c).Ok? <==> exists p :: OnlyBit(c.mask, p)
    ensures SingleItem(c).Ok? ==> OnlyBit(c.mask, SingleItem(c).value)
  {
    CountOnesOne(c.mask, 0);
    var t := TrailingZerosFrom(c.mask, 0);
    forall p | OnlyBit(c.mask, p) ensures SingleItem(c).Ok? {
      OnlyBitCount(c.mask, p);
    }
    if SingleItem(c).Ok? {
      assert OnlyBit(c.mask, t);
    }
  }

  /** The item `Compartment::from_str` records for one byte: its priority, or 0
      (`unwrap_or(0)`) for a byte that is not a letter. */
  function ItemOf(c: char): (p: nat)
    ensures p < 64
    ensures p == 0 <==> !S.IsLetter(c)
  {
    if Priority(c).Some? then Priority(c).value else 0
  }

  /** The bit one byte sets. */
  function ItemBit(c: char): (b: U64)
    ensures forall q :: Has(b, q) <==> q == ItemOf(c)
  {
    Shl1(ItemOf(c))
  }

  /** The mask of a whole string: the or of the bits of its bytes, left to right. */
  function MaskOf(s: string): U64 {
    if s == [] then Zero() else Or(MaskOf(s[..|s| - 1]), ItemBit(s[|s| - 1]))
  }

  /** The mask of a string holds exactly the items its bytes record. */
  lemma {:induction false} MaskOfHas(s: string)
    ensures forall q :: Has(MaskOf(s), q) <==> exists i | 0 <= i < |s| :: ItemOf(s[i]) == q
  {
    if s != [] {
      var init := s[..|s| - 1];
      MaskOfHas(init);
      assert forall i | 0 <= i < |init| :: init[i] == s[i];
      assert MaskOf(s) == Or(MaskOf(init), ItemBit(s[|s| - 1]));
      forall q ensures Has(MaskOf(s), q) <==> exists i | 0 <= i < |s| :: ItemOf(s[i]) == q {
        assert Has(MaskOf(s), q) == (Has(MaskOf(init), q) || Has(ItemBit(s[|s| - 1]), q));
        if q == ItemOf(s[|s| - 1]) {
          assert ItemOf(s[|s| - 1]) == q;
        }
        if exists i | 0 <= i < |s| :: ItemOf(s[i]) == q {
          var i :| 0 <= i < |s| && ItemOf(s[i]) == q;
          if i < |init| {
            assert ItemOf(init[i]) == q;
          }
        }
      }
    }
  }

  /** The compartment a string parses to: an error when some byte set bit 0. */
  function CompartmentOf(s: string): (r: Result<Compartment>)
    ensures r.Ok? <==> forall i | 0 <= i < |s| :: S.IsLetter(s[i])
    ensures r.Ok? ==> r.value.mask == MaskOf(s)
    ensures r.Err? ==> r.error == "Weird char in line " + s
  {
    var m := MaskOf(s);
    MaskOfHas(s);
    assert m[0] == Has(m, 0);
    assert m[0] <==> exists i | 0 <= i < |s| :: !S.IsLetter(s[i]) by {
      if m[0] {
        var i :| 0 <= i < |s| && ItemOf(s[i]) == 0;
      }
    }
    if !m[0] then Ok(Compartment(m)) else Err("Weird char in line " + s)
  }

  /** A parsed compartment holds exactly the priorities of the string's letters. */
  lemma CompartmentItems(s: string)
    requires CompartmentOf(s).Ok?
    ensures forall p: nat :: Has(CompartmentOf(s).value.mask, p) <==>
                               exists i | 0 <= i < |s| :: Priority(s[i]) == Some(p)
  {
    MaskOfHas(s);
    forall i | 0 <= i < |s| ensures Priority(s[i]) == Some(ItemOf(s[i])) {
    }
  }

  /** `Compartment::from_str`: or the bit of every byte into the mask, then
      reject the mask if bit 0 is set. */
  method CompartmentFromStr(s: string) returns (r: Result<Compartment>)
    ensures r == CompartmentOf(s)
  {
    var mask: U64 := Zero();
    var i := 0;
    while i < |s|
      invariant 0 <= i <= |s|
      invariant mask == MaskOf(s[..i])
    {
      var prio := Priority(s[i]);
      var p := if prio.Some? then prio.value else 0;
      var bit := Shl1(p);
      assert bit == ItemBit(s[i]);
      assert s[..i + 1][..i] == s[..i];
      assert MaskOf(s[..i + 1]) == Or(MaskOf(s[..i]), ItemBit(s[i]));
      mask := Or(mask, bit);
      i := i + 1;
    }
    assert s[..i] == s;
    if !mask[0] {
      r := Ok(Compartment(mask));
    } else {
      r := Err("Weird char in line " + s);
    }
  }

  datatype Backpack = Backpack(left: Compartment, right: Compartment)

  /** `Backpack::from_str`: an even-length line whose halves are compartments. */
  function BackpackFromStr(s: string): (r: Result<Backpack>)
    ensures |s| % 2 != 0 ==> r == Err("Line does not have even number of items: " + Quoted(s))
    ensures r.Ok? <==> |s| % 2 == 0 && CompartmentOf(s[..|s| / 2]).Ok? && CompartmentOf(s[|s| / 2..]).Ok?
    ensures r.Ok? ==> r.value == Backpack(CompartmentOf(s[..|s| / 2]).value, CompartmentOf(s[|s| / 2..]).value)
  {
    if |s| % 2 != 0 then Err("Line does not have even number of items: " + Quoted(s))
    else
      match CompartmentOf(s[..|s| / 2])
      case Err(e) => Err(e)
      case Ok(l) =>
        match CompartmentOf(s[|s| / 2..])
        case Err(e) => Err(e)
        case Ok(r) => Ok(Backpack(l, r))
  }

  /** `parse_input`: one backpack per line, stopping at the first error. */
  function ParseInput(input: string): (r: Result<seq<Backpack>>)
    ensures r.Ok? <==> forall l | l in Lines(input) :: BackpackFromStr(l).Ok?
    ensures r.Ok? ==> |r.value| == |Lines(input)|
                      && forall i | 0 <= i < |r.value| :: Ok(r.value[i]) == BackpackFromStr(Lines(input)[i])
  {
    var ls := Lines(input);
    var parsed := seq(|ls|, i requires 0 <= i < |ls| => BackpackFromStr(ls[i]));
    assert forall i | 0 <= i < |ls| :: parsed[i] == BackpackFromStr(ls[i]);
    Collect(parsed)
  }

  /** The `map(single_item).sum()` both parts end with: the single items of the
      compartments, summed, stopping at the first error. */
  function SumSingles(cs: seq<Compartment>): (r: Result<nat>)
    ensures r.Ok? <==> forall i | 0 <= i < |cs| :: SingleItem(cs[i]).Ok?
    ensures r.Err? ==> exists i | 0 <= i < |cs| :: SingleItem(cs[i]) == Err(r.error)
    decreases |cs|
  {
    if cs == [] then Ok(0)
    else
      match SingleItem(cs[0])
      case Err(e) => Err(e)
      case Ok(p) =>
        var rest := SumSingles(cs[1..]);
        assert forall i | 1 <= i < |cs| :: cs[1..][i - 1] == cs[i];
        match rest
        case Err(e) => Err(e)
        case Ok(t) => Ok(p + t)
  }

  /** The compartment `part1` looks at: the items in both halves. */
  function Common(b: Backpack): Compartment {
    Intersection(b.left, b.right)
  }

  /** `part1`: the single common item of each backpack, summed. */
  function Part1(bp: seq<Backpack>): (r: Result<nat>)
    ensures r.Ok? <==> forall i | 0 <= i < |bp| :: SingleItem(Common(bp[i])).Ok?
  {
    var cs := seq(|bp|, i requires 0 <= i < |bp| => Common(bp[i]));
    assert forall i | 0 <= i < |bp| :: cs[i] == Common(bp[i]);
    SumSingles(cs)
  }

  /** The `fold` of `part2`: intersect the accumulator with every compartment. */
  function FoldIntersection(acc: Compartment, cs: seq<Compartment>): (r: Compartment)
    ensures forall p :: Has(r.mask, p) <==>
                          Has(acc.mask, p) && forall k | 0 <= k < |cs| :: Has(cs[k].mask, p)
    decreases |cs|
  {
    if cs == [] then acc
    else
      var r := FoldIntersection(Intersection(acc, cs[0]), cs[1..]);
      assert forall k | 1 <= k < |cs| :: cs[1..][k - 1] == cs[k];
      r
  }

  /** An elf carries item `p` in either compartment. */
  predicate Carries(b: Backpack, p: nat) {
    Has(b.left.mask, p) || Has(b.right.mask, p)
  }

  /** One group of `part2`: each elf's compartments are united, and the unions are
      intersected starting from all ones (`!0`), which keeps every item. */
  function GroupBadge(group: seq<Backpack>): Compartment
    requires |group| == 3
  {
    var unions := seq(3, k requires 0 <= k < 3 => Union(group[k].left, group[k].right));
    FoldIntersection(Compartment(AllOnes()), unions)
  }

  /** A group's badge mask holds the items all three elves carry. */
  lemma GroupBadgeMeaning(group: seq<Backpack>)
    requires |group| == 3
    ensures forall p :: Has(GroupBadge(group).mask, p) <==>
                          Carries(group[0], p) && Carries(group[1], p) && Carries(group[2], p)
  {
    var unions := seq(3, k requires 0 <= k < 3 => Union(group[k].left, group[k].right));
    var c := FoldIntersection(Compartment(AllOnes()), unions);
    forall p ensures Has(c.mask, p) <==> Carries(group[0], p) && Carries(group[1], p) && Carries(group[2], p) {
      assert forall k | 0 <= k < 3 :: Has(unions[k].mask, p) == Carries(group[k], p);
    }
  }

  /** `part2`: the badge of each group of three (`chunks_exact` drops a trailing
      partial group), summed. */
  function Part2(bp: seq<Backpack>): (r: Result<nat>)
    ensures r.Ok? <==> forall g | 0 <= g < |bp| / 3 :: SingleItem(GroupBadge(S.Chunks3(bp)[g])).Ok?
  {
    var groups := S.Chunks3(bp);
    var cs := seq(|groups|, g requires 0 <= g < |groups| => GroupBadge(groups[g]));
    assert forall g | 0 <= g < |groups| :: cs[g] == GroupBadge(groups[g]);
    SumSingles(cs)
  }

  // ---------------------------------------------------------------------
  // Agreement with the set-based model

  /** A mask and a set hold the same items. */
  ghost predicate SameItems(m: U64, items: set<nat>) {
    forall p :: Has(m, p) <==> p in items
  }

  /** A backpack and a rucksack hold the same items in each compartment. */
  ghost predicate Agrees(b: Backpack, r: S.Rucksack) {
    SameItems(b.left.mask, r.left) && SameItems(b.right.mask, r.right)
  }

  /** A compartment parses exactly when the set-based side does, to the same items. */
  lemma CompartmentAgrees(s: string)
    ensures CompartmentOf(s).Ok? <==> S.ParseSide(s).Ok?
    ensures CompartmentOf(s).Ok? ==> SameItems(CompartmentOf(s).value.mask, S.ParseSide(s).value)
  {
    if CompartmentOf(s).Ok? {
      CompartmentItems(s);
      forall i | 0 <= i < |s| ensures S.ItemTryFrom(s[i]) == Ok(Priority(s[i]).value) {
        PriorityAgrees(s[i]);
      }
      var d := S.ParseSide(s).value;
      forall p: nat ensures Has(CompartmentOf(s).value.mask, p) <==> p in d {
        assert (exists i | 0 <= i < |s| :: Priority(s[i]) == Some(p)) <==>
               (exists i | 0 <= i < |s| :: S.ItemTryFrom(s[i]) == Ok(p));
      }
    }
  }

  /** A line parses as a backpack exactly when it parses as a rucksack, and the
      two hold the same items. */
  lemma BackpackAgrees(s: string)
    ensures BackpackFromStr(s).Ok? <==> S.RucksackFromStr(s).Ok?
    ensures BackpackFromStr(s).Ok? ==> Agrees(BackpackFromStr(s).value, S.RucksackFromStr(s).value)
  {
    if |s| % 2 == 0 {
      var a, b := s[..|s| / 2], s[|s| / 2..];
      CompartmentAgrees(a);
      CompartmentAgrees(b);
      assert forall i | 0 <= i < |s| :: s[i] == if i < |s| / 2 then a[i] else b[i - |s| / 2];
      if BackpackFromStr(s).Ok? {
        assert forall i | 0 <= i < |s| :: S.IsLetter(s[i]);
        assert S.IsAscii(s);
      }
    }
  }

  /** The single item of a mask is the only element of the matching set. */
  lemma SingleItemAgrees(c: Compartment, d: set<nat>, msg: string)
    requires SameItems(c.mask, d)
    ensures SingleItem(c).Ok? <==> S.TheOnly(d, msg).Ok?
    ensures SingleItem(c).Ok? ==> SingleItem(c).value == S.TheOnly(d, msg).value
  {
    SingleItemMeaning(c);
    if SingleItem(c).Ok? {
      assert d == {SingleItem(c).value};
    }
    if S.TheOnly(d, msg).Ok? {
      assert OnlyBit(c.mask, S.TheOnly(d, msg).value);
    }
  }

  /** Summing single items agrees with the set-based sum of part 1. */
  lemma {:induction false} SumSinglesPart1(cs: seq<Compartment>, rs: seq<S.Rucksack>)
    requires |cs| == |rs| && forall i | 0 <= i < |cs| :: SameItems(cs[i].mask, S.Diff(rs[i]))
    ensures SumSingles(cs).Ok? <==> S.Part1(rs).Ok?
    ensures SumSingles(cs).Ok? ==> SumSingles(cs).value == S.Part1(rs).value
  {
    if cs != [] {
      SingleItemAgrees(cs[0], S.Diff(rs[0]), "Diff contains not exactly one item");
      SumSinglesPart1(cs[1..], rs[1..]);
    }
  }

  /** Summing single items agrees with the set-based sum of the badges. */
  lemma {:induction false} SumSinglesBadges(cs: seq<Compartment>, gr: seq<seq<S.Rucksack>>)
    requires |cs| == |gr| && forall g | 0 <= g < |gr| :: |gr[g]| == 3
    requires forall g | 0 <= g < |cs| :: SameItems(cs[g].mask, S.Badges(gr[g]))
    ensures SumSingles(cs).Ok? <==> S.SumBadges(gr).Ok?
    ensures SumSingles(cs).Ok? ==> SumSingles(cs).value == S.SumBadges(gr).value
  {
    if cs != [] {
      SingleItemAgrees(cs[0], S.Badges(gr[0]), "Group contains not exactly one badge");
      SumSinglesBadges(cs[1..], gr[1..]);
    }
  }

  /** Part 1 gives the same answer on both models. */
  lemma Part1Agrees(bp: seq<Backpack>, rs: seq<S.Rucksack>)
    requires |bp| == |rs| && forall i | 0 <= i < |bp| :: Agrees(bp[i], rs[i])
    ensures Part1(bp).Ok? <==> S.Part1(rs).Ok?
    ensures Part1(bp).Ok? ==> Part1(bp).value == S.Part1(rs).value
  {
    var cs := seq(|bp|, i requires 0 <= i < |bp| => Common(bp[i]));
    assert forall i | 0 <= i < |cs| :: SameItems(cs[i].mask, S.Diff(rs[i]));
    SumSinglesPart1(cs, rs);
  }

  /** A group's badge mask holds the set-based badges. */
  lemma GroupBadgeAgrees(gb: seq<Backpack>, gr: seq<S.Rucksack>)
    requires |gb| == 3 && |gr| == 3 && forall k | 0 <= k < 3 :: Agrees(gb[k], gr[k])
    ensures SameItems(GroupBadge(gb).mask, S.Badges(gr))
  {
    GroupBadgeMeaning(gb);
    forall p ensures Has(GroupBadge(gb).mask, p) <==> p in S.Badges(gr) {
      assert forall k | 0 <= k < 3 :: Carries(gb[k], p) == (p in S.All(gr[k]));
    }
  }

  /** Part 2 gives the same answer on both models. */
  lemma Part2Agrees(bp: seq<Backpack>, rs: seq<S.Rucksack>)
    requires |bp| == |rs| && forall i | 0 <= i < |bp| :: Agrees(bp[i], rs[i])
    ensures Part2(bp).Ok? <==> S.Part2(rs).Ok?
    ensures Part2(bp).Ok? ==> Part2(bp).value == S.Part2(rs).value
  {
    var gb, gr := S.Chunks3(bp), S.Chunks3(rs);
    var cs := seq(|gb|, g requires 0 <= g < |gb| => GroupBadge(gb[g]));
    forall g | 0 <= g < |cs| ensures SameItems(cs[g].mask, S.Badges(gr[g])) {
      assert forall k | 0 <= k < 3 :: gb[g][k] == bp[3 * g + k] && gr[g][k] == rs[3 * g + k];
      GroupBadgeAgrees(gb[g], gr[g]);
    }
    SumSinglesBadges(cs, gr);
  }

  /** Parsing a whole input agrees on both models, line by line. */
  lemma ParseInputAgrees(input: string)
    ensures ParseInput(input).Ok? <==> S.ParseInput(input).Ok?
    ensures ParseInput(input).Ok? ==>
              (|ParseInput(input).value| == |S.ParseInput(input).value|
               && forall i | 0 <= i < |ParseInput(input).value| ::
                    Agrees(ParseInput(input).value[i], S.ParseInput(input).value[i]))
  {
    var ls := Lines(input);
    forall i | 0 <= i < |ls| {
      BackpackAgrees(ls[i]);
    }
  }
}
