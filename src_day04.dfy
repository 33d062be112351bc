/** Camp cleanup (src/bin/day04.rs): pairs of inclusive section ranges; count
    the pairs where one range contains the other, and those that overlap. */
module SrcDay04 {
  import opened Wrappers
  import opened Text

  /** `RangeInclusive<u32>`: `start..=end`; it is empty when `start > end`. */
  datatype Range = Range(start: nat, end: nat)

  type Group = (Range, Range)

  predicate Has(r: Range, x: int) { r.start <= x <= r.end }

  predicate NonEmpty(r: Range) { r.start <= r.end }

  /** What `parse_range` needs to succeed without panicking: a '-' with a `u32` on
      each side. */
  predicate RangeText(s: string) {
    match SplitOnce(s, '-')
    case None => false
    case Some((a, b)) => ParseNatUpTo(a, U32Max).Ok? && ParseNatUpTo(b, U32Max).Ok?
  }

  /** `parse_range`: the numbers left and right of the first '-'. */
  function ParseRange(s: string): (r: Range)
    requires RangeText(s)
    ensures exists a, b :: s == a + "-" + b && '-' !in a
                        && ParseNatUpTo(a, U32Max) == Ok(r.start) && ParseNatUpTo(b, U32Max) == Ok(r.end)
  {
    var (a, b) := SplitOnce(s, '-').value;
    assert s == a + "-" + b;
    Range(ParseNatUpTo(a, U32Max).value, ParseNatUpTo(b, U32Max).value)
  }

  /** What one line needs: a ',' between two range texts. */
  predicate GroupText(l: string) {
    match SplitOnce(l, ',')
    case None => false
    case Some((a, b)) => RangeText(a) && RangeText(b)
  }

  function ParseGroup(l: string): (g: Group)
    requires GroupText(l)
    ensures exists a, b :: l == a + "," + b && ',' !in a && RangeText(a) && RangeText(b)
                        && g == (ParseRange(a), ParseRange(b))
  {
    var (a, b) := SplitOnce(l, ',').value;
    assert l == a + "," + b;
    (ParseRange(a), ParseRange(b))
  }

  /** `parse_input`: one group per line; any malformed line panics. */
  function ParseInput(input: string): (r: seq<Group>)
    requires forall l | l in Lines(input) :: GroupText(l)
    ensures |r| == |Lines(input)|
    ensures forall i | 0 <= i < |r| :: r[i] == ParseGroup(Lines(input)[i])
  {
    var ls := Lines(input);
    seq(|ls|, i requires 0 <= i < |ls| => ParseGroup(ls[i]))
  }

  /** The `contains` closure of `overlap_fully`. */
  predicate ContainsFully(a: Range, b: Range) {
    a.start <= b.start && a.end >= b.end
  }

  /** `overlap_fully`: one range contains the other. */
  predicate OverlapFully(g: Group) {
    ContainsFully(g.0, g.1) || ContainsFully(g.1, g.0)
  }

  /** The `contains` closure of `overlap_atall`, with its comparisons as written. */
  predicate ContainsStart(a: Range, b: Range) {
    (a.start <= b.start && b.end <= a.start) || (b.end >= a.start && b.start <= a.start)
  }

  /** `overlap_atall`. */
  predicate OverlapAtAll(g: Group) {
    ContainsStart(g.0, g.1) || ContainsStart(g.1, g.0)
  }

  /** For a non-empty `b`, the closure holds exactly when `b` holds `a`'s start. */
  lemma ContainsStartMeaning(a: Range, b: Range)
    requires NonEmpty(b)
    ensures ContainsStart(a, b) <==> Has(b, a.start)
  {
  }

  /** For non-empty ranges, `overlap_fully` holds exactly when every section of one
      range is a section of the other. */
  lemma OverlapFullyMeaning(g: Group)
    requires NonEmpty(g.0) && NonEmpty(g.1)
    ensures OverlapFully(g) <==>
              ((forall x :: Has(g.1, x) ==> Has(g.0, x)) || (forall x :: Has(g.0, x) ==> Has(g.1, x)))
  {
    if (forall x :: Has(g.1, x) ==> Has(g.0, x)) {
      assert Has(g.1, g.1.start) && Has(g.1, g.1.end);
    }
    if (forall x :: Has(g.0, x) ==> Has(g.1, x)) {
      assert Has(g.0, g.0.start) && Has(g.0, g.0.end);
    }
  }

  /** For non-empty ranges, `overlap_atall` holds exactly when some section is in
      both ranges. */
  lemma OverlapAtAllMeaning(g: Group)
    requires NonEmpty(g.0) && NonEmpty(g.1)
    ensures OverlapAtAll(g) <==> exists x :: Has(g.0, x) && Has(g.1, x)
  {
    ContainsStartMeaning(g.0, g.1);
    ContainsStartMeaning(g.1, g.0);
    if OverlapAtAll(g) {
      if Has(g.1, g.0.start) {
        assert Has(g.0, g.0.start);
      } else {
        assert Has(g.0, g.1.start) && Has(g.1, g.1.start);
      }
    }
    if exists x :: Has(g.0, x) && Has(g.1, x) {
      var x :| Has(g.0, x) && Has(g.1, x);
      assert Has(g.1, g.0.start) || Has(g.0, g.1.start);
    }
  }

  /** On an empty second range the closure can still hold: a range that has no
      sections is reported as overlapping. */
  lemma OverlapAtAllEmptyRange()
    ensures var g := (Range(4, 4), Range(5, 3));
      OverlapAtAll(g) && !exists x :: Has(g.0, x) && Has(g.1, x)
  {
  }

  /** Both predicates are symmetric in the two ranges of a group. */
  lemma OverlapSymmetric(a: Range, b: Range)
    ensures OverlapFully((a, b)) == OverlapFully((b, a))
    ensures OverlapAtAll((a, b)) == OverlapAtAll((b, a))
  {
  }

  /** Full containment implies overlap. */
  lemma FullyImpliesAtAll(g: Group)
    requires NonEmpty(g.0) && NonEmpty(g.1)
    ensures OverlapFully(g) ==> OverlapAtAll(g)
  {
    OverlapAtAllMeaning(g);
    if ContainsFully(g.0, g.1) {
      assert Has(g.0, g.1.start) && Has(g.1, g.1.start);
    } else if ContainsFully(g.1, g.0) {
      assert Has(g.0, g.0.start) && Has(g.1, g.0.start);
    }
  }

  /** `filter(p).count()`: the number of groups `p` holds of, front to back. */
  function Count(gs: seq<Group>, p: Group -> bool): nat {
    if gs == [] then 0 else (if p(gs[0]) then 1 else 0) + Count(gs[1..], p)
  }

  lemma {:induction false} CountAppend(a: seq<Group>, b: seq<Group>, p: Group -> bool)
    ensures Count(a + b, p) == Count(a, p) + Count(b, p)
  {
    if a == [] {
      assert a + b == b;
    } else {
      assert (a + b)[1..] == a[1..] + b;
      CountAppend(a[1..], b, p);
    }
  }

  /** The count is the number of positions whose group `p` holds of. */
  lemma {:induction false} CountIndices(gs: seq<Group>, p: Group -> bool)
    ensures Count(gs, p) == |set i | 0 <= i < |gs| && p(gs[i])|
  {
    if gs != [] {
      var n := |gs| - 1;
      var init := gs[..n];
      assert init + [gs[n]] == gs;
      CountIndices(init, p);
      CountAppend(init, [gs[n]], p);
      assert Count([gs[n]], p) == if p(gs[n]) then 1 else 0 by {
        assert [gs[n]][1..] == [];
      }
      var all := set i | 0 <= i < |gs| && p(gs[i]);
      var before := set i | 0 <= i < n && p(init[i]);
      if p(gs[n]) {
        assert all == before + {n};
      } else {
        assert all == before;
      }
    }
  }

  /** `part1`: the number of groups where one range contains the other. */
  function Part1(gs: seq<Group>): (n: nat)
    ensures n == |set i | 0 <= i < |gs| && OverlapFully(gs[i])|
    ensures n == 0 <==> forall i | 0 <= i < |gs| :: !OverlapFully(gs[i])
  {
    CountIndices(gs, OverlapFully);
    var fully := set i | 0 <= i < |gs| && OverlapFully(gs[i]);
    var p: Group -> bool := OverlapFully;
    assert fully == set i | 0 <= i < |gs| && p(gs[i]);
    assert fully == {} <==> forall i | 0 <= i < |gs| :: !OverlapFully(gs[i]) by {
      if fully == {} {
        forall i | 0 <= i < |gs| ensures !OverlapFully(gs[i]) {
          assert i !in fully;
        }
      }
    }
    Count(gs, OverlapFully)
  }

  /** `part2`: the number of groups whose ranges overlap. */
  function Part2(gs: seq<Group>): (n: nat)
    ensures n == |set i | 0 <= i < |gs| && OverlapAtAll(gs[i])|
    ensures n == 0 <==> forall i | 0 <= i < |gs| :: !OverlapAtAll(gs[i])
  {
    CountIndices(gs, OverlapAtAll);
    var atAll := set i | 0 <= i < |gs| && OverlapAtAll(gs[i]);
    var p: Group -> bool := OverlapAtAll;
    assert atAll == set i | 0 <= i < |gs| && p(gs[i]);
    assert atAll == {} <==> forall i | 0 <= i < |gs| :: !OverlapAtAll(gs[i]) by {
      if atAll == {} {
        forall i | 0 <= i < |gs| ensures !OverlapAtAll(gs[i]) {
          assert i !in atAll;
        }
      }
    }
    Count(gs, OverlapAtAll)
  }

  /** At most every group is counted. */
  lemma {:induction false} CountBound(gs: seq<Group>, p: Group -> bool)
    ensures Count(gs, p) <= |gs|
  {
    if gs != [] {
      CountBound(gs[1..], p);
    }
  }

  /** With non-empty ranges, every group counted by part 1 is counted by part 2. */
  lemma {:induction false} Part1AtMostPart2(gs: seq<Group>)
    requires forall i | 0 <= i < |gs| :: NonEmpty(gs[i].0) && NonEmpty(gs[i].1)
    ensures Part1(gs) <= Part2(gs) <= |gs|
  {
    CountBound(gs, OverlapAtAll);
    if gs != [] {
      FullyImpliesAtAll(gs[0]);
      Part1AtMostPart2(gs[1..]);
    }
  }

  /** The example's groups, as parsed. */
  function ExampleGroups(): seq<Group> {
    [(Range(2, 4), Range(6, 8)), (Range(2, 3), Range(4, 5)), (Range(5, 7), Range(7, 9)),
     (Range(2, 8), Range(3, 7)), (Range(6, 6), Range(4, 6)), (Range(2, 6), Range(4, 8))]
  }

  lemma Example()
    ensures Part1(ExampleGroups()) == 2
    ensures Part2(ExampleGroups()) == 4
  {
    var g := ExampleGroups();
    assert g[1..][1..][1..][1..][1..][1..] == [];
  }
}
