/** Seed almanac (2023/src/bin/day05.rs): each map sends a number through
    the range that covers it, or leaves it unchanged; a seed's location is
    the seed sent through every map in order. */
module Y2023Day05 {
  import opened Wrappers
  import opened Text

  /** `Range`: `len` numbers from `srcStart` on go to as many from
      `dstStart` on. */
  datatype Range = Range(srcStart: nat, dstStart: nat, len: nat)

  /** `src` lies within the range's source numbers. */
  predicate Covers(r: Range, src: nat) {
    r.srcStart <= src < r.srcStart + r.len
  }

  /** `Range::try_map`: the destination of a covered number, None for any
      other. */
  function TryMap(r: Range, src: nat): (o: Option<nat>)
    ensures o.Some? <==> Covers(r, src)
    ensures o.Some? ==> r.dstStart <= o.value < r.dstStart + r.len
  {
    if src < r.srcStart then None
    else
      var offset := src - r.srcStart;
      if offset >= r.len then None else Some(r.dstStart + offset)
  }

  /** A range sends different numbers to different destinations, and each
      destination comes back to its source at the same offset. */
  lemma TryMapInjective(r: Range, a: nat, b: nat)
    requires TryMap(r, a).Some? && TryMap(r, b).Some?
    ensures TryMap(r, a) == TryMap(r, b) <==> a == b
    ensures TryMap(r, a).value - r.dstStart == a - r.srcStart
  {
  }

  // ---------------------------------------------------------------------
  // Parsing a range

  /** Each word as a `u32`. */
  function Numbers(ws: seq<string>): (rs: seq<Result<nat>>)
    ensures |rs| == |ws| && forall k | 0 <= k < |ws| :: rs[k] == ParseNatUpTo(ws[k], U32Max)
  {
    seq(|ws|, k requires 0 <= k < |ws| => ParseNatUpTo(ws[k], U32Max))
  }

  /** The whitespace-separated words as `u32`s, stopping at the first that
      does not parse. */
  function ParseAll(ws: seq<string>): Result<seq<nat>> {
    Collect(Numbers(ws))
  }

  /** Words that all parse are at least the three numbers that
      `Range::from_str` indexes; fewer make it panic. */
  predicate WordsOk(ws: seq<string>) {
    ParseAll(ws).Ok? ==> |ws| >= 3
  }

  /** `Range::from_str` on the words of a line: destination, source and
      length, in that order; words after the third are ignored, but every
      word must be a `u32`. */
  function RangeOfWords(ws: seq<string>): (r: Result<Range>)
    requires WordsOk(ws)
    ensures r.Ok? <==> forall k | 0 <= k < |ws| :: ParseNatUpTo(ws[k], U32Max).Ok?
    ensures r.Ok? ==>
      && ParseNatUpTo(ws[0], U32Max) == Ok(r.value.dstStart)
      && ParseNatUpTo(ws[1], U32Max) == Ok(r.value.srcStart)
      && ParseNatUpTo(ws[2], U32Max) == Ok(r.value.len)
  {
    match ParseAll(ws)
    case Err(e) => Err(e)
    case Ok(nums) =>
      Ok(Range(nums[1], nums[0], nums[2]))
  }

  /** `Range::from_str`: a line parses exactly when all its words are
      `u32`s; the first three are then its destination, source and length. */
  function RangeFromStr(s: string): (r: Result<Range>)
    requires WordsOk(SplitWhitespace(s))
    ensures var ws := SplitWhitespace(s);
      && (r.Ok? <==> forall k | 0 <= k < |ws| :: ParseNatUpTo(ws[k], U32Max).Ok?)
      && (r.Ok? ==> ParseNatUpTo(ws[0], U32Max) == Ok(r.value.dstStart)
                    && ParseNatUpTo(ws[1], U32Max) == Ok(r.value.srcStart)
                    && ParseNatUpTo(ws[2], U32Max) == Ok(r.value.len))
  {
    RangeOfWords(SplitWhitespace(s))
  }

  /** A range written as "dst src len". */
  function RenderRange(r: Range): string {
    Join(RangeWords(r), ' ')
  }

  function RangeWords(r: Range): seq<string> {
    [NatToString(r.dstStart), NatToString(r.srcStart), NatToString(r.len)]
  }

  /** A decimal numeral is a word. */
  lemma NumeralIsWord(n: nat)
    ensures IsWord(NatToString(n))
  {
    NatToStringValue(n);
  }

  /** The written numbers of a range that fits `u32`s read back as it. */
  lemma RangeWordsRoundTrip(r: Range)
    requires r.srcStart <= U32Max && r.dstStart <= U32Max && r.len <= U32Max
    ensures WordsOk(RangeWords(r)) && RangeOfWords(RangeWords(r)) == Ok(r)
  {
    var ws := RangeWords(r);
    ParseNatToString(r.dstStart);
    ParseNatToString(r.srcStart);
    ParseNatToString(r.len);
    assert ParseAll(ws).Ok?;
  }

  /** Reading back a written range whose numbers fit a `u32` gives the
      range. */
  lemma RangeRoundTrip(r: Range)
    requires r.srcStart <= U32Max && r.dstStart <= U32Max && r.len <= U32Max
    ensures WordsOk(SplitWhitespace(RenderRange(r)))
    ensures RangeFromStr(RenderRange(r)) == Ok(r)
  {
    var ws := RangeWords(r);
    NumeralIsWord(r.dstStart);
    NumeralIsWord(r.srcStart);
    NumeralIsWord(r.len);
    SplitWhitespaceJoin(ws);
    RangeWordsRoundTrip(r);
  }

  // ---------------------------------------------------------------------
  // Parsing a map

  /** `Map`: the name of the numbers it takes and of those it gives, and
      its ranges. */
  datatype Map = Map(from: string, to: string, ranges: seq<Range>)

  /** Every line's words, up to the first line that does not parse, are at
      least three numbers. */
  predicate RangeLinesOk(wss: seq<seq<string>>) {
    wss == [] || (WordsOk(wss[0]) && (RangeOfWords(wss[0]).Ok? ==> RangeLinesOk(wss[1..])))
  }

  /** The range lines, given by their words, stopping at the first that
      does not parse. */
  function RangesOf(wss: seq<seq<string>>): Result<seq<Range>>
    requires RangeLinesOk(wss)
  {
    if wss == [] then Ok([])
    else
      match RangeOfWords(wss[0])
      case Err(e) => Err(e)
      case Ok(x) =>
        match RangesOf(wss[1..])
        case Err(e) => Err(e)
        case Ok(xs) => Ok([x] + xs)
  }

  /** The ranges, one per line in order, when every line parses. */
  lemma {:induction false} RangesOfMeaning(wss: seq<seq<string>>)
    requires RangeLinesOk(wss)
    ensures RangesOf(wss).Ok? ==> |RangesOf(wss).value| == |wss|
    ensures RangesOf(wss).Ok? ==> forall k | 0 <= k < |wss| ::
      WordsOk(wss[k]) && RangeOfWords(wss[k]) == Ok(RangesOf(wss).value[k])
  {
    if wss != [] && RangeOfWords(wss[0]).Ok? {
      RangesOfMeaning(wss[1..]);
      assert forall k | 1 <= k < |wss| :: wss[k] == wss[1..][k - 1];
    }
  }

  /** The words of each line. */
  function WordLines(ls: seq<string>): (wss: seq<seq<string>>)
    ensures |wss| == |ls| && forall k | 0 <= k < |ls| :: wss[k] == SplitWhitespace(ls[k])
  {
    seq(|ls|, k requires 0 <= k < |ls| => SplitWhitespace(ls[k]))
  }

  function HeaderError(header: string): string { "header kapott: " + Quoted(header) }

  /** The header "<from>-to-<to> map:", cut at dashes and spaces. */
  predicate IsHeader(parts: seq<string>) {
    |parts| == 4 && parts[1] == "to" && parts[3] == "map:"
  }

  function HeaderParts(s: string): seq<string>
    requires Lines(s) != []
  {
    Split(Lines(s)[0], {'-', ' '})
  }

  /** A block whose header is well formed has three numbers on each range
      line up to the first that does not parse. */
  predicate MapBlockOk(s: string) {
    Lines(s) != [] && IsHeader(HeaderParts(s)) ==> RangeLinesOk(WordLines(Lines(s)[1..]))
  }

  /** `Map::from_str` up to the sort: the header names and the ranges in
      the order of their lines. */
  function MapLines(s: string): Result<Map>
    requires MapBlockOk(s)
  {
    var ls := Lines(s);
    if ls == [] then Err("no header")
    else
      var parts := Split(ls[0], {'-', ' '});
      if !IsHeader(parts) then Err(HeaderError(ls[0]))
      else
        match RangesOf(WordLines(ls[1..]))
        case Err(e) => Err(e)
        case Ok(rs) => Ok(Map(parts[0], parts[2], rs))
  }

  /** Without lines there is no header; a header not of the form
      "<from>-to-<to> map:" is an error; otherwise the block gives the names
      around "to" and the ranges of its other lines. */
  lemma MapLinesMeaning(s: string)
    requires MapBlockOk(s)
    ensures Lines(s) == [] ==> MapLines(s) == Err("no header")
    ensures Lines(s) != [] && !IsHeader(HeaderParts(s)) ==> MapLines(s) == Err(HeaderError(Lines(s)[0]))
    ensures MapLines(s).Ok? <==> Lines(s) != [] && IsHeader(HeaderParts(s)) && RangesOf(WordLines(Lines(s)[1..])).Ok?
    ensures MapLines(s).Ok? ==>
      && MapLines(s).value.from == HeaderParts(s)[0] && MapLines(s).value.to == HeaderParts(s)[2]
      && MapLines(s).value.ranges == RangesOf(WordLines(Lines(s)[1..])).value
  {
  }

  /** The ranges in order of their first source number. */
  predicate SortedBySrc(rs: seq<Range>) {
    forall i, j | 0 <= i < j < |rs| :: rs[i].srcStart <= rs[j].srcStart
  }

  /** The first `i + 1` ranges are in order, leaving out the one at `j`,
      which starts below every range after it. */
  ghost predicate Inserting(s: seq<Range>, i: nat, j: nat) {
    && j <= i < |s|
    && (forall k, l | 0 <= k < l <= i && k != j && l != j :: s[k].srcStart <= s[l].srcStart)
    && (forall l | j < l <= i :: s[j].srcStart < s[l].srcStart)
  }

  /** Swapping the out-of-order range one step down keeps the rest in
      order. */
  lemma SwapDown(s: seq<Range>, i: nat, j: nat)
    requires Inserting(s, i, j) && 0 < j && s[j - 1].srcStart > s[j].srcStart
    ensures Inserting(s[j - 1 := s[j]][j := s[j - 1]], i, j - 1)
    ensures multiset(s[j - 1 := s[j]][j := s[j - 1]]) == multiset(s)
  {
    var t := s[j - 1 := s[j]][j := s[j - 1]];
    forall k, l | 0 <= k < l <= i && k != j - 1 && l != j - 1
      ensures t[k].srcStart <= t[l].srcStart
    {
      if k == j {
        assert t[k] == s[j - 1] && t[l] == s[l];
      } else if l == j {
        assert t[k] == s[k] && t[l] == s[j - 1];
      } else {
        assert t[k] == s[k] && t[l] == s[l];
      }
    }
    forall l | j - 1 < l <= i ensures t[j - 1].srcStart < t[l].srcStart {
      if l > j {
        assert t[l] == s[l];
      }
    }
  }

  /** Once the range at `j` is no smaller than the one before it, the first
      `i + 1` ranges are in order. */
  lemma InsertDone(s: seq<Range>, i: nat, j: nat)
    requires Inserting(s, i, j) && (j == 0 || s[j - 1].srcStart <= s[j].srcStart)
    ensures SortedBySrc(s[..i + 1])
  {
  }

  /** Moves the range at `i` down past every range before it that starts
      later, with adjacent swaps, so that `a[..i + 1]` is sorted. */
  method InsertBySrc(a: array<Range>, i: nat)
    requires 0 < i < a.Length && SortedBySrc(a[..i])
    modifies a
    ensures SortedBySrc(a[..i + 1])
    ensures a[i + 1..] == old(a[i + 1..])
    ensures multiset(a[..]) == old(multiset(a[..]))
  {
    var j := i;
    assert forall k | 0 <= k < i :: a[..i][k] == a[k];
    while j > 0 && a[j - 1].srcStart > a[j].srcStart
      invariant Inserting(a[..], i, j)
      invariant a[i + 1..] == old(a[i + 1..])
      invariant multiset(a[..]) == old(multiset(a[..]))
      decreases j
    {
      ghost var s := a[..];
      SwapDown(s, i, j);
      a[j - 1], a[j] := a[j], a[j - 1];
      assert a[..] == s[j - 1 := s[j]][j := s[j - 1]];
      j := j - 1;
    }
    InsertDone(a[..], i, j);
    assert a[..][..i + 1] == a[..i + 1];
  }

  /** `slice::sort_by_key(|r| r.src_start)`, in place: an insertion sort. */
  method SortBySrc(a: array<Range>)
    modifies a
    ensures SortedBySrc(a[..])
    ensures multiset(a[..]) == old(multiset(a[..]))
  {
    if a.Length == 0 {
      return;
    }
    var i := 1;
    while i < a.Length
      invariant 1 <= i <= a.Length
      invariant SortedBySrc(a[..i])
      invariant multiset(a[..]) == old(multiset(a[..]))
    {
      InsertBySrc(a, i);
      i := i + 1;
    }
    assert a[..i] == a[..];
  }

  /** `Map::from_str`: the block parsed, with its ranges sorted by their
      first source number. */
  method ParseMap(s: string) returns (r: Result<Map>)
    requires MapBlockOk(s)
    ensures r.Ok? <==> MapLines(s).Ok?
    ensures r.Err? ==> r == MapLines(s)
    ensures r.Ok? ==>
      && r.value.from == MapLines(s).value.from && r.value.to == MapLines(s).value.to
      && SortedBySrc(r.value.ranges)
      && multiset(r.value.ranges) == multiset(MapLines(s).value.ranges)
  {
    var parsed := MapLines(s);
    if parsed.Err? {
      return parsed;
    }
    var a := new Range[|parsed.value.ranges|](k requires 0 <= k < |parsed.value.ranges| => parsed.value.ranges[k]);
    assert a[..] == parsed.value.ranges;
    SortBySrc(a);
    r := Ok(Map(parsed.value.from, parsed.value.to, a[..]));
  }

  // ---------------------------------------------------------------------
  // Mapping a number

  /** How many leading ranges start below `key`; over sorted ranges, the
      point where `key` would be inserted. */
  function CountBelow(rs: seq<Range>, key: nat): (e: nat)
    ensures e <= |rs|
  {
    if rs == [] || rs[0].srcStart >= key then 0
    else 1 + CountBelow(rs[1..], key)
  }

  /** The leading ranges all start below `key`, and the next does not. */
  lemma {:induction false} CountBelowMeaning(rs: seq<Range>, key: nat)
    ensures forall j | 0 <= j < CountBelow(rs, key) :: rs[j].srcStart < key
    ensures CountBelow(rs, key) < |rs| ==> rs[CountBelow(rs, key)].srcStart >= key
  {
    if rs != [] && rs[0].srcStart < key {
      CountBelowMeaning(rs[1..], key);
      assert forall j | 1 <= j < |rs| :: rs[j] == rs[1..][j - 1];
    }
  }

  /** The result of `binary_search_by_key(&key, |r| r.src_start)`. */
  datatype Search = Found(i: nat) | NotFound(at: nat)

  /** A binary search: over sorted ranges, the index of a range starting at
      `key`, or the point where such a range would be inserted. */
  function BinarySearch(rs: seq<Range>, key: nat): (s: Search)
    ensures s.Found? ==> s.i < |rs|
    ensures s.NotFound? ==> s.at <= |rs|
  {
    var e := CountBelow(rs, key);
    if e < |rs| && rs[e].srcStart == key then Found(e)
    else NotFound(e)
  }

  /** A hit is a range starting at `key`; otherwise every range before
      the insertion point starts below `key` and, over sorted ranges, every
      range from it on starts above. */
  lemma BinarySearchMeaning(rs: seq<Range>, key: nat)
    ensures BinarySearch(rs, key).Found? ==> rs[BinarySearch(rs, key).i].srcStart == key
    ensures BinarySearch(rs, key).NotFound? ==>
      forall j | 0 <= j < BinarySearch(rs, key).at :: rs[j].srcStart < key
    ensures BinarySearch(rs, key).NotFound? && SortedBySrc(rs) ==>
      forall j | BinarySearch(rs, key).at <= j < |rs| :: rs[j].srcStart > key
  {
    CountBelowMeaning(rs, key);
  }

  /** The range `Map::map` tries: the hit, or else the one before the
      insertion point (the first when there is none before it). */
  function Pick(rs: seq<Range>, src: nat): (p: nat)
    requires |rs| > 0
    ensures p < |rs|
  {
    match BinarySearch(rs, src)
    case Found(i) => i
    case NotFound(e) => if e == 0 then 0 else e - 1
  }

  /** `Map::map`: the picked range's destination, or `src` unchanged when
      that range does not cover it. It panics on a map without ranges. */
  function MapValue(m: Map, src: nat): nat
    requires |m.ranges| > 0
  {
    match TryMap(m.ranges[Pick(m.ranges, src)], src)
    case None => src
    case Some(d) => d
  }

  /** Ranges that are not empty and do not overlap, in order. */
  predicate Disjoint(rs: seq<Range>) {
    && (forall k | 0 <= k < |rs| :: rs[k].len > 0)
    && (forall i, j | 0 <= i < j < |rs| :: rs[i].srcStart + rs[i].len <= rs[j].srcStart)
  }

  lemma DisjointSorted(rs: seq<Range>)
    requires Disjoint(rs)
    ensures SortedBySrc(rs)
  {
  }

  /** The range that covers `src` is the one picked. */
  lemma PickCovering(rs: seq<Range>, src: nat, k: nat)
    requires Disjoint(rs) && k < |rs| && Covers(rs[k], src)
    ensures Pick(rs, src) == k
  {
    var e := CountBelow(rs, src);
    CountBelowMeaning(rs, src);
    assert forall j | k < j < |rs| :: rs[j].srcStart > src;
    assert forall j | 0 <= j < k :: rs[j].srcStart < src;
    if rs[k].srcStart == src {
      assert e == k;
    } else {
      assert rs[k].srcStart < src;
      assert e > k;
      assert k + 1 < |rs| ==> rs[k + 1].srcStart > src;
      assert e == k + 1;
    }
  }

  /** Over ranges that are not empty and do not overlap, `Map::map` sends a
      covered number through the range that covers it and leaves any other
      number unchanged. */
  lemma MapMeaning(m: Map, src: nat)
    requires Disjoint(m.ranges) && |m.ranges| > 0
    ensures forall k | 0 <= k < |m.ranges| && Covers(m.ranges[k], src) ::
      MapValue(m, src) == TryMap(m.ranges[k], src).value
    ensures (forall k | 0 <= k < |m.ranges| :: !Covers(m.ranges[k], src)) ==> MapValue(m, src) == src
  {
    forall k | 0 <= k < |m.ranges| && Covers(m.ranges[k], src)
      ensures MapValue(m, src) == TryMap(m.ranges[k], src).value
    {
      PickCovering(m.ranges, src, k);
    }
  }

  /** A number that the `k`th range covers goes to that range's
      destination at the same offset. */
  lemma MapCovered(m: Map, src: nat, k: nat)
    requires Disjoint(m.ranges) && k < |m.ranges| && Covers(m.ranges[k], src)
    ensures MapValue(m, src) == m.ranges[k].dstStart + (src - m.ranges[k].srcStart)
  {
    PickCovering(m.ranges, src, k);
  }

  /** A number that no range covers stays. */
  lemma MapUncovered(m: Map, src: nat)
    requires |m.ranges| > 0 && forall k | 0 <= k < |m.ranges| :: !Covers(m.ranges[k], src)
    ensures MapValue(m, src) == src
  {
    assert !Covers(m.ranges[Pick(m.ranges, src)], src);
  }

  /** The first range that covers `src` sends it on; with none, `src`
      stays: the mapping as the almanac describes it. */
  function FirstCover(rs: seq<Range>, src: nat): nat {
    if rs == [] then src
    else
      match TryMap(rs[0], src)
      case Some(d) => d
      case None => FirstCover(rs[1..], src)
  }

  /** The search in `Map::map` agrees with a scan for the covering range. */
  lemma {:induction false} MapIsFirstCover(m: Map, src: nat)
    requires Disjoint(m.ranges) && |m.ranges| > 0
    ensures MapValue(m, src) == FirstCover(m.ranges, src)
  {
    MapMeaning(m, src);
    FirstCoverMeaning(m.ranges, src);
  }

  /** The scan's result: the first covering range's destination, or `src`. */
  lemma {:induction false} FirstCoverMeaning(rs: seq<Range>, src: nat)
    ensures (exists k | 0 <= k < |rs| :: Covers(rs[k], src)) ==>
      exists k | 0 <= k < |rs| :: Covers(rs[k], src) && FirstCover(rs, src) == TryMap(rs[k], src).value
    ensures (forall k | 0 <= k < |rs| :: !Covers(rs[k], src)) ==> FirstCover(rs, src) == src
  {
    if rs != [] {
      FirstCoverMeaning(rs[1..], src);
      assert forall k | 1 <= k < |rs| :: rs[k] == rs[1..][k - 1];
      if !Covers(rs[0], src) && exists k | 0 <= k < |rs| :: Covers(rs[k], src) {
        var k :| 0 <= k < |rs| && Covers(rs[k], src);
        assert Covers(rs[1..][k - 1], src);
        var k' :| 0 <= k' < |rs[1..]| && Covers(rs[1..][k'], src) && FirstCover(rs[1..], src) == TryMap(rs[1..][k'], src).value;
        assert Covers(rs[k' + 1], src);
      }
    }
  }

  // ---------------------------------------------------------------------
  // A seed's location

  /** A map with a range, which `Map::map` needs. */
  predicate Usable(m: Map) {
    |m.ranges| > 0
  }

  /** The maps chain from "seed": each takes what the one before it gives. */
  predicate Chained(maps: seq<Map>) {
    && (maps != [] ==> maps[0].from == "seed")
    && (forall i, j | 0 <= i < |maps| && j == i + 1 && j < |maps| :: maps[j].from == maps[i].to)
  }

  predicate AllUsable(maps: seq<Map>) {
    forall k | 0 <= k < |maps| :: Usable(maps[k])
  }

  /** A number sent through the maps in order: the first map first, then
      the rest. */
  function Through(maps: seq<Map>, v: nat): (r: nat)
    requires AllUsable(maps)
    ensures maps != [] ==> AllUsable(maps[1..]) && r == Through(maps[1..], MapValue(maps[0], v))
  {
    if maps == [] then v
    else
      var init := maps[..|maps| - 1];
      assert AllUsable(init) && AllUsable(maps[1..]) by {
        assert forall k | 0 <= k < |init| :: init[k] == maps[k];
        assert forall k | 0 <= k < |maps| - 1 :: maps[1..][k] == maps[k + 1];
      }
      if init != [] then
        assert init[1..] == maps[1..][..|maps| - 2];
        MapValue(maps[|maps| - 1], Through(init, v))
      else
        MapValue(maps[|maps| - 1], Through(init, v))
  }

  /** Sending a number through two lists of maps, one after the other, is
      sending it through both together. */
  lemma {:induction false} ThroughAppend(a: seq<Map>, b: seq<Map>, v: nat)
    requires AllUsable(a) && AllUsable(b)
    ensures AllUsable(a + b) && Through(a + b, v) == Through(b, Through(a, v))
    decreases |b|
  {
    if b == [] {
      assert a + b == a;
    } else {
      var b' := b[..|b| - 1];
      assert (a + b)[..|a + b| - 1] == a + b';
      ThroughAppend(a, b', v);
    }
  }

  /** The type name after `k` maps. */
  function TypeAfter(maps: seq<Map>, k: nat): string
    requires k <= |maps|
  {
    if k == 0 then "seed" else maps[k - 1].to
  }

  /** `Input::location`: the seed through every map, each of which must take
      the type the one before it gave. */
  method Location(maps: seq<Map>, seed: nat) returns (val: nat)
    requires Chained(maps) && AllUsable(maps)
    ensures val == Through(maps, seed)
  {
    var currentType := "seed";
    val := seed;
    for k := 0 to |maps|
      invariant val == Through(maps[..k], seed)
      invariant currentType == TypeAfter(maps, k)
    {
      var m := maps[k];
      assert m.from == currentType;
      assert maps[..k + 1][..k] == maps[..k];
      val := MapValue(m, val);
      currentType := m.to;
    }
    assert maps[..|maps|] == maps;
  }

  /** Sending a value through one more map. */
  lemma ThroughSnoc(maps: seq<Map>, m: Map, v: nat)
    requires AllUsable(maps) && Usable(m)
    ensures AllUsable(maps + [m]) && Through(maps + [m], v) == MapValue(m, Through(maps, v))
  {
    assert (maps + [m])[..|maps|] == maps;
  }

  /** A value that each map sends on to the next in `vs` ends at the last
      one. */
  lemma {:induction false} ThroughSteps(maps: seq<Map>, vs: seq<nat>)
    requires AllUsable(maps) && |vs| == |maps| + 1
    requires forall k | 0 <= k < |maps| :: MapValue(maps[k], vs[k]) == vs[k + 1]
    ensures Through(maps, vs[0]) == vs[|maps|]
  {
    if maps != [] {
      var n := |maps| - 1;
      var init := maps[..n];
      var ws := vs[..n + 1];
      assert forall k | 0 <= k < n :: init[k] == maps[k];
      assert forall k | 0 <= k <= n :: ws[k] == vs[k];
      ThroughSteps(init, ws);
    }
  }

  // ---------------------------------------------------------------------
  // The example

  /** The example almanac's maps, with their ranges sorted as
      `Map::from_str` leaves them. */
  function SeedToSoil(): Map { Map("seed", "soil", [Range(50, 52, 48), Range(98, 50, 2)]) }

  function SoilToFertilizer(): Map {
    Map("soil", "fertilizer", [Range(0, 39, 15), Range(15, 0, 37), Range(52, 37, 2)])
  }

  function FertilizerToWater(): Map {
    Map("fertilizer", "water", [Range(0, 42, 7), Range(7, 57, 4), Range(11, 0, 42), Range(53, 49, 8)])
  }

  function WaterToLight(): Map { Map("water", "light", [Range(18, 88, 7), Range(25, 18, 70)]) }

  function LightToTemperature(): Map {
    Map("light", "temperature", [Range(45, 81, 19), Range(64, 68, 13), Range(77, 45, 23)])
  }

  function TemperatureToHumidity(): Map { Map("temperature", "humidity", [Range(0, 1, 69), Range(69, 0, 1)]) }

  function HumidityToLocation(): Map { Map("humidity", "location", [Range(56, 60, 37), Range(93, 56, 4)]) }

  function ExampleMaps(): seq<Map> {
    [SeedToSoil(), SoilToFertilizer(), FertilizerToWater(), WaterToLight(),
     LightToTemperature(), TemperatureToHumidity(), HumidityToLocation()]
  }

  /** The example's maps chain from "seed". */
  lemma ExampleChained()
    ensures Chained(ExampleMaps())
  {
  }

  /** The first map's second range, and where it sends 79, 14, 55 and 13.
      Each map below is given the numbers that the seeds 79, 14, 55 and 13
      reach it with. */
  lemma SeedToSoilValues(m: Map)
    requires m == SeedToSoil()
    ensures m.ranges[1] == Range(98, 50, 2)
    ensures Disjoint(m.ranges)
    ensures MapValue(m, 79) == 81 && MapValue(m, 14) == 14 && MapValue(m, 55) == 57 && MapValue(m, 13) == 13
  {
    assert Disjoint(m.ranges);
    MapCovered(m, 79, 0);
    MapUncovered(m, 14);
    MapCovered(m, 55, 0);
    MapUncovered(m, 13);
  }

  lemma SoilToFertilizerValues(m: Map)
    requires m == SoilToFertilizer()
    ensures Disjoint(m.ranges)
    ensures MapValue(m, 81) == 81 && MapValue(m, 14) == 53 && MapValue(m, 57) == 57 && MapValue(m, 13) == 52
  {
    assert Disjoint(m.ranges);
    MapUncovered(m, 81);
    MapCovered(m, 14, 0);
    MapUncovered(m, 57);
    MapCovered(m, 13, 0);
  }

  lemma FertilizerToWaterValues(m: Map)
    requires m == FertilizerToWater()
    ensures Disjoint(m.ranges)
    ensures MapValue(m, 81) == 81 && MapValue(m, 53) == 49 && MapValue(m, 57) == 53 && MapValue(m, 52) == 41
  {
    assert Disjoint(m.ranges);
    MapUncovered(m, 81);
    MapCovered(m, 53, 3);
    MapCovered(m, 57, 3);
    MapCovered(m, 52, 2);
  }

  lemma WaterToLightValues(m: Map)
    requires m == WaterToLight()
    ensures Disjoint(m.ranges)
    ensures MapValue(m, 81) == 74 && MapValue(m, 49) == 42 && MapValue(m, 53) == 46 && MapValue(m, 41) == 34
  {
    assert Disjoint(m.ranges);
    MapCovered(m, 81, 1);
    MapCovered(m, 49, 1);
    MapCovered(m, 53, 1);
    MapCovered(m, 41, 1);
  }

  lemma LightToTemperatureValues(m: Map)
    requires m == LightToTemperature()
    ensures Disjoint(m.ranges)
    ensures MapValue(m, 74) == 78 && MapValue(m, 42) == 42 && MapValue(m, 46) == 82 && MapValue(m, 34) == 34
  {
    assert Disjoint(m.ranges);
    MapCovered(m, 74, 1);
    MapUncovered(m, 42);
    MapCovered(m, 46, 0);
    MapUncovered(m, 34);
  }

  lemma TemperatureToHumidityValues(m: Map)
    requires m == TemperatureToHumidity()
    ensures Disjoint(m.ranges)
    ensures MapValue(m, 78) == 78 && MapValue(m, 42) == 43 && MapValue(m, 82) == 82 && MapValue(m, 34) == 35
  {
    assert Disjoint(m.ranges);
    MapUncovered(m, 78);
    MapCovered(m, 42, 0);
    MapUncovered(m, 82);
    MapCovered(m, 34, 0);
  }

  lemma HumidityToLocationValues(m: Map)
    requires m == HumidityToLocation()
    ensures Disjoint(m.ranges)
    ensures MapValue(m, 78) == 82 && MapValue(m, 43) == 43 && MapValue(m, 82) == 86 && MapValue(m, 35) == 35
  {
    assert Disjoint(m.ranges);
    MapCovered(m, 78, 0);
    MapUncovered(m, 43);
    MapCovered(m, 82, 0);
    MapUncovered(m, 35);
  }

  /** Seven usable maps that send `v0` to `v1`, `v1` to `v2` and so on, one
      after the other, take `v0` to `v7`. */
  lemma SevenSteps(m0: Map, m1: Map, m2: Map, m3: Map, m4: Map, m5: Map, m6: Map,
                   v0: nat, v1: nat, v2: nat, v3: nat, v4: nat, v5: nat, v6: nat, v7: nat)
    requires Usable(m0) && Usable(m1) && Usable(m2) && Usable(m3) && Usable(m4) && Usable(m5) && Usable(m6)
    requires MapValue(m0, v0) == v1 && MapValue(m1, v1) == v2 && MapValue(m2, v2) == v3
    requires MapValue(m3, v3) == v4 && MapValue(m4, v4) == v5 && MapValue(m5, v5) == v6
    requires MapValue(m6, v6) == v7
    ensures Through([m0, m1, m2, m3, m4, m5, m6], v0) == v7
  {
    var ms := [m0, m1, m2, m3, m4, m5, m6];
    var vs := [v0, v1, v2, v3, v4, v5, v6, v7];
    assert forall k | 0 <= k < 7 :: MapValue(ms[k], vs[k]) == vs[k + 1];
    ThroughSteps(ms, vs);
  }

  /** Seed 79 reaches location 82. */
  lemma ExampleLocation79()
    ensures Through(ExampleMaps(), 79) == 82
  {
    var m0, m1, m2, m3, m4, m5, m6 := SeedToSoil(), SoilToFertilizer(), FertilizerToWater(),
      WaterToLight(), LightToTemperature(), TemperatureToHumidity(), HumidityToLocation();
    SeedToSoilValues(m0);
    SoilToFertilizerValues(m1);
    FertilizerToWaterValues(m2);
    WaterToLightValues(m3);
    LightToTemperatureValues(m4);
    TemperatureToHumidityValues(m5);
    HumidityToLocationValues(m6);
    SevenSteps(m0, m1, m2, m3, m4, m5, m6, 79, 81, 81, 81, 74, 78, 78, 82);
  }

  /** Seed 14 reaches location 43. */
  lemma ExampleLocation14()
    ensures Through(ExampleMaps(), 14) == 43
  {
    var m0, m1, m2, m3, m4, m5, m6 := SeedToSoil(), SoilToFertilizer(), FertilizerToWater(),
      WaterToLight(), LightToTemperature(), TemperatureToHumidity(), HumidityToLocation();
    SeedToSoilValues(m0);
    SoilToFertilizerValues(m1);
    FertilizerToWaterValues(m2);
    WaterToLightValues(m3);
    LightToTemperatureValues(m4);
    TemperatureToHumidityValues(m5);
    HumidityToLocationValues(m6);
    SevenSteps(m0, m1, m2, m3, m4, m5, m6, 14, 14, 53, 49, 42, 42, 43, 43);
  }

  /** Seed 55 reaches location 86. */
  lemma ExampleLocation55()
    ensures Through(ExampleMaps(), 55) == 86
  {
    var m0, m1, m2, m3, m4, m5, m6 := SeedToSoil(), SoilToFertilizer(), FertilizerToWater(),
      WaterToLight(), LightToTemperature(), TemperatureToHumidity(), HumidityToLocation();
    SeedToSoilValues(m0);
    SoilToFertilizerValues(m1);
    FertilizerToWaterValues(m2);
    WaterToLightValues(m3);
    LightToTemperatureValues(m4);
    TemperatureToHumidityValues(m5);
    HumidityToLocationValues(m6);
    SevenSteps(m0, m1, m2, m3, m4, m5, m6, 55, 57, 57, 53, 46, 82, 82, 86);
  }

  /** Seed 13 reaches location 35. */
  lemma ExampleLocation13()
    ensures Through(ExampleMaps(), 13) == 35
  {
    var m0, m1, m2, m3, m4, m5, m6 := SeedToSoil(), SoilToFertilizer(), FertilizerToWater(),
      WaterToLight(), LightToTemperature(), TemperatureToHumidity(), HumidityToLocation();
    SeedToSoilValues(m0);
    SoilToFertilizerValues(m1);
    FertilizerToWaterValues(m2);
    WaterToLightValues(m3);
    LightToTemperatureValues(m4);
    TemperatureToHumidityValues(m5);
    HumidityToLocationValues(m6);
    SevenSteps(m0, m1, m2, m3, m4, m5, m6, 13, 13, 52, 41, 34, 34, 35, 35);
  }

  /** The example's four seeds and their locations. */
  lemma ExampleLocations()
    ensures Through(ExampleMaps(), 79) == 82 && Through(ExampleMaps(), 14) == 43
    ensures Through(ExampleMaps(), 55) == 86 && Through(ExampleMaps(), 13) == 35
  {
    ExampleLocation79();
    ExampleLocation14();
    ExampleLocation55();
    ExampleLocation13();
  }

  // ---------------------------------------------------------------------
  // Seed ranges

  /** `Input::seed_ranges`: each pair of seeds a start and a length, made
      into the half-open range `start..start + len`. */
  function SeedRanges(seeds: seq<nat>): (rs: seq<(nat, nat)>)
    requires |seeds| % 2 == 0
    ensures |rs| == |seeds| / 2
    ensures forall i | 0 <= i < |rs| :: rs[i] == (seeds[2 * i], seeds[2 * i] + seeds[2 * i + 1])
  {
    if seeds == [] then []
    else
      var rest := SeedRanges(seeds[2..]);
      var rs := [(seeds[0], seeds[0] + seeds[1])] + rest;
      assert forall i | 1 <= i < |rs| :: rs[i] == rest[i - 1] && seeds[2 * i] == seeds[2..][2 * (i - 1)];
      rs
  }

  /** A seed lies in one of the ranges exactly when some pair starts at or
      below it and reaches past it. */
  lemma SeedRangesCover(seeds: seq<nat>, v: nat)
    requires |seeds| % 2 == 0
    ensures (exists i | 0 <= i < |SeedRanges(seeds)| :: SeedRanges(seeds)[i].0 <= v < SeedRanges(seeds)[i].1)
        <==> exists i | 0 <= i && 2 * i + 1 < |seeds| :: seeds[2 * i] <= v < seeds[2 * i] + seeds[2 * i + 1]
  {
    var rs := SeedRanges(seeds);
    assert |seeds| == 2 * |rs|;
    if exists i | 0 <= i && 2 * i + 1 < |seeds| :: seeds[2 * i] <= v < seeds[2 * i] + seeds[2 * i + 1] {
      var i :| 0 <= i && 2 * i + 1 < |seeds| && seeds[2 * i] <= v < seeds[2 * i] + seeds[2 * i + 1];
      assert rs[i] == (seeds[2 * i], seeds[2 * i] + seeds[2 * i + 1]);
      assert rs[i].0 <= v < rs[i].1;
    }
    if exists i | 0 <= i < |rs| :: rs[i].0 <= v < rs[i].1 {
      var i :| 0 <= i < |rs| && rs[i].0 <= v < rs[i].1;
      var j := i;
      assert 2 * j + 1 < |seeds|;
      assert rs[j] == (seeds[2 * j], seeds[2 * j] + seeds[2 * j + 1]);
      assert seeds[2 * j] <= v < seeds[2 * j] + seeds[2 * j + 1];
    }
  }

  // ---------------------------------------------------------------------
  // The answers

  /** `.min()` over the locations of some seeds: the least of them. */
  function MinLocation(maps: seq<Map>, seeds: seq<nat>): (r: nat)
    requires seeds != [] && AllUsable(maps)
    ensures exists i | 0 <= i < |seeds| :: r == Through(maps, seeds[i])
    ensures forall i | 0 <= i < |seeds| :: r <= Through(maps, seeds[i])
  {
    var here := Through(maps, seeds[0]);
    if |seeds| == 1 then here
    else
      var rest := MinLocation(maps, seeds[1..]);
      assert forall i | 1 <= i < |seeds| :: seeds[1..][i - 1] == seeds[i];
      if here <= rest then here else rest
  }

  /** Part 1: the least location of any seed. With no seeds `unwrap`
      panics, and a map out of order fails the assertion in `location`. */
  function Part1(maps: seq<Map>, seeds: seq<nat>): (r: nat)
    requires seeds != [] && Chained(maps) && AllUsable(maps)
    ensures exists i | 0 <= i < |seeds| :: r == Through(maps, seeds[i])
    ensures forall i | 0 <= i < |seeds| :: r <= Through(maps, seeds[i])
  {
    MinLocation(maps, seeds)
  }

  /** Part 1 is the location of any seed whose location no other seed's
      undercuts. */
  lemma Part1Least(maps: seq<Map>, seeds: seq<nat>, k: nat)
    requires seeds != [] && Chained(maps) && AllUsable(maps) && k < |seeds|
    requires forall i | 0 <= i < |seeds| :: Through(maps, seeds[k]) <= Through(maps, seeds[i])
    ensures Part1(maps, seeds) == Through(maps, seeds[k])
  {
    var r := Part1(maps, seeds);
    var i :| 0 <= i < |seeds| && r == Through(maps, seeds[i]);
    assert r <= Through(maps, seeds[k]);
  }

  /** Part 1 of four seeds whose last has the least location. */
  lemma Part1OfFour(maps: seq<Map>, a: nat, b: nat, c: nat, d: nat)
    requires Chained(maps) && AllUsable(maps)
    requires Through(maps, d) <= Through(maps, a) && Through(maps, d) <= Through(maps, b)
    requires Through(maps, d) <= Through(maps, c)
    ensures Part1(maps, [a, b, c, d]) == Through(maps, d)
  {
    var seeds := [a, b, c, d];
    assert forall i | 0 <= i < |seeds| :: Through(maps, seeds[3]) <= Through(maps, seeds[i]) by {
      forall i | 0 <= i < |seeds| ensures Through(maps, seeds[3]) <= Through(maps, seeds[i]) {
        assert i == 0 || i == 1 || i == 2 || i == 3;
      }
    }
    Part1Least(maps, seeds, 3);
  }

  /** Every map of the test almanac has a range. */
  lemma ExampleUsable()
    ensures AllUsable(ExampleMaps())
  {
    var ms := ExampleMaps();
    assert forall k | 0 <= k < |ms| :: Usable(ms[k]) by {
      forall k | 0 <= k < |ms| ensures Usable(ms[k]) {
        assert k == 0 || k == 1 || k == 2 || k == 3 || k == 4 || k == 5 || k == 6;
      }
    }
  }

  /** On the test almanac's seeds 79, 14, 55 and 13 part 1 is 35, the least
      of their locations. */
  lemma ExamplePart1()
    ensures Chained(ExampleMaps()) && AllUsable(ExampleMaps())
    ensures Part1(ExampleMaps(), [79, 14, 55, 13]) == 35
  {
    ExampleChained();
    ExampleUsable();
    ExampleLocations();
    Part1OfFour(ExampleMaps(), 79, 14, 55, 13);
  }

  /** The numbers `lo..hi`, in order. */
  function Span(lo: nat, hi: nat): (s: seq<nat>)
    ensures |s| == if lo <= hi then hi - lo else 0
    ensures forall k | 0 <= k < |s| :: s[k] == lo + k
  {
    if lo < hi then seq(hi - lo, k requires 0 <= k < hi - lo => lo + k) else []
  }

  /** `.flatten()` over ranges: every number of each range, range by range. */
  function Flatten(rs: seq<(nat, nat)>): (vs: seq<nat>)
    ensures forall v :: v in vs <==> exists i | 0 <= i < |rs| :: rs[i].0 <= v < rs[i].1
  {
    if rs == [] then []
    else
      var rest := Flatten(rs[1..]);
      var span := Span(rs[0].0, rs[0].1);
      assert forall i | 1 <= i < |rs| :: rs[1..][i - 1] == rs[i];
      assert forall v :: v in span <==> rs[0].0 <= v < rs[0].1 by {
        forall v | rs[0].0 <= v < rs[0].1 ensures v in span {
          assert span[v - rs[0].0] == v;
        }
      }
      span + rest
  }

  /** Part 2: the least location of any seed in the seed ranges. An odd
      number of seeds fails the assertion in `seed_ranges`, and ranges
      that are all empty make `unwrap` panic. */
  function Part2(maps: seq<Map>, seeds: seq<nat>): (r: nat)
    requires |seeds| % 2 == 0 && Chained(maps) && AllUsable(maps)
    requires exists i | 0 <= i && 2 * i + 1 < |seeds| :: seeds[2 * i + 1] > 0
    ensures exists v | v in Flatten(SeedRanges(seeds)) :: r == Through(maps, v)
    ensures forall v | InSeedRanges(seeds, v) :: r <= Through(maps, v)
  {
    var vs := Flatten(SeedRanges(seeds));
    var i :| 0 <= i && 2 * i + 1 < |seeds| && seeds[2 * i + 1] > 0;
    SeedRangesCover(seeds, seeds[2 * i]);
    assert seeds[2 * i] in vs;
    forall v | InSeedRanges(seeds, v) ensures v in vs {
      SeedRangesCover(seeds, v);
    }
    MinLocation(maps, vs)
  }

  /** Some pair of seeds starts at or below `v` and reaches past it. */
  predicate InSeedRanges(seeds: seq<nat>, v: nat) {
    exists i | 0 <= i < |seeds| && 2 * i + 1 < |seeds| :: seeds[2 * i] <= v < seeds[2 * i] + seeds[2 * i + 1]
  }
}
