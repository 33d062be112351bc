/** Tuning trouble (src/bin/day06.rs): the position just after the first run of
    `n` pairwise different bytes in the datastream. */
module SrcDay06 {
  import opened Wrappers

  /** No two positions of `b` hold the same byte. */
  predicate Distinct(b: seq<char>) {
    forall i, j | 0 <= i < j < |b| :: b[i] != b[j]
  }

  /** `is_uniq`: every byte differs from every byte after it. */
  function IsUniq(b: seq<char>): (r: bool)
    ensures r <==> Distinct(b)
  {
    if b == [] then true
    else
      var r := b[0] !in b[1..] && IsUniq(b[1..]);
      assert forall i, j | 0 < i < j < |b| :: b[i] == b[1..][i - 1] && b[j] == b[1..][j - 1];
      r
  }

  /** The window of `g` of length `n` that ends just before `p`. */
  function Window(g: seq<char>, n: nat, p: nat): seq<char>
    requires n <= p <= |g|
  {
    g[p - n..p]
  }

  /** The first window starting at `i` or later that is unique, searched in order. */
  function FirstUniqFrom(g: seq<char>, n: nat, i: nat): (r: Option<nat>)
    requires n > 0
    ensures r.Some? ==> i + n <= r.value <= |g| && Distinct(Window(g, n, r.value))
                        && forall p | i + n <= p < r.value :: !Distinct(Window(g, n, p))
    ensures r.None? <==> forall p | i + n <= p <= |g| :: !Distinct(Window(g, n, p))
    decreases |g| - i
  {
    if i + n > |g| then None
    else if IsUniq(g[i..i + n]) then Some(i + n)
    else FirstUniqFrom(g, n, i + 1)
  }

  /** `pos_after_n_uniq`: the end position of the first unique window of length
      `n` (`windows` panics for `n == 0`), or an error when no window is unique. */
  function PosAfterNUniq(g: seq<char>, n: nat): (r: Result<nat>)
    requires n > 0
    ensures r.Ok? ==> n <= r.value <= |g| && Distinct(Window(g, n, r.value))
                      && forall p | n <= p < r.value :: !Distinct(Window(g, n, p))
    ensures r.Err? <==> forall p | n <= p <= |g| :: !Distinct(Window(g, n, p))
    ensures r.Err? ==> r.error == "No unique sequence found"
  {
    Context(FirstUniqFrom(g, n, 0), "No unique sequence found")
  }

  /** `part1`: the end of the first window of four different bytes. */
  function Part1(g: seq<char>): (r: Result<nat>)
    ensures r.Ok? ==> 4 <= r.value <= |g| && Distinct(Window(g, 4, r.value))
                      && forall p | 4 <= p < r.value :: !Distinct(Window(g, 4, p))
    ensures r.Err? <==> forall p | 4 <= p <= |g| :: !Distinct(Window(g, 4, p))
  {
    PosAfterNUniq(g, 4)
  }

  /** `part2`: the end of the first window of fourteen different bytes. */
  function Part2(g: seq<char>): (r: Result<nat>)
    ensures r.Ok? ==> 14 <= r.value <= |g| && Distinct(Window(g, 14, r.value))
                      && forall p | 14 <= p < r.value :: !Distinct(Window(g, 14, p))
    ensures r.Err? <==> forall p | 14 <= p <= |g| :: !Distinct(Window(g, 14, p))
  {
    PosAfterNUniq(g, 14)
  }

  /** The last four bytes of a window of fourteen different bytes differ too,
      so a start-of-message marker ends no earlier than the first
      start-of-packet marker. */
  lemma Part1NoLaterThanPart2(g: seq<char>)
    requires Part2(g).Ok?
    ensures Part1(g).Ok? && Part1(g).value <= Part2(g).value
  {
    var p := Part2(g).value;
    var w := Window(g, 14, p);
    assert Window(g, 4, p) == w[10..];
    assert Distinct(Window(g, 4, p)) by {
      forall i, j | 0 <= i < j < 4 ensures w[10..][i] != w[10..][j] {
        assert w[10..][i] == w[10 + i] && w[10..][j] == w[10 + j];
      }
    }
  }

  /** A stream shorter than the window has no unique window. */
  lemma ShortStream(g: seq<char>, n: nat)
    requires 0 < n && |g| < n
    ensures PosAfterNUniq(g, n).Err?
  {
  }

  /** The first example of part 1 in the source's tests. */
  lemma ExamplePart1()
    ensures Part1("bvwbjplbgvbhsrlpgdmjqwftvncz") == Ok(5)
  {
    var g := "bvwbjplbgvbhsrlpgdmjqwftvncz";
    assert g[0] == 'b' && g[1] == 'v' && g[2] == 'w' && g[3] == 'b' && g[4] == 'j';
    assert g[0..4] == "bvwb";
    assert g[1..5] == "vwbj";
    assert !Distinct("bvwb");
    assert Distinct("vwbj");
  }
}
