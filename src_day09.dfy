/** Rope bridge (src/bin/day09.rs): the head of a rope moves one cell at a
    time and every following knot is pulled along so that it keeps touching
    the knot in front of it; the answer is the number of cells the last knot
    has been in. */
module SrcDay09 {
  import opened Wrappers
  import opened Text

  datatype Dir = Up | Down | Left | Right

  /** A cell as (row, column); `isize` in the source, unbounded here. */
  type Pos = (int, int)

  /** A motion of the input: a direction and a number of single steps. */
  type Motion = (Dir, nat)

  /** `Dir::apply`: one step; up and down change the row, left and right the
      column. */
  function Apply(d: Dir, pos: Pos): (r: Pos)
    ensures d == Up ==> r == (pos.0 - 1, pos.1)
    ensures d == Down ==> r == (pos.0 + 1, pos.1)
    ensures d == Left ==> r == (pos.0, pos.1 - 1)
    ensures d == Right ==> r == (pos.0, pos.1 + 1)
  {
    match d
    case Up => (pos.0 - 1, pos.1)
    case Down => (pos.0 + 1, pos.1)
    case Left => (pos.0, pos.1 - 1)
    case Right => (pos.0, pos.1 + 1)
  }

  /** The letter a direction is written as. */
  function DirName(d: Dir): string {
    match d
    case Up => "U"
    case Down => "D"
    case Left => "L"
    case Right => "R"
  }

  /** The error for an unknown direction; the source prints it with `Debug`,
      which is modelled as plain quoting. */
  function IllegalDir(s: string): string { "Illegal move dir " + Quoted(s) }

  /** `Dir::from_str`: exactly the four letters. */
  function DirFromStr(s: string): (r: Result<Dir>)
    ensures r.Ok? <==> s == "U" || s == "D" || s == "L" || s == "R"
    ensures r.Ok? ==> DirName(r.value) == s
    ensures r.Err? ==> r.error == IllegalDir(s)
  {
    if s == "U" then Ok(Up)
    else if s == "D" then Ok(Down)
    else if s == "L" then Ok(Left)
    else if s == "R" then Ok(Right)
    else Err(IllegalDir(s))
  }

  /** Every direction is read back from its letter. */
  lemma DirRoundTrip(d: Dir)
    ensures DirFromStr(DirName(d)) == Ok(d)
  {
  }

  /** One line of `parse_input`: a direction, the first whitespace character,
      then the number of steps, a `usize`. */
  function ParseLine(l: string): (r: Result<Motion>)
    ensures IndexOfAny(l, SpaceChars).None? ==> r == Err("Invalid line")
    ensures r.Ok? <==> match IndexOfAny(l, SpaceChars)
                       case None => false
                       case Some(i) => DirFromStr(l[..i]).Ok? && ParseNatUpTo(l[i + 1..], USizeMax).Ok?
    ensures r.Ok? ==> var i := IndexOfAny(l, SpaceChars).value;
                      r.value == (DirFromStr(l[..i]).value, ParseNatUpTo(l[i + 1..], USizeMax).value)
  {
    match IndexOfAny(l, SpaceChars)
    case None => Err("Invalid line")
    case Some(i) =>
      match DirFromStr(l[..i])
      case Err(e) => Err(e)
      case Ok(d) =>
        match ParseNatUpTo(l[i + 1..], USizeMax)
        case Err(e) => Err(e)
        case Ok(n) => Ok((d, n))
  }

  /** A motion written as its letter, a space and its decimal step count is
      read back when the count fits a `usize`. */
  lemma ParseLineRoundTrip(d: Dir, n: nat)
    requires n <= USizeMax
    ensures ParseLine(DirName(d) + " " + NatToString(n)) == Ok((d, n))
  {
    var l := DirName(d) + " " + NatToString(n);
    assert l[0] !in SpaceChars && l[1] == ' ';
    assert IndexOfAny(l, SpaceChars) == Some(1);
    assert l[..1] == DirName(d) && l[2..] == NatToString(n);
    ParseNatToString(n);
  }

  /** `parse_input`: one motion per line, stopping at the first error; every
      step count read fits a `usize`. */
  function ParseInput(input: string): (r: Result<seq<Motion>>)
    ensures r.Ok? <==> forall i | 0 <= i < |Lines(input)| :: ParseLine(Lines(input)[i]).Ok?
    ensures r.Ok? ==> |r.value| == |Lines(input)|
                      && forall i | 0 <= i < |r.value| :: Ok(r.value[i]) == ParseLine(Lines(input)[i])
    ensures r.Ok? ==> forall i | 0 <= i < |r.value| :: r.value[i].1 <= USizeMax
  {
    var ls := Lines(input);
    var r := CollectMap(ls, ParseLine);
    assert r.Ok? ==> forall i | 0 <= i < |ls| :: ParseLine(ls[i]).Ok?;
    assert (forall i | 0 <= i < |ls| :: ParseLine(ls[i]).Ok?) ==> r.Ok?;
    r
  }

  // ---------------------------------------------------------------------
  // One knot following another

  /** Two knots touch when they differ by at most one in each coordinate;
      a knot that moves by at most one in each coordinate touches its old
      cell. */
  predicate Touching(a: Pos, b: Pos) {
    -1 <= a.0 - b.0 <= 1 && -1 <= a.1 - b.1 <= 1
  }

  /** The differences `update_tail` can handle: at most two in each coordinate. */
  predicate Near(a: Pos, b: Pos) {
    -2 <= a.0 - b.0 <= 2 && -2 <= a.1 - b.1 <= 2
  }

  /** `State::update_tail` as a function of head and tail: the tail stays when
      it touches the head, takes one straight step across a straight gap of
      two, and otherwise one diagonal step toward the head. The source's
      `unreachable!` for larger gaps is the precondition. */
  function Follow(head: Pos, tail: Pos): Pos
    requires Near(head, tail)
  {
    var dx, dy := head.0 - tail.0, head.1 - tail.1;
    if -1 <= dx <= 1 && -1 <= dy <= 1 then tail
    else if dx == 0 && dy == 2 then (tail.0, tail.1 + 1)
    else if dx == 2 && dy == 0 then (tail.0 + 1, tail.1)
    else if dx == 0 && dy == -2 then (tail.0, tail.1 - 1)
    else if dx == -2 && dy == 0 then (tail.0 - 1, tail.1)
    else if (dx == 1 && dy == 2) || (dx == 2 && dy == 1) || (dx == 2 && dy == 2) then (tail.0 + 1, tail.1 + 1)
    else if (dx == -1 && dy == 2) || (dx == -2 && dy == 1) || (dx == -2 && dy == 2) then (tail.0 - 1, tail.1 + 1)
    else if (dx == 1 && dy == -2) || (dx == 2 && dy == -1) || (dx == 2 && dy == -2) then (tail.0 + 1, tail.1 - 1)
    else (tail.0 - 1, tail.1 - 1)
  }

  function Sign(x: int): int {
    if x > 0 then 1 else if x < 0 then -1 else 0
  }

  /** The case table is one rule: a tail that does not touch the head moves
      one step toward it in each coordinate where they differ. */
  lemma FollowMeaning(head: Pos, tail: Pos)
    requires Near(head, tail)
    ensures Follow(head, tail) == if Touching(head, tail) then tail
                                 else (tail.0 + Sign(head.0 - tail.0), tail.1 + Sign(head.1 - tail.1))
  {
  }

  /** After following, the tail touches the head and has moved to a cell
      touching its old one. */
  lemma FollowTouches(head: Pos, tail: Pos)
    requires Near(head, tail)
    ensures Touching(head, Follow(head, tail)) && Touching(tail, Follow(head, tail))
  {
  }

  /** Differences beyond two never arise: when a knot touching the tail moves
      to a cell touching its old one, the gap is still at most two. */
  lemma StaysNear(head: Pos, tail: Pos, head': Pos)
    requires Touching(head, tail) && Touching(head, head')
    ensures Near(head', tail)
  {
  }

  /** Every single step of the head is to a touching cell. */
  lemma ApplyTouches(d: Dir, pos: Pos)
    ensures Touching(pos, Apply(d, pos))
  {
  }

  // ---------------------------------------------------------------------
  // A rope of knots

  /** Consecutive knots touch. */
  predicate Rope(knots: seq<Pos>) {
    forall i, j | 0 <= i < |knots| && j == i + 1 && j < |knots| :: Touching(knots[i], knots[j])
  }

  /** `t` follows the knot `a` to `r`. */
  predicate Follows(a: Pos, t: Pos, r: Pos) {
    Near(a, t) && r == Follow(a, t)
  }

  /** Where a knot at `t` goes when the knot in front of it is now at `prev`.
      A gap `update_tail` cannot handle, where the source panics, leaves the
      knot in place; such a gap never arises on a rope (`FollowChainRope`). */
  function Pulled(prev: Pos, t: Pos): Pos {
    if Near(prev, t) then Follow(prev, t) else t
  }

  /** The knots `tails`, each following the new cell of the knot in front of
      it, the first following `prev`. */
  function FollowChain(prev: Pos, tails: seq<Pos>): (r: seq<Pos>)
    ensures |r| == |tails|
    decreases |tails|
  {
    if tails == [] then []
    else
      var t := Pulled(prev, tails[0]);
      [t] + FollowChain(t, tails[1..])
  }

  /** Behind a knot that moved from `prevOld` to the touching cell `prevNew`,
      the chain stays a rope, and every knot moves to a cell touching its old
      one. */
  lemma {:induction false} FollowChainRope(prevOld: Pos, prevNew: Pos, tails: seq<Pos>)
    requires Rope([prevOld] + tails) && Touching(prevOld, prevNew)
    ensures var r := FollowChain(prevNew, tails);
      && Rope([prevNew] + r)
      && forall i | 0 <= i < |tails| :: Touching(tails[i], r[i])
    decreases |tails|
  {
    if tails != [] {
      assert ([prevOld] + tails)[0] == prevOld && ([prevOld] + tails)[1] == tails[0];
      StaysNear(prevOld, tails[0], prevNew);
      var t := Follow(prevNew, tails[0]);
      FollowTouches(prevNew, tails[0]);
      RopeTail(prevOld, tails);
      var rest := FollowChain(t, tails[1..]);
      FollowChainRope(tails[0], t, tails[1..]);
      ChainCons(prevNew, tails, t, rest);
    }
  }

  /** Putting the first follower in front of the followers of the rest. */
  lemma ChainCons(prevNew: Pos, tails: seq<Pos>, t: Pos, rest: seq<Pos>)
    requires tails != [] && |rest| == |tails| - 1
    requires Touching(prevNew, t) && Touching(tails[0], t) && Rope([t] + rest)
    requires forall i | 0 <= i < |rest| :: Touching(tails[1..][i], rest[i])
    ensures var r := [t] + rest;
      && Rope([prevNew] + r)
      && (forall i | 0 <= i < |tails| :: Touching(tails[i], r[i]))
  {
    var r := [t] + rest;
    assert forall i | 1 <= i < |tails| :: tails[1..][i - 1] == tails[i] && r[i] == rest[i - 1];
    RopeCons(prevNew, t, rest);
  }

  /** In the chain, no gap is beyond what `update_tail` handles: the first
      knot follows `prevNew` and every later knot follows the new cell of the
      knot in front of it. */
  lemma {:induction false} FollowChainFollows(prevOld: Pos, prevNew: Pos, tails: seq<Pos>)
    requires Rope([prevOld] + tails) && Touching(prevOld, prevNew)
    ensures var r := FollowChain(prevNew, tails);
      && (tails != [] ==> Follows(prevNew, tails[0], r[0]))
      && forall i | 1 <= i < |tails| :: Follows(r[i - 1], tails[i], r[i])
    decreases |tails|
  {
    if tails != [] {
      assert ([prevOld] + tails)[0] == prevOld && ([prevOld] + tails)[1] == tails[0];
      StaysNear(prevOld, tails[0], prevNew);
      var t := Follow(prevNew, tails[0]);
      FollowTouches(prevNew, tails[0]);
      RopeTail(prevOld, tails);
      var rest := FollowChain(t, tails[1..]);
      FollowChainFollows(tails[0], t, tails[1..]);
      var r := FollowChain(prevNew, tails);
      assert r == [t] + rest;
      forall i | 1 <= i < |tails| ensures Follows(r[i - 1], tails[i], r[i]) {
        assert tails[1..][i - 1] == tails[i] && r[i] == rest[i - 1];
        if i >= 2 {
          assert r[i - 1] == rest[i - 2];
        }
      }
    }
  }

  lemma RopeTail(p: Pos, tails: seq<Pos>)
    requires Rope([p] + tails) && tails != []
    ensures Rope([tails[0]] + tails[1..])
  {
    assert [tails[0]] + tails[1..] == tails;
    var k := [p] + tails;
    assert forall i | 0 <= i < |tails| :: k[i + 1] == tails[i];
  }

  lemma RopeCons(p: Pos, t: Pos, rest: seq<Pos>)
    requires Touching(p, t) && Rope([t] + rest)
    ensures Rope([p] + ([t] + rest))
  {
    var k := [p] + ([t] + rest);
    var j := [t] + rest;
    assert forall i | 1 <= i < |k| :: k[i] == j[i - 1];
  }

  /** One step of the whole rope: the head moves, and the other knots follow
      in order. */
  function MoveRope(knots: seq<Pos>, d: Dir): (r: seq<Pos>)
    requires |knots| >= 1
    ensures |r| == |knots| && r[0] == Apply(d, knots[0])
  {
    [Apply(d, knots[0])] + FollowChain(Apply(d, knots[0]), knots[1..])
  }

  /** A rope stays a rope after one step. */
  lemma MoveRopeRope(knots: seq<Pos>, d: Dir)
    requires |knots| >= 1 && Rope(knots)
    ensures Rope(MoveRope(knots, d))
  {
    ApplyTouches(d, knots[0]);
    assert [knots[0]] + knots[1..] == knots;
    FollowChainRope(knots[0], Apply(d, knots[0]), knots[1..]);
  }

  /** In one step of a rope, every knot after the head follows the new cell
      of the knot in front of it, and no gap is beyond what `update_tail`
      handles. */
  lemma MoveRopeFollows(knots: seq<Pos>, d: Dir)
    requires |knots| >= 1 && Rope(knots)
    ensures var r := MoveRope(knots, d);
      forall i | 1 <= i < |knots| :: Follows(r[i - 1], knots[i], r[i])
  {
    ApplyTouches(d, knots[0]);
    assert [knots[0]] + knots[1..] == knots;
    var h := Apply(d, knots[0]);
    var rest := FollowChain(h, knots[1..]);
    FollowChainFollows(knots[0], h, knots[1..]);
    var r := MoveRope(knots, d);
    assert r == [h] + rest;
    assert forall i | 1 <= i < |knots| :: r[i] == rest[i - 1] && knots[1..][i - 1] == knots[i];
  }

  /** Knot `i` follows knot `i - 1` in one step of the rope. */
  lemma MoveRopeAt(knots: seq<Pos>, d: Dir, i: nat)
    requires |knots| >= 1 && Rope(knots) && 1 <= i < |knots|
    ensures Follows(MoveRope(knots, d)[i - 1], knots[i], MoveRope(knots, d)[i])
  {
    MoveRopeFollows(knots, d);
  }

  /** The rope after each of `dirs` in turn. */
  function RopeAfter(knots: seq<Pos>, dirs: seq<Dir>): (r: seq<Pos>)
    requires |knots| >= 1
    ensures |r| == |knots|
    decreases |dirs|
  {
    if dirs == [] then knots else RopeAfter(MoveRope(knots, dirs[0]), dirs[1..])
  }

  /** All consecutive knots touch after every step. */
  lemma {:induction false} RopeAfterRope(knots: seq<Pos>, dirs: seq<Dir>)
    requires |knots| >= 1 && Rope(knots)
    ensures Rope(RopeAfter(knots, dirs))
    decreases |dirs|
  {
    if dirs != [] {
      MoveRopeRope(knots, dirs[0]);
      RopeAfterRope(MoveRope(knots, dirs[0]), dirs[1..]);
    }
  }

  /** The cells the last knot is in after each of `dirs`. */
  function Trail(knots: seq<Pos>, dirs: seq<Dir>): set<Pos>
    requires |knots| >= 1
    decreases |dirs|
  {
    if dirs == [] then {}
    else
      var k := MoveRope(knots, dirs[0]);
      {k[|k| - 1]} + Trail(k, dirs[1..])
  }

  /** The trail is exactly the last knot's cell after each non-empty prefix
      of the steps; the starting cell counts only when it is returned to. */
  lemma {:induction false} TrailMeaning(knots: seq<Pos>, dirs: seq<Dir>, p: Pos)
    requires |knots| >= 1
    ensures p in Trail(knots, dirs) <==>
              exists n | 1 <= n <= |dirs| :: p == RopeAfter(knots, dirs[..n])[|knots| - 1]
    decreases |dirs|
  {
    if dirs != [] {
      var k := MoveRope(knots, dirs[0]);
      TrailMeaning(k, dirs[1..], p);
      forall n | 1 <= n <= |dirs|
        ensures RopeAfter(knots, dirs[..n]) == RopeAfter(k, dirs[1..][..n - 1])
      {
        assert dirs[..n][0] == dirs[0] && dirs[..n][1..] == dirs[1..][..n - 1];
      }
      assert RopeAfter(knots, dirs[..1]) == k by {
        assert dirs[..1][1..] == [];
      }
      if p in Trail(k, dirs[1..]) {
        var m :| 1 <= m <= |dirs[1..]| && p == RopeAfter(k, dirs[1..][..m])[|k| - 1];
        assert p == RopeAfter(knots, dirs[..m + 1])[|knots| - 1];
      }
    }
  }

  /** The rope of `n` knots all at the origin. */
  function Start(n: nat): (r: seq<Pos>)
    requires n >= 1
    ensures |r| == n && Rope(r)
  {
    seq(n, _ => (0, 0))
  }

  /** `d`, `n` times. */
  function Repeat(d: Dir, n: nat): (r: seq<Dir>)
    ensures |r| == n
  {
    if n == 0 then [] else [d] + Repeat(d, n - 1)
  }

  lemma RepeatCons(d: Dir, n: nat, rest: seq<Dir>)
    ensures Repeat(d, n + 1) + rest == [d] + (Repeat(d, n) + rest)
  {
  }

  /** The single steps of the motions, in order. */
  function Expand(g: seq<Motion>): seq<Dir>
    decreases |g|
  {
    if g == [] then [] else Repeat(g[0].0, g[0].1) + Expand(g[1..])
  }

  lemma ExpandSplit(g: seq<Motion>, i: nat)
    requires i < |g|
    ensures Expand(g[i..]) == Repeat(g[i].0, g[i].1) + Expand(g[i + 1..])
  {
    assert g[i..][0] == g[i] && g[i..][1..] == g[i + 1..];
  }

  /** One more step of the trail. */
  lemma TrailCons(knots: seq<Pos>, d: Dir, dirs: seq<Dir>)
    requires |knots| >= 1
    ensures var k := MoveRope(knots, d);
      Trail(knots, [d] + dirs) == {k[|k| - 1]} + Trail(k, dirs)
  {
    assert ([d] + dirs)[0] == d && ([d] + dirs)[1..] == dirs;
  }

  /** The rope after `n` steps in direction `d`. */
  function After(knots: seq<Pos>, d: Dir, n: nat): (r: seq<Pos>)
    requires |knots| >= 1
    ensures |r| == |knots|
  {
    if n == 0 then knots else MoveRope(After(knots, d, n - 1), d)
  }

  lemma {:induction false} AfterRope(knots: seq<Pos>, d: Dir, n: nat)
    requires |knots| >= 1 && Rope(knots)
    ensures Rope(After(knots, d, n))
  {
    if n > 0 {
      AfterRope(knots, d, n - 1);
      MoveRopeRope(After(knots, d, n - 1), d);
    }
  }

  /** The cells the last knot is in after each of `n` steps in direction `d`. */
  function TrailRep(knots: seq<Pos>, d: Dir, n: nat): set<Pos>
    requires |knots| >= 1
  {
    if n == 0 then {} else TrailRep(knots, d, n - 1) + {After(knots, d, n)[|knots| - 1]}
  }

  lemma {:induction false} AfterFront(knots: seq<Pos>, d: Dir, n: nat)
    requires |knots| >= 1
    ensures After(knots, d, n + 1) == After(MoveRope(knots, d), d, n)
  {
    if n > 0 {
      AfterFront(knots, d, n - 1);
    }
  }

  lemma {:induction false} TrailRepFront(knots: seq<Pos>, d: Dir, n: nat)
    requires |knots| >= 1
    ensures var k := MoveRope(knots, d);
      TrailRep(knots, d, n + 1) == {k[|k| - 1]} + TrailRep(k, d, n)
  {
    if n == 0 {
      assert After(knots, d, 1) == MoveRope(knots, d);
    } else {
      TrailRepFront(knots, d, n - 1);
      AfterFront(knots, d, n);
    }
  }

  /** `n` steps in direction `d` followed by `rest`: the trail of the `n`
      steps, then the trail of `rest` from where they end. */
  lemma {:induction false} TrailRepeat(knots: seq<Pos>, d: Dir, n: nat, rest: seq<Dir>)
    requires |knots| >= 1
    ensures Trail(knots, Repeat(d, n) + rest) == TrailRep(knots, d, n) + Trail(After(knots, d, n), rest)
    decreases n
  {
    if n == 0 {
      assert Repeat(d, 0) + rest == rest;
    } else {
      var k := MoveRope(knots, d);
      TrailRepeatCons(knots, d, n, rest);
      TrailRepeat(k, d, n - 1, rest);
      TrailRepFront(knots, d, n - 1);
      AfterFront(knots, d, n - 1);
      SplitUnion(Trail(knots, Repeat(d, n) + rest), k[|k| - 1], Trail(k, Repeat(d, n - 1) + rest),
                 TrailRep(k, d, n - 1), Trail(After(k, d, n - 1), rest), TrailRep(knots, d, n));
    }
  }

  lemma TrailRepeatCons(knots: seq<Pos>, d: Dir, n: nat, rest: seq<Dir>)
    requires |knots| >= 1 && n >= 1
    ensures var k := MoveRope(knots, d);
      Trail(knots, Repeat(d, n) + rest) == {k[|k| - 1]} + Trail(k, Repeat(d, n - 1) + rest)
  {
    RepeatCons(d, n - 1, rest);
    TrailCons(knots, d, Repeat(d, n - 1) + rest);
  }

  lemma SplitUnion(a: set<Pos>, x: Pos, b: set<Pos>, c: set<Pos>, e: set<Pos>, f: set<Pos>)
    requires a == {x} + b && b == c + e && f == {x} + c
    ensures a == f + e
  {
  }

  /** The trail of the motions `g[i..]` is that of motion `i`, then that of
      the rest from where it ends. */
  lemma TrailMotion(knots: seq<Pos>, g: seq<Motion>, i: nat)
    requires |knots| >= 1 && i < |g|
    ensures Trail(knots, Expand(g[i..]))
            == TrailRep(knots, g[i].0, g[i].1) + Trail(After(knots, g[i].0, g[i].1), Expand(g[i + 1..]))
  {
    ExpandSplit(g, i);
    TrailRepeat(knots, g[i].0, g[i].1, Expand(g[i + 1..]));
  }

  // ---------------------------------------------------------------------
  // The two knots of part 1

  /** `State`: one knot and the knot that follows it. */
  class State {
    var head: Pos
    var tail: Pos

    /** `State::default`. */
    constructor ()
      ensures head == (0, 0) && tail == (0, 0)
    {
      head, tail := (0, 0), (0, 0);
    }

    /** `State::update_tail`. */
    method UpdateTail()
      requires Near(head, tail)
      modifies this
      ensures head == old(head) && tail == Follow(old(head), old(tail))
    {
      tail := Follow(head, tail);
    }

    /** `State::move_head`: one step of the head, which the tail follows. */
    method MoveHead(d: Dir)
      requires Near(Apply(d, head), tail)
      modifies this
      ensures head == Apply(d, old(head)) && tail == Follow(head, old(tail))
    {
      head := Apply(d, head);
      UpdateTail();
    }
  }

  /** One step of a two-knot rope is what `move_head` does. */
  lemma TwoKnotStep(h: Pos, t: Pos, d: Dir)
    requires Touching(h, t)
    ensures Near(Apply(d, h), t)
    ensures var h' := Apply(d, h); var t' := Follow(h', t);
      && Touching(h', t')
      && MoveRope([h, t], d) == [h', t']
  {
    ApplyTouches(d, h);
    StaysNear(h, t, Apply(d, h));
    FollowTouches(Apply(d, h), t);
    assert [h, t][1..] == [t];
  }

  /** After `c` of the steps of the inner loop of `part1`: the state holds
      the two-knot rope `c` steps on from `k0`, and `v` is `visited` with the
      tail's cells added. */
  ghost predicate Stepped(state: State, k0: seq<Pos>, d: Dir, c: nat, visited: set<Pos>, v: set<Pos>)
    reads state
  {
    && |k0| == 2 && Touching(state.head, state.tail)
    && [state.head, state.tail] == After(k0, d, c) && v == visited + TrailRep(k0, d, c)
  }

  /** Step `c + 1` of the inner loop of `part1`: `move_head`, then the tail's
      cell is added to `v`. */
  method StepOnce(state: State, d: Dir, visited: set<Pos>, v: set<Pos>, ghost k0: seq<Pos>, ghost c: nat)
    returns (v': set<Pos>)
    requires Stepped(state, k0, d, c, visited, v)
    modifies state
    ensures Stepped(state, k0, d, c + 1, visited, v')
  {
    TwoKnotStep(state.head, state.tail, d);
    state.MoveHead(d);
    v' := v + {state.tail};
  }

  /** The inner loop of `part1`: `cnt` steps in direction `d`, each adding
      the tail's cell to `visited`. */
  method StepTimes(state: State, d: Dir, cnt: nat, visited: set<Pos>) returns (v: set<Pos>)
    requires Touching(state.head, state.tail)
    modifies state
    ensures Touching(state.head, state.tail)
    ensures [state.head, state.tail] == After([old(state.head), old(state.tail)], d, cnt)
    ensures v == visited + TrailRep([old(state.head), old(state.tail)], d, cnt)
  {
    v := visited;
    ghost var k0 := [state.head, state.tail];
    for c := 0 to cnt
      invariant Stepped(state, k0, d, c, visited, v)
    {
      v := StepOnce(state, d, visited, v, k0, c);
    }
  }

  /** `part1`: the number of cells the tail of a two-knot rope is in after
      the steps of all motions. */
  method Part1(g: seq<Motion>) returns (r: nat)
    ensures r == |Trail(Start(2), Expand(g))|
  {
    var state := new State();
    var visited: set<Pos> := {};
    assert [state.head, state.tail] == Start(2);
    for i := 0 to |g|
      invariant Touching(state.head, state.tail)
      invariant visited + Trail([state.head, state.tail], Expand(g[i..])) == Trail(Start(2), Expand(g))
    {
      var (d, cnt) := g[i];
      TrailMotion([state.head, state.tail], g, i);
      visited := StepTimes(state, d, cnt, visited);
    }
    assert g[|g|..] == [];
    r := |visited|;
  }

  // ---------------------------------------------------------------------
  // The ten knots of part 2

  /** The states are distinct objects. */
  predicate Distinct(states: seq<State>) {
    forall a, b | 0 <= a < b < |states| :: states[a] != states[b]
  }

  /** The states of `part2` hold the rope `knots`: the first state's head is
      the first knot, state `i`'s tail is knot `i + 1`, and each state's head
      is the tail of the state before it. */
  ghost predicate Chain(states: seq<State>, knots: seq<Pos>)
    reads states
  {
    && |states| >= 1 && |knots| == |states| + 1 && Distinct(states)
    && knots[0] == states[0].head
    && (forall i {:trigger states[i]} | 0 <= i < |states| :: states[i].tail == knots[i + 1])
    && forall i {:trigger states[i]} | 1 <= i < |states| :: states[i].head == knots[i]
  }

  /** `states[i].head = states[i - 1].tail; states[i].update_tail()`. */
  method Pull(s: State, p: Pos, ghost t: Pos)
    requires Follows(p, s.tail, t)
    modifies s
    ensures s.head == p && s.tail == t
  {
    s.head := p;
    s.UpdateTail();
  }

  /** `states[0].move_head(d)`, with the tail's new cell given. */
  method Lead(s: State, d: Dir, ghost t: Pos)
    requires Follows(Apply(d, s.head), s.tail, t)
    modifies s
    ensures s.head == Apply(d, old(s.head)) && s.tail == t
  {
    s.MoveHead(d);
  }

  /** Inside one step of `part2`, after the states before `i` are done: the
      first `i` states hold the knots of the moved rope `r`, and the others
      still hold the old `knots`. */
  ghost predicate PulledUpTo(states: seq<State>, knots: seq<Pos>, r: seq<Pos>, i: nat)
    reads states
  {
    && 1 <= i <= |states| && |knots| == |states| + 1 && |r| == |knots| && Distinct(states)
    && states[0].head == r[0]
    && (forall j {:trigger states[j]} | 0 <= j < i :: states[j].tail == r[j + 1])
    && (forall j {:trigger states[j]} | 1 <= j < i :: states[j].head == r[j])
    && forall j {:trigger states[j]} | i <= j < |states| :: states[j].tail == knots[j + 1] && states[j].head == knots[j]
  }

  /** One turn of the loop over the states: state `i` takes the tail of
      state `i - 1` as its head and its tail follows. */
  method PullStep(states: seq<State>, d: Dir, ghost knots: seq<Pos>, ghost r: seq<Pos>, i: nat)
    requires |knots| >= 1 && Rope(knots) && r == MoveRope(knots, d)
    requires PulledUpTo(states, knots, r, i) && i < |states|
    modifies states[i]
    ensures PulledUpTo(states, knots, r, i + 1)
  {
    MoveRopeAt(knots, d, i + 1);
    Pull(states[i], states[i - 1].tail, r[i + 1]);
  }

  /** The body of the inner loop of `part2`: the first state's head moves,
      then each state's head is set to the tail of the state before it and
      its tail follows. The knots become the rope after one step. */
  method StepRope(states: seq<State>, d: Dir, ghost knots: seq<Pos>)
    requires Chain(states, knots) && Rope(knots)
    modifies states
    ensures Chain(states, MoveRope(knots, d))
  {
    ghost var r := MoveRope(knots, d);
    MoveRopeAt(knots, d, 1);
    Lead(states[0], d, r[1]);
    for i := 1 to |states|
      invariant PulledUpTo(states, knots, r, i)
    {
      PullStep(states, d, knots, r, i);
    }
  }

  /** After `c` of the steps of the inner loop of `part2`: the states hold
      the rope `c` steps on from `knots`, and `v` is `visited` with the last
      knot's cells added. */
  ghost predicate RopeStepped(states: seq<State>, knots: seq<Pos>, d: Dir, c: nat, visited: set<Pos>, v: set<Pos>)
    reads states
  {
    |knots| >= 1 && Rope(knots) && Chain(states, After(knots, d, c)) && v == visited + TrailRep(knots, d, c)
  }

  /** Step `c + 1` of the inner loop of `part2`: the rope moves and the last
      tail's cell is added to `v`. */
  method StepRopeOnce(states: seq<State>, d: Dir, visited: set<Pos>, v: set<Pos>, ghost knots: seq<Pos>, ghost c: nat)
    returns (v': set<Pos>)
    requires RopeStepped(states, knots, d, c, visited, v)
    modifies states
    ensures RopeStepped(states, knots, d, c + 1, visited, v')
  {
    AfterRope(knots, d, c);
    StepRope(states, d, After(knots, d, c));
    v' := v + {states[|states| - 1].tail};
  }

  /** The inner loop of `part2`: `cnt` steps in direction `d`, each adding
      the last tail's cell to `visited`. */
  method StepRopeTimes(states: seq<State>, d: Dir, cnt: nat, visited: set<Pos>, ghost knots: seq<Pos>)
    returns (v: set<Pos>)
    requires Chain(states, knots) && Rope(knots)
    modifies states
    ensures Chain(states, After(knots, d, cnt))
    ensures v == visited + TrailRep(knots, d, cnt)
  {
    v := visited;
    for c := 0 to cnt
      invariant RopeStepped(states, knots, d, c, visited, v)
    {
      v := StepRopeOnce(states, d, visited, v, knots, c);
    }
  }

  /** `[State::default(); 9]`: `n` distinct states at the origin. */
  method NewStates(n: nat) returns (states: seq<State>)
    requires n >= 1
    ensures |states| == n && Chain(states, Start(n + 1))
    ensures forall i | 0 <= i < n :: fresh(states[i])
  {
    states := [];
    for i := 0 to n
      invariant |states| == i && Distinct(states)
      invariant forall j | 0 <= j < i :: fresh(states[j]) && states[j].head == (0, 0) && states[j].tail == (0, 0)
    {
      var s := new State();
      states := states + [s];
    }
  }

  /** `part2`: the number of cells the last knot of a ten-knot rope is in
      after the steps of all motions. */
  method Part2(g: seq<Motion>) returns (r: nat)
    ensures r == |Trail(Start(10), Expand(g))|
  {
    var states := NewStates(9);
    var visited: set<Pos> := {};
    ghost var knots := Start(10);
    for i := 0 to |g|
      invariant Chain(states, knots) && Rope(knots)
      invariant visited + Trail(knots, Expand(g[i..])) == Trail(Start(10), Expand(g))
    {
      var (d, cnt) := g[i];
      TrailMotion(knots, g, i);
      visited := StepRopeTimes(states, d, cnt, visited, knots);
      AfterRope(knots, d, cnt);
      knots := After(knots, d, cnt);
    }
    assert g[|g|..] == [];
    r := |visited|;
  }
}
