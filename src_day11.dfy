/** Monkey in the middle (src/bin/day11.rs): monkeys take turns inspecting
    the items they hold, each inspection changing the item's worry level by
    the monkey's operation, and throw each item to one of two monkeys
    depending on a divisibility test; the answer is the product of the two
    largest inspection counts. */
module SrcDay11 {
  import opened Wrappers
  import opened Text
  import opened Seqs
  import opened Arith

  // ---------------------------------------------------------------------
  // Operations

  /** An item's worry level; `u64` in the source, unbounded here. */
  type Item = nat

  datatype Operation = Mul(x: Item) | Add(x: Item) | Square

  /** `Operation::apply`. */
  function Apply(op: Operation, worry: Item): Item {
    match op
    case Mul(x) => worry * x
    case Add(x) => worry + x
    case Square => worry * worry
  }

  /** The error for an operation of any other shape; the source prints it
      with `Debug`, which is modelled as plain quoting. */
  function InvalidOperation(s: string): string { "Invalid operation: " + Quoted(s) }

  /** `Operation::from_str` on the whitespace-separated words: `new = old *
      old`, or `new = old * n`, or `new = old + n` with `n` a `u64`. */
  function OperationOfWords(ws: seq<string>, s: string): (r: Result<Operation>)
    ensures r == Ok(Square) <==> ws == ["new", "=", "old", "*", "old"]
    ensures r.Ok? && r.value.Mul? <==>
              |ws| == 5 && ws[..4] == ["new", "=", "old", "*"] && ws[4] != "old" && ParseNatUpTo(ws[4], U64Max).Ok?
    ensures r.Ok? && r.value.Add? <==>
              |ws| == 5 && ws[..4] == ["new", "=", "old", "+"] && ParseNatUpTo(ws[4], U64Max).Ok?
    ensures r.Ok? && !r.value.Square? ==> r.value.x == ParseNat(ws[4]).value <= U64Max
    ensures r.Err? && |ws| == 5 && (ws[..4] == ["new", "=", "old", "*"] || ws[..4] == ["new", "=", "old", "+"])
            ==> r.error == UnsignedError(ws[4])
    ensures r.Err? && !(|ws| == 5 && (ws[..4] == ["new", "=", "old", "*"] || ws[..4] == ["new", "=", "old", "+"]))
            ==> r.error == InvalidOperation(s)
  {
    if ws == ["new", "=", "old", "*", "old"] then Ok(Square)
    else if |ws| == 5 && ws[..4] == ["new", "=", "old", "*"] then
      match ParseNatUpTo(ws[4], U64Max)
      case Err(e) => Err(e)
      case Ok(n) => Ok(Mul(n))
    else if |ws| == 5 && ws[..4] == ["new", "=", "old", "+"] then
      match ParseNatUpTo(ws[4], U64Max)
      case Err(e) => Err(e)
      case Ok(n) => Ok(Add(n))
    else Err(InvalidOperation(s))
  }

  /** `Operation::from_str`: what it reads has an operand that fits a `u64`,
      and a line it refuses gets one of three errors. */
  function OperationFromStr(s: string): (r: Result<Operation>)
    ensures r.Ok? ==> InRange(r.value)
    ensures r.Err? ==> r.error in {InvalidOperation(s), InvalidDigit(), TooLarge()}
  {
    OperationOfWords(SplitWhitespace(s), s)
  }

  /** The words of an operation as the input writes it. */
  function OperationWords(op: Operation): seq<string> {
    match op
    case Square => ["new", "=", "old", "*", "old"]
    case Mul(x) => ["new", "=", "old", "*", NatToString(x)]
    case Add(x) => ["new", "=", "old", "+", NatToString(x)]
  }

  /** The operand of an operation fits a `u64`. */
  predicate InRange(op: Operation) {
    !op.Square? ==> op.x <= U64Max
  }

  /** An operation whose operand fits, written out with single spaces, is
      read back. */
  lemma OperationRoundTrip(op: Operation)
    requires InRange(op)
    ensures OperationFromStr(Join(OperationWords(op), ' ')) == Ok(op)
  {
    var ws := OperationWords(op);
    if !op.Square? {
      NatToStringWord(op.x);
    }
    assert forall i | 0 <= i < |ws| :: IsWord(ws[i]);
    SplitWhitespaceJoin(ws);
    OperationWordsParse(op, Join(ws, ' '));
  }

  lemma OperationWordsParse(op: Operation, s: string)
    requires InRange(op)
    ensures OperationOfWords(OperationWords(op), s) == Ok(op)
  {
    var ws := OperationWords(op);
    if !op.Square? {
      ParseNatToString(op.x);
      assert ws[4] != "old" by {
        assert IsDigit(NatToString(op.x)[0]);
      }
      assert ws[..4] == if op.Mul? then ["new", "=", "old", "*"] else ["new", "=", "old", "+"];
    }
  }

  lemma NatToStringWord(n: nat)
    ensures IsWord(NatToString(n))
  {
    var t := NatToString(n);
    forall k | 0 <= k < |t| ensures !IsSpace(t[k]) {
      assert IsDigit(t[k]);
    }
  }

  /** Reducing an operand modulo `m` leaves the result's class modulo `m`
      unchanged, for every operation. */
  lemma ApplyMod(op: Operation, x: Item, m: nat)
    requires m > 0
    ensures Apply(op, x % m) % m == Apply(op, x) % m
  {
    var q, r := x / m, x % m;
    assert x == q * m + r;
    match op
    case Mul(c) =>
      assert x * c == (q * c) * m + r * c;
      ModMultiple(r * c, q * c, m);
    case Add(c) =>
      assert x + c == q * m + (r + c);
      ModMultiple(r + c, q, m);
    case Square =>
      SquareSplit(q, r, m);
      ModMultiple(r * r, q * q * m + 2 * q * r, m);
  }

  lemma SquareSplit(q: int, r: int, m: int)
    ensures (q * m + r) * (q * m + r) == (q * q * m + 2 * q * r) * m + r * r
  {
    calc {
      (q * m + r) * (q * m + r);
      (q * m) * (q * m) + 2 * (q * m) * r + r * r;
      (q * q * m) * m + (2 * q * r) * m + r * r;
    }
  }

  // ---------------------------------------------------------------------
  // Parsing a monkey

  /** `Monkey`: the items it holds, its operation, its test divisor, the
      monkeys it throws to when the test holds and when it fails, and how
      many items it has inspected. */
  datatype Monkey = Monkey(items: seq<Item>, op: Operation, dividesBy: Item,
                           onTrue: nat, onFalse: nat, inspectCount: nat)

  /** One item of the starting list, with the spaces around it trimmed, read
      as a `u64`. */
  function ItemFromStr(p: string): (r: Result<Item>)
    ensures r.Ok? <==> ParseNatUpTo(Trim(p), U64Max).Ok?
    ensures r.Ok? ==> r.value == ParseNat(Trim(p)).value <= U64Max
    ensures r.Err? ==> r.error == UnsignedError(Trim(p))
  {
    ParseNatUpTo(Trim(p), U64Max)
  }

  const ItemsPrefix := "  Starting items: "

  /** The second line: the prefix, then comma-separated items (a trailing
      comma ends the list). */
  function ItemsLine(l: string): (r: Result<seq<Item>>)
    ensures !(ItemsPrefix <= l) ==> r == Err("unexpected start of starting_items")
    ensures ItemsPrefix <= l ==> r == CollectMap(SplitTerminator(l[|ItemsPrefix|..], ','), ItemFromStr)
  {
    match StripPrefix(l, ItemsPrefix)
    case None => Err("unexpected start of starting_items")
    case Some(rest) => CollectMap(SplitTerminator(rest, ','), ItemFromStr)
  }

  /** The third line: the prefix, then an operation. */
  function OperationLine(l: string): (r: Result<Operation>)
    ensures !("  Operation: " <= l) ==> r == Err("monkey missing op")
    ensures "  Operation: " <= l ==> r == OperationFromStr(Trim(l[|"  Operation: "|..]))
  {
    match StripPrefix(l, "  Operation: ")
    case None => Err("monkey missing op")
    case Some(rest) => OperationFromStr(Trim(rest))
  }

  /** A line holding one number up to `hi` after a fixed prefix; `missing` is
      the error when the prefix is not there. */
  function NumberLine(l: string, prefix: string, hi: nat, missing: string): (r: Result<nat>)
    ensures !(prefix <= l) ==> r == Err(missing)
    ensures prefix <= l ==> (r.Ok? <==> ParseNatUpTo(Trim(l[|prefix|..]), hi).Ok?)
    ensures r.Ok? ==> r.value == ParseNat(Trim(l[|prefix|..])).value <= hi
    ensures prefix <= l && r.Err? ==> r.error == UnsignedError(Trim(l[|prefix|..]))
  {
    match StripPrefix(l, prefix)
    case None => Err(missing)
    case Some(rest) => ParseNatUpTo(Trim(rest), hi)
  }

  const TestPrefix := "  Test: divisible by "
  const TruePrefix := "    If true: throw to monkey "
  const FalsePrefix := "    If false: throw to monkey "

  function MonkeyToShort(s: string): string { "Monkey to short: " + Quoted(s) }

  /** Lines 2 to 6 of a monkey are there and each reads. */
  predicate BodyParses(ls: seq<string>) {
    && |ls| >= 6 && ItemsLine(ls[1]).Ok? && OperationLine(ls[2]).Ok?
    && NumberLine(ls[3], TestPrefix, U64Max, "monkey missing test").Ok?
    && NumberLine(ls[4], TruePrefix, USizeMax, "monkey missing on true").Ok?
    && NumberLine(ls[5], FalsePrefix, USizeMax, "monkey missing on false").Ok?
  }

  /** `Monkey::from_str` over the lines `ls` of the text `s`, with `intro`
      deciding whether the first line introduces a monkey: six lines in
      order, each read by its own rule, and nothing after them; the
      inspection count starts at 0. */
  function MonkeyOfLines(ls: seq<string>, s: string, intro: string -> bool): (r: Result<Monkey>)
    ensures ls == [] ==> r == Err("can not parse empty string to monkey")
    ensures ls != [] && !intro(ls[0]) ==> r == Err("invalid monkey introduction: " + Quoted(ls[0]))
    ensures r.Ok? <==> |ls| == 6 && intro(ls[0]) && BodyParses(ls)
    ensures r.Ok? ==> r.value == Monkey(ItemsLine(ls[1]).value, OperationLine(ls[2]).value,
                                        NumberLine(ls[3], TestPrefix, U64Max, "monkey missing test").value,
                                        NumberLine(ls[4], TruePrefix, USizeMax, "monkey missing on true").value,
                                        NumberLine(ls[5], FalsePrefix, USizeMax, "monkey missing on false").value, 0)
    ensures |ls| > 6 && intro(ls[0]) && BodyParses(ls) ==>
              r == Err("Monkey contains extra data: " + Quoted(ls[6]))
  {
    if ls == [] then Err("can not parse empty string to monkey")
    else if !intro(ls[0]) then Err("invalid monkey introduction: " + Quoted(ls[0]))
    else if |ls| < 2 then Err("monkey to short")
    else match ItemsLine(ls[1])
      case Err(e) => Err(e)
      case Ok(items) =>
        if |ls| < 3 then Err("monkey to short")
        else match OperationLine(ls[2])
          case Err(e) => Err(e)
          case Ok(op) =>
            if |ls| < 4 then Err(MonkeyToShort(s))
            else match NumberLine(ls[3], TestPrefix, U64Max, "monkey missing test")
              case Err(e) => Err(e)
              case Ok(d) =>
                if |ls| < 5 then Err(MonkeyToShort(s))
                else match NumberLine(ls[4], TruePrefix, USizeMax, "monkey missing on true")
                  case Err(e) => Err(e)
                  case Ok(t) =>
                    if |ls| < 6 then Err(MonkeyToShort(s))
                    else match NumberLine(ls[5], FalsePrefix, USizeMax, "monkey missing on false")
                      case Err(e) => Err(e)
                      case Ok(f) =>
                        if |ls| > 6 then Err("Monkey contains extra data: " + Quoted(ls[6]))
                        else Ok(Monkey(items, op, d, t, f, 0))
  }

  /** The introduction check as the source writes it: the line starts with
      `Monkey ` OR ends with ':'. */
  predicate IntroAsWritten(l: string) {
    StartsWith(l, "Monkey ") || EndsWith(l, ":")
  }

  /** The introduction check as evidently intended: the line starts with
      `Monkey ` AND ends with ':'. */
  predicate Intro(l: string) {
    StartsWith(l, "Monkey ") && EndsWith(l, ":")
  }

  /** What a freshly read monkey satisfies: every number fits the Rust type
      it is read as, and nothing has been inspected yet. */
  predicate Fits(m: Monkey) {
    && (forall i | 0 <= i < |m.items| :: m.items[i] <= U64Max)
    && InRange(m.op) && m.dividesBy <= U64Max
    && m.onTrue <= USizeMax && m.onFalse <= USizeMax && m.inspectCount == 0
  }

  lemma ItemsFit(l: string, items: seq<Item>)
    requires ItemsLine(l) == Ok(items)
    ensures forall i | 0 <= i < |items| :: items[i] <= U64Max
  {
    var parts := SplitTerminator(l[|ItemsPrefix|..], ',');
    forall i | 0 <= i < |items| ensures items[i] <= U64Max {
      assert ItemFromStr(parts[i]) == Ok(items[i]);
    }
  }

  lemma MonkeyFits(ls: seq<string>, s: string, intro: string -> bool)
    requires MonkeyOfLines(ls, s, intro).Ok?
    ensures Fits(MonkeyOfLines(ls, s, intro).value)
  {
    ItemsFit(ls[1], ItemsLine(ls[1]).value);
  }

  /** `Monkey::from_str` as the source writes it. */
  function MonkeyFromStrAsWritten(s: string): (r: Result<Monkey>)
    ensures r.Ok? <==> |Lines(s)| == 6 && IntroAsWritten(Lines(s)[0]) && BodyParses(Lines(s))
    ensures r.Ok? ==> Fits(r.value)
  {
    var r := MonkeyOfLines(Lines(s), s, IntroAsWritten);
    if r.Ok? then MonkeyFits(Lines(s), s, IntroAsWritten); r else r
  }

  /** `Monkey::from_str` with the intended introduction check; the rest of
      the model uses this one. */
  function MonkeyFromStr(s: string): (r: Result<Monkey>)
    ensures r.Ok? <==> |Lines(s)| == 6 && Intro(Lines(s)[0]) && BodyParses(Lines(s))
    ensures r.Ok? ==> Fits(r.value)
  {
    var r := MonkeyOfLines(Lines(s), s, Intro);
    if r.Ok? then MonkeyFits(Lines(s), s, Intro); r else r
  }

  /** The check as written lets through first lines that do not introduce a
      monkey: `Monkey 0` lacks the colon, `Elephant:` the word. */
  lemma IntroAsWrittenTooLoose()
    ensures IntroAsWritten("Monkey 0") && !Intro("Monkey 0")
    ensures IntroAsWritten("Elephant:") && !Intro("Elephant:")
  {
    assert "Monkey " <= "Monkey 0";
    assert !("Monkey " <= "Elephant:") by { assert "Elephant:"[0] != 'M'; }
  }

  /** The intended check accepts every `Monkey <n>:` line, and only lines
      that both start with `Monkey ` and end with a colon. */
  lemma IntroMeaning(n: nat, l: string)
    ensures Intro("Monkey " + NatToString(n) + ":")
    ensures Intro(l) ==> |l| >= 8 && l[..7] == "Monkey " && l[|l| - 1] == ':'
  {
    var t := "Monkey " + NatToString(n) + ":";
    assert t[..7] == "Monkey ";
    assert t[|t| - 1..] == ":";
    if Intro(l) {
      assert l[..7] == "Monkey " && l[6] == ' ';
      assert l[|l| - 1..] == ":" && l[|l| - 1] == ':';
    }
  }

  /** A monkey whose first line the check as written accepts but the
      intended one rejects is read by the parser as written and refused by
      the intended one. */
  lemma IntroChecksDiffer(ls: seq<string>, s: string)
    requires |ls| == 6 && IntroAsWritten(ls[0]) && !Intro(ls[0]) && BodyParses(ls)
    ensures MonkeyOfLines(ls, s, IntroAsWritten).Ok?
    ensures MonkeyOfLines(ls, s, Intro) == Err("invalid monkey introduction: " + Quoted(ls[0]))
  {
  }

  /** One blank-line-separated block of the input, trimmed and read as a
      monkey. */
  function MonkeyBlock(b: string): (r: Result<Monkey>)
    ensures r.Ok? ==> Fits(r.value)
  {
    MonkeyFromStr(Trim(b))
  }

  /** `parse_input`: monkeys separated by blank lines, each trimmed, stopping
      at the first error; every monkey read fits its types. */
  function ParseInput(input: string): (r: Result<seq<Monkey>>)
    ensures r.Ok? <==> forall i | 0 <= i < |SplitStr(input, "\n\n")| :: MonkeyBlock(SplitStr(input, "\n\n")[i]).Ok?
    ensures r.Ok? ==> |r.value| == |SplitStr(input, "\n\n")|
                      && forall i | 0 <= i < |r.value| :: Ok(r.value[i]) == MonkeyBlock(SplitStr(input, "\n\n")[i])
    ensures r.Ok? ==> forall i | 0 <= i < |r.value| :: Fits(r.value[i])
  {
    var bs := SplitStr(input, "\n\n");
    var r := CollectMap(bs, MonkeyBlock);
    assert r.Ok? ==> forall i | 0 <= i < |bs| :: MonkeyBlock(bs[i]).Ok?;
    assert (forall i | 0 <= i < |bs| :: MonkeyBlock(bs[i]).Ok?) ==> r.Ok?;
    r
  }

  // ---------------------------------------------------------------------
  // Rounds as values

  /** `find_mod`: the product of all test divisors. */
  function FindMod(ms: seq<Monkey>): (r: nat)
    ensures (forall k | 0 <= k < |ms| :: ms[k].dividesBy > 0) ==> r > 0
    decreases |ms|
  {
    if ms == [] then 1 else ms[0].dividesBy * FindMod(ms[1..])
  }

  /** Every test divisor divides the modulus. */
  lemma {:induction false} FindModDivides(ms: seq<Monkey>, k: nat)
    requires k < |ms| && ms[k].dividesBy > 0
    ensures FindMod(ms) % ms[k].dividesBy == 0
    decreases |ms|
  {
    var d := ms[k].dividesBy;
    if k > 0 {
      FindModDivides(ms[1..], k - 1);
      var q := FindMod(ms[1..]) / d;
      ModUnique(FindMod(ms[1..]), d, q, 0);
      assert FindMod(ms) == (ms[0].dividesBy * q) * d;
      MultipleModZero(ms[0].dividesBy * q, d);
    } else {
      MultipleModZero(FindMod(ms[1..]), d);
    }
  }

  /** What `round` needs to run without panicking: positive divisors (the
      `%`), and throw targets that are existing monkeys other than the
      thrower (the index and the `RefCell` borrow). */
  predicate WellFormed(ms: seq<Monkey>) {
    forall k | 0 <= k < |ms| ::
      && ms[k].dividesBy > 0
      && ms[k].onTrue < |ms| && ms[k].onFalse < |ms|
      && ms[k].onTrue != k && ms[k].onFalse != k
  }

  /** Two monkey lists that differ only in items and inspection counts. */
  predicate SameRules(a: seq<Monkey>, b: seq<Monkey>) {
    |a| == |b| &&
    forall k | 0 <= k < |a| ::
      a[k].op == b[k].op && a[k].dividesBy == b[k].dividesBy
      && a[k].onTrue == b[k].onTrue && a[k].onFalse == b[k].onFalse
  }

  /** The worry level of an inspected item: the operation, then the relief
      division by 3 when `relief`, then the reduction modulo `modulo`. */
  function Worry(m: Monkey, item: Item, relief: bool, modulo: nat): (w: Item)
    requires modulo > 0
    ensures w < modulo
  {
    var v := Apply(m.op, item);
    (if relief then v / 3 else v) % modulo
  }

  /** The monkey an item of worry level `w` is thrown to. */
  function Target(m: Monkey, w: Item): (r: nat)
    requires m.dividesBy > 0
    ensures r == m.onTrue || r == m.onFalse
    ensures m.onTrue != m.onFalse ==> (r == m.onTrue <==> w % m.dividesBy == 0)
  {
    if w % m.dividesBy == 0 then m.onTrue else m.onFalse
  }

  /** Monkey `i` inspects one item and throws it. */
  function Inspect(ms: seq<Monkey>, i: nat, item: Item, relief: bool, modulo: nat): (r: seq<Monkey>)
    requires WellFormed(ms) && i < |ms| && modulo > 0
    ensures SameRules(ms, r) && WellFormed(r)
  {
    var w := Worry(ms[i], item, relief, modulo);
    var t := Target(ms[i], w);
    var counted := ms[i := ms[i].(inspectCount := ms[i].inspectCount + 1)];
    counted[t := counted[t].(items := counted[t].items + [w])]
  }

  /** Inspection bumps the thrower's count and appends the reduced item to
      the list of exactly one other monkey: the one its test picks. */
  lemma InspectMeaning(ms: seq<Monkey>, i: nat, item: Item, relief: bool, modulo: nat, k: nat)
    requires WellFormed(ms) && i < |ms| && modulo > 0 && k < |ms|
    ensures var r, w := Inspect(ms, i, item, relief, modulo), Worry(ms[i], item, relief, modulo);
      && r[k].inspectCount == ms[k].inspectCount + (if k == i then 1 else 0)
      && r[k].items == ms[k].items
                       + (if k == (if w % ms[i].dividesBy == 0 then ms[i].onTrue else ms[i].onFalse)
                          then [w] else [])
  {
  }

  /** Monkey `i` inspects and throws `items` in order. */
  function Throws(ms: seq<Monkey>, i: nat, items: seq<Item>, relief: bool, modulo: nat): (r: seq<Monkey>)
    requires WellFormed(ms) && i < |ms| && modulo > 0
    ensures SameRules(ms, r) && WellFormed(r)
    decreases |items|
  {
    if items == [] then ms
    else Inspect(Throws(ms, i, items[..|items| - 1], relief, modulo), i, items[|items| - 1], relief, modulo)
  }

  /** Monkey `i`'s turn: it takes its whole list and throws every item. */
  function Turn(ms: seq<Monkey>, i: nat, relief: bool, modulo: nat): (r: seq<Monkey>)
    requires WellFormed(ms) && i < |ms| && modulo > 0
    ensures SameRules(ms, r) && WellFormed(r)
  {
    Throws(ms[i := ms[i].(items := [])], i, ms[i].items, relief, modulo)
  }

  /** The first `k` turns of a round. */
  function Turns(ms: seq<Monkey>, k: nat, relief: bool, modulo: nat): (r: seq<Monkey>)
    requires WellFormed(ms) && k <= |ms| && modulo > 0
    ensures SameRules(ms, r) && WellFormed(r)
  {
    if k == 0 then ms else Turn(Turns(ms, k - 1, relief, modulo), k - 1, relief, modulo)
  }

  /** `round`: every monkey's turn, in order. */
  function RoundOf(ms: seq<Monkey>, relief: bool, modulo: nat): (r: seq<Monkey>)
    requires WellFormed(ms) && modulo > 0
    ensures SameRules(ms, r) && WellFormed(r)
  {
    Turns(ms, |ms|, relief, modulo)
  }

  /** `n` rounds. */
  function Rounds(ms: seq<Monkey>, n: nat, relief: bool, modulo: nat): (r: seq<Monkey>)
    requires WellFormed(ms) && modulo > 0
    ensures SameRules(ms, r) && WellFormed(r)
  {
    if n == 0 then ms else RoundOf(Rounds(ms, n - 1, relief, modulo), relief, modulo)
  }

  // ---------------------------------------------------------------------
  // What a turn and a round do

  /** While monkey `i` throws, its own list is untouched (no monkey throws to
      itself) and its count rises by one per item. */
  lemma {:induction false} ThrowsOwn(ms: seq<Monkey>, i: nat, items: seq<Item>, relief: bool, modulo: nat)
    requires WellFormed(ms) && i < |ms| && modulo > 0
    ensures var r := Throws(ms, i, items, relief, modulo);
      r[i].items == ms[i].items && r[i].inspectCount == ms[i].inspectCount + |items|
    decreases |items|
  {
    if items != [] {
      var front := items[..|items| - 1];
      ThrowsOwn(ms, i, front, relief, modulo);
      InspectMeaning(Throws(ms, i, front, relief, modulo), i, items[|items| - 1], relief, modulo, i);
    }
  }

  /** During its turn a monkey inspects every item it held at the start of
      the turn: its count rises by that number and its list is empty after. */
  lemma TurnOwn(ms: seq<Monkey>, i: nat, relief: bool, modulo: nat)
    requires WellFormed(ms) && i < |ms| && modulo > 0
    ensures var r := Turn(ms, i, relief, modulo);
      r[i].items == [] && r[i].inspectCount == ms[i].inspectCount + |ms[i].items|
  {
    ThrowsOwn(ms[i := ms[i].(items := [])], i, ms[i].items, relief, modulo);
  }

  /** The number of items all monkeys hold. */
  function TotalItems(ms: seq<Monkey>): nat
    decreases |ms|
  {
    if ms == [] then 0 else |ms[0].items| + TotalItems(ms[1..])
  }

  /** Replacing one monkey's list changes the total by the difference. */
  lemma {:induction false} TotalItemsUpdate(ms: seq<Monkey>, k: nat, m: Monkey)
    requires k < |ms|
    ensures TotalItems(ms[k := m]) + |ms[k].items| == TotalItems(ms) + |m.items|
    decreases |ms|
  {
    if k > 0 {
      TotalItemsUpdate(ms[1..], k - 1, m);
      assert ms[k := m][1..] == ms[1..][k - 1 := m];
    } else {
      assert ms[k := m][1..] == ms[1..];
    }
  }

  lemma InspectTotal(ms: seq<Monkey>, i: nat, item: Item, relief: bool, modulo: nat)
    requires WellFormed(ms) && i < |ms| && modulo > 0
    ensures TotalItems(Inspect(ms, i, item, relief, modulo)) == TotalItems(ms) + 1
  {
    var w := Worry(ms[i], item, relief, modulo);
    var t := Target(ms[i], w);
    var counted := ms[i := ms[i].(inspectCount := ms[i].inspectCount + 1)];
    TotalItemsUpdate(ms, i, ms[i].(inspectCount := ms[i].inspectCount + 1));
    TotalItemsUpdate(counted, t, counted[t].(items := counted[t].items + [w]));
  }

  lemma {:induction false} ThrowsTotal(ms: seq<Monkey>, i: nat, items: seq<Item>, relief: bool, modulo: nat)
    requires WellFormed(ms) && i < |ms| && modulo > 0
    ensures TotalItems(Throws(ms, i, items, relief, modulo)) == TotalItems(ms) + |items|
    decreases |items|
  {
    if items != [] {
      var front := items[..|items| - 1];
      ThrowsTotal(ms, i, front, relief, modulo);
      InspectTotal(Throws(ms, i, front, relief, modulo), i, items[|items| - 1], relief, modulo);
    }
  }

  /** A turn keeps the number of items. */
  lemma TurnTotal(ms: seq<Monkey>, i: nat, relief: bool, modulo: nat)
    requires WellFormed(ms) && i < |ms| && modulo > 0
    ensures TotalItems(Turn(ms, i, relief, modulo)) == TotalItems(ms)
  {
    TotalItemsUpdate(ms, i, ms[i].(items := []));
    ThrowsTotal(ms[i := ms[i].(items := [])], i, ms[i].items, relief, modulo);
  }

  lemma {:induction false} TurnsTotal(ms: seq<Monkey>, k: nat, relief: bool, modulo: nat)
    requires WellFormed(ms) && k <= |ms| && modulo > 0
    ensures TotalItems(Turns(ms, k, relief, modulo)) == TotalItems(ms)
  {
    if k > 0 {
      TurnsTotal(ms, k - 1, relief, modulo);
      TurnTotal(Turns(ms, k - 1, relief, modulo), k - 1, relief, modulo);
    }
  }

  /** A round keeps the number of items. */
  lemma RoundTotal(ms: seq<Monkey>, relief: bool, modulo: nat)
    requires WellFormed(ms) && modulo > 0
    ensures TotalItems(RoundOf(ms, relief, modulo)) == TotalItems(ms)
  {
    TurnsTotal(ms, |ms|, relief, modulo);
  }

  /** Every item monkey `k` holds is below `modulo`. */
  predicate Reduced(m: Monkey, modulo: nat) {
    forall j | 0 <= j < |m.items| :: m.items[j] < modulo
  }

  lemma InspectReduced(ms: seq<Monkey>, i: nat, item: Item, relief: bool, modulo: nat, k: nat)
    requires WellFormed(ms) && i < |ms| && modulo > 0 && k < |ms| && Reduced(ms[k], modulo)
    ensures Reduced(Inspect(ms, i, item, relief, modulo)[k], modulo)
  {
    InspectMeaning(ms, i, item, relief, modulo, k);
  }

  lemma {:induction false} ThrowsReduced(ms: seq<Monkey>, i: nat, items: seq<Item>, relief: bool, modulo: nat, k: nat)
    requires WellFormed(ms) && i < |ms| && modulo > 0 && k < |ms| && Reduced(ms[k], modulo)
    ensures Reduced(Throws(ms, i, items, relief, modulo)[k], modulo)
    decreases |items|
  {
    if items != [] {
      var front := items[..|items| - 1];
      ThrowsReduced(ms, i, front, relief, modulo, k);
      InspectReduced(Throws(ms, i, front, relief, modulo), i, items[|items| - 1], relief, modulo, k);
    }
  }

  /** After the first `k` turns, the monkeys that have had their turn hold
      only thrown items, which are all below `modulo`. */
  lemma {:induction false} TurnsReduced(ms: seq<Monkey>, k: nat, relief: bool, modulo: nat, j: nat)
    requires WellFormed(ms) && k <= |ms| && modulo > 0 && j < k
    ensures Reduced(Turns(ms, k, relief, modulo)[j], modulo)
  {
    var before := Turns(ms, k - 1, relief, modulo);
    var emptied := before[k - 1 := before[k - 1].(items := [])];
    if j < k - 1 {
      TurnsReduced(ms, k - 1, relief, modulo, j);
      assert emptied[j] == before[j];
    }
    ThrowsReduced(emptied, k - 1, before[k - 1].items, relief, modulo, j);
  }

  /** After a round every item any monkey holds has been thrown in it, so
      every item is below `modulo`. */
  lemma RoundReduced(ms: seq<Monkey>, relief: bool, modulo: nat, k: nat)
    requires WellFormed(ms) && modulo > 0 && k < |ms|
    ensures Reduced(RoundOf(ms, relief, modulo)[k], modulo)
  {
    TurnsReduced(ms, |ms|, relief, modulo, k);
  }

  /** Reducing modulo a multiple of the divisor leaves the test's outcome
      unchanged. */
  lemma ReducedTest(x: nat, d: nat, m: nat)
    requires d > 0 && m > 0 && m % d == 0
    ensures (x % m) % d == x % d
  {
    var q, k := x / m, m / d;
    assert m == k * d;
    assert x == q * m + x % m;
    assert x == (q * k) * d + x % m;
    ModMultiple(x % m, q * k, d);
  }

  /** Without relief, the reduced worry level passes the test exactly when
      the unreduced one would, and items that agree modulo `modulo` get the
      same reduced worry level: reducing by the product of all divisors
      (`find_mod`) changes no monkey's decision. */
  lemma ReductionSound(ms: seq<Monkey>, k: nat, x: Item, y: Item)
    requires k < |ms| && forall j | 0 <= j < |ms| :: ms[j].dividesBy > 0
    ensures FindMod(ms) > 0
    ensures Target(ms[k], Worry(ms[k], x, false, FindMod(ms)))
            == if Apply(ms[k].op, x) % ms[k].dividesBy == 0 then ms[k].onTrue else ms[k].onFalse
    ensures x % FindMod(ms) == y % FindMod(ms) ==>
              Worry(ms[k], x, false, FindMod(ms)) == Worry(ms[k], y, false, FindMod(ms))
  {
    FindModDivides(ms, k);
    var m := FindMod(ms);
    ReducedTest(Apply(ms[k].op, x), ms[k].dividesBy, m);
    if x % m == y % m {
      ApplyMod(ms[k].op, x, m);
      ApplyMod(ms[k].op, y, m);
    }
  }

  // ---------------------------------------------------------------------
  // Rounds in place

  /** One inspection in place. */
  method InspectInPlace(ms: array<Monkey>, i: nat, item: Item, relief: bool, modulo: nat)
    requires WellFormed(ms[..]) && i < ms.Length && modulo > 0
    modifies ms
    ensures ms[..] == Inspect(old(ms[..]), i, item, relief, modulo)
  {
    var w := Apply(ms[i].op, item);
    ms[i] := ms[i].(inspectCount := ms[i].inspectCount + 1);
    if relief {
      w := w / 3;
    }
    w := w % modulo;
    var throwTo := if w % ms[i].dividesBy == 0 then ms[i].onTrue else ms[i].onFalse;
    ms[throwTo] := ms[throwTo].(items := ms[throwTo].items + [w]);
  }

  /** Monkey `i`'s turn in place: its list is taken, then every item of it
      is inspected and thrown. */
  method TurnInPlace(ms: array<Monkey>, i: nat, relief: bool, modulo: nat)
    requires WellFormed(ms[..]) && i < ms.Length && modulo > 0
    modifies ms
    ensures ms[..] == Turn(old(ms[..]), i, relief, modulo)
  {
    var items := ms[i].items;
    ms[i] := ms[i].(items := []);
    ghost var taken := ms[..];
    for j := 0 to |items|
      invariant ms[..] == Throws(taken, i, items[..j], relief, modulo)
    {
      assert items[..j + 1][..j] == items[..j];
      InspectInPlace(ms, i, items[j], relief, modulo);
    }
    assert items[..|items|] == items;
  }

  /** `round`. */
  method Round(ms: array<Monkey>, relief: bool, modulo: nat)
    requires WellFormed(ms[..]) && modulo > 0
    modifies ms
    ensures ms[..] == RoundOf(old(ms[..]), relief, modulo)
  {
    ghost var start := ms[..];
    for i := 0 to ms.Length
      invariant ms[..] == Turns(start, i, relief, modulo)
    {
      TurnInPlace(ms, i, relief, modulo);
    }
  }

  // ---------------------------------------------------------------------
  // The two parts

  function Counts(ms: seq<Monkey>): (r: seq<int>)
    ensures |r| == |ms| && forall k | 0 <= k < |ms| :: r[k] == ms[k].inspectCount
  {
    seq(|ms|, k requires 0 <= k < |ms| => ms[k].inspectCount)
  }

  /** The counts in descending order, as `sort_by_key` with `Reverse`
      leaves them. */
  function Descending(counts: seq<int>): (s: seq<int>)
    ensures |s| == |counts| && multiset(s) == multiset(counts)
    ensures forall i, j | 0 <= i < j < |s| :: s[i] >= s[j]
  {
    var s := SortBy(counts, Negate);
    assert forall i, j | 0 <= i < j < |s| :: Negate(s[i]) <= Negate(s[j]);
    s
  }

  /** The product of the first two sorted counts. */
  function TopTwoProduct(counts: seq<int>): int
    requires |counts| >= 2
  {
    var s := Descending(counts);
    s[0] * s[1]
  }

  /** The product is that of two counts taken from the list, and every
      other count is at most the smaller of them: the two largest. */
  lemma TopTwoMeaning(counts: seq<int>)
    requires |counts| >= 2
    ensures var s := Descending(counts); var top := multiset{s[0], s[1]};
      && TopTwoProduct(counts) == s[0] * s[1]
      && top <= multiset(counts)
      && s[1] <= s[0]
      && forall v | v in multiset(counts) - top :: v <= s[1]
  {
    var s := Descending(counts);
    var low := s[2..];
    var top := multiset{s[0], s[1]};
    assert s == [s[0], s[1]] + low;
    assert multiset(s) == top + multiset(low);
    assert multiset(counts) - top == multiset(low);
    forall v | v in multiset(low) ensures v <= s[1] {
      assert v in low;
      var i :| 0 <= i < |low| && low[i] == v;
      assert s[i + 2] == v;
    }
  }

  /** The inspection counts after `rounds` rounds over a copy of the input. */
  method InspectionsAfter(input: seq<Monkey>, rounds: nat, relief: bool) returns (counts: seq<int>)
    requires WellFormed(input)
    ensures counts == Counts(Rounds(input, rounds, relief, FindMod(input)))
  {
    var ms := new Monkey[|input|](k requires 0 <= k < |input| => input[k]);
    assert ms[..] == input;
    var modulo := FindMod(input);
    for n := 0 to rounds
      invariant ms[..] == Rounds(input, n, relief, modulo)
    {
      Round(ms, relief, modulo);
    }
    counts := Counts(ms[..]);
  }

  /** `part1`: 20 rounds with relief. */
  method Part1(input: seq<Monkey>) returns (r: int)
    requires WellFormed(input) && |input| >= 2
    ensures r == TopTwoProduct(Counts(Rounds(input, 20, true, FindMod(input))))
  {
    var inspections := InspectionsAfter(input, 20, true);
    var sorted := Descending(inspections);
    r := sorted[0] * sorted[1];
  }

  /** `part2`: 10000 rounds without relief. */
  method Part2(input: seq<Monkey>) returns (r: int)
    requires WellFormed(input) && |input| >= 2
    ensures r == TopTwoProduct(Counts(Rounds(input, 10_000, false, FindMod(input))))
  {
    var inspections := InspectionsAfter(input, 10_000, false);
    var sorted := Descending(inspections);
    r := sorted[0] * sorted[1];
  }

  // ---------------------------------------------------------------------
  // The example

  /** Monkey 0 of the example: `new = old * 19`, test divisible by 23. */
  function ExampleMonkey0(): Monkey { Monkey([79, 98], Mul(19), 23, 2, 3, 0) }

  /** In round 1 its first item, 79, becomes 1501, is relieved to 500, is
      not divisible by 23 and goes to monkey 3, with or without reduction
      by the example's modulus 23 * 19 * 13 * 17. */
  lemma ExampleFirstInspection()
    ensures Worry(ExampleMonkey0(), 79, true, 23 * 19 * 13 * 17) == 500
    ensures Target(ExampleMonkey0(), 500) == 3
  {
  }
}
