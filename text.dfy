/** The parts of Rust's `str` API that the puzzle parsers use, over `seq<char>`.
    Every character counts as one byte, which is exact for ASCII input.
    Whitespace is the ASCII whitespace set. */
module Text {
  import opened Wrappers

  predicate IsSpace(c: char) {
    c == ' ' || c == '\t' || c == '\n' || c == '\r' || c == '\U{0B}' || c == '\U{0C}'
  }

  /** The whitespace characters as a set, for splitting at any of them. */
  const SpaceChars: set<char> := {' ', '\t', '\n', '\r', '\U{0B}', '\U{0C}'}

  /** The message of the error `str::parse` gives for a word that is not a
      number (the distinct message for an empty word is not modelled). */
  function InvalidDigit(): string { "invalid digit found in string" }

  predicate IsDigit(c: char) { '0' <= c <= '9' }

  predicate AllDigits(s: string) { forall i | 0 <= i < |s| :: IsDigit(s[i]) }

  function DigitValue(c: char): (d: nat)
    requires IsDigit(c)
    ensures d < 10
  {
    c as int - '0' as int
  }

  function DigitChar(d: nat): (c: char)
    requires d < 10
    ensures IsDigit(c) && DigitValue(c) == d
  {
    ('0' as int + d) as char
  }

  // ---------------------------------------------------------------------
  // Searching

  /** Index of the first character of `s` that lies in `seps`. */
  function IndexOfAny(s: string, seps: set<char>): (r: Option<nat>)
    ensures r.Some? ==> r.value < |s| && s[r.value] in seps
                        && forall k | 0 <= k < r.value :: s[k] !in seps
    ensures r.None? ==> forall k | 0 <= k < |s| :: s[k] !in seps
  {
    if s == [] then None
    else if s[0] in seps then Some(0)
    else match IndexOfAny(s[1..], seps)
      case None => None
      case Some(i) => Some(i + 1)
  }

  /** `pat` occurs in `s` at position `k`. */
  predicate OccursAt(s: string, pat: string, k: nat) {
    k + |pat| <= |s| && s[k..k + |pat|] == pat
  }

  /** Index of the first (leftmost) occurrence of `pat` in `s`. */
  function Find(s: string, pat: string): (r: Option<nat>)
    requires |pat| > 0
    ensures r.Some? ==> OccursAt(s, pat, r.value) && forall k: nat | k < r.value :: !OccursAt(s, pat, k)
    ensures r.None? ==> forall k: nat :: !OccursAt(s, pat, k)
    decreases |s|
  {
    if |s| < |pat| then None
    else if s[..|pat|] == pat then Some(0)
    else match Find(s[1..], pat)
      case None =>
        assert forall k: nat | 1 <= k :: OccursAt(s, pat, k) == OccursAt(s[1..], pat, k - 1);
        None
      case Some(i) =>
        assert forall k: nat | 1 <= k :: OccursAt(s, pat, k) == OccursAt(s[1..], pat, k - 1);
        Some(i + 1)
  }

  // ---------------------------------------------------------------------
  // Splitting

  /** `str::split` on a set of separator characters: always at least one piece. */
  function Split(s: string, seps: set<char>): (r: seq<string>)
    ensures |r| >= 1
    ensures forall p | p in r :: forall c | c in p :: c !in seps
    decreases |s|
  {
    match IndexOfAny(s, seps)
    case None => [s]
    case Some(i) => [s[..i]] + Split(s[i + 1..], seps)
  }

  /** Pieces joined back with one separator character. */
  function Join(ps: seq<string>, sep: char): string
    requires |ps| >= 1
  {
    if |ps| == 1 then ps[0] else ps[0] + [sep] + Join(ps[1..], sep)
  }

  /** Splitting on one character and joining with it gives the input back. */
  lemma {:induction false} JoinSplit(s: string, c: char)
    ensures Join(Split(s, {c}), c) == s
    decreases |s|
  {
    match IndexOfAny(s, {c})
    case None =>
    case Some(i) =>
      var rest := Split(s[i + 1..], {c});
      JoinSplit(s[i + 1..], c);
      assert Split(s, {c}) == [s[..i]] + rest;
      JoinCons(s[..i], rest, c);
      assert s == s[..i] + [c] + s[i + 1..];
  }

  lemma JoinCons(p: string, ps: seq<string>, sep: char)
    requires |ps| >= 1
    ensures Join([p] + ps, sep) == p + [sep] + Join(ps, sep)
  {
    assert ([p] + ps)[1..] == ps;
  }

  /** `str::split` on a string pattern: non-overlapping occurrences, left to right. */
  function SplitStr(s: string, pat: string): (r: seq<string>)
    requires |pat| > 0
    ensures |r| >= 1
    ensures forall j | 0 <= j < |r| :: NoOccurrence(r[j], pat)
    ensures JoinStr(r, pat) == s
    decreases |s|
  {
    match Find(s, pat)
    case None => [s]
    case Some(i) =>
      PrefixBeforeFirst(s, pat, i);
      var rest := SplitStr(s[i + |pat|..], pat);
      var r := [s[..i]] + rest;
      assert r[1..] == rest;
      assert forall j | 1 <= j < |r| :: r[j] == rest[j - 1];
      assert s == s[..i] + pat + s[i + |pat|..];
      r
  }

  /** `pat` does not occur anywhere in `s`. */
  ghost predicate NoOccurrence(s: string, pat: string) {
    forall k: nat :: !OccursAt(s, pat, k)
  }

  /** The text before the first occurrence holds no occurrence. */
  lemma PrefixBeforeFirst(s: string, pat: string, i: nat)
    requires |pat| > 0 && i <= |s| && forall k: nat | k < i :: !OccursAt(s, pat, k)
    ensures NoOccurrence(s[..i], pat)
  {
    forall k: nat ensures !OccursAt(s[..i], pat, k) {
      if OccursAt(s[..i], pat, k) {
        assert s[..i][k..k + |pat|] == s[k..k + |pat|];
        assert OccursAt(s, pat, k);
      }
    }
  }

  /** The parts joined back with the pattern between them. */
  function JoinStr(ps: seq<string>, pat: string): string
    requires |ps| >= 1
  {
    if |ps| == 1 then ps[0] else ps[0] + pat + JoinStr(ps[1..], pat)
  }

  /** `str::split_terminator`: like split, but a trailing empty piece is dropped. */
  function SplitTerminator(s: string, c: char): (r: seq<string>)
    ensures s == [] ==> r == []
    ensures forall p | p in r :: c !in p
  {
    var ps := Split(s, {c});
    var r := if ps[|ps| - 1] == [] then ps[..|ps| - 1] else ps;
    assert forall p | p in r :: p in ps;
    assert forall p | p in ps :: c !in p;
    r
  }

  /** `str::split_once` on a character. */
  function SplitOnce(s: string, c: char): (r: Option<(string, string)>)
    ensures r.Some? <==> c in s
    ensures r.Some? ==> s == r.value.0 + [c] + r.value.1 && c !in r.value.0
  {
    match IndexOfAny(s, {c})
    case None => None
    case Some(i) =>
      assert s == s[..i] + [c] + s[i + 1..];
      Some((s[..i], s[i + 1..]))
  }

  /** `str::split_once` on a string pattern. */
  function SplitOnceStr(s: string, pat: string): (r: Option<(string, string)>)
    requires |pat| > 0
    ensures r.None? <==> NoOccurrence(s, pat)
    ensures r.Some? ==> s == r.value.0 + pat + r.value.1 && NoOccurrence(r.value.0, pat)
  {
    match Find(s, pat)
    case None => None
    case Some(i) =>
      PrefixBeforeFirst(s, pat, i);
      assert s == s[..i] + s[i..i + |pat|] + s[i + |pat|..];
      Some((s[..i], s[i + |pat|..]))
  }

  /** Length of the leading run of non-whitespace characters. */
  function WordLength(s: string): (n: nat)
    ensures n <= |s|
    ensures forall k | 0 <= k < n :: !IsSpace(s[k])
    ensures n < |s| ==> IsSpace(s[n])
  {
    if s == [] || IsSpace(s[0]) then 0 else 1 + WordLength(s[1..])
  }

  /** `str::split_whitespace`: the maximal runs of non-whitespace characters. */
  function SplitWhitespace(s: string): (r: seq<string>)
    ensures forall t | t in r :: t != [] && forall k | 0 <= k < |t| :: !IsSpace(t[k])
    decreases |s|
  {
    if s == [] then []
    else if IsSpace(s[0]) then SplitWhitespace(s[1..])
    else
      var n := WordLength(s);
      [s[..n]] + SplitWhitespace(s[n..])
  }

  /** A non-empty run of non-whitespace characters. */
  predicate IsWord(w: string) { w != [] && forall k | 0 <= k < |w| :: !IsSpace(w[k]) }

  predicate AllWords(ws: seq<string>) { forall i | 0 <= i < |ws| :: IsWord(ws[i]) }

  /** Every piece `split_whitespace` gives is a word. */
  lemma SplitWhitespaceWords(s: string)
    ensures AllWords(SplitWhitespace(s))
  {
    var ws := SplitWhitespace(s);
    forall i | 0 <= i < |ws| ensures IsWord(ws[i]) {
      assert ws[i] in ws;
    }
  }

  /** A word followed by nothing or by whitespace is read whole. */
  lemma {:induction false} WordLengthOfWord(w: string, rest: string)
    requires IsWord(w) && (rest == [] || IsSpace(rest[0]))
    ensures WordLength(w + rest) == |w|
    decreases |w|
  {
    if |w| > 1 {
      assert (w + rest)[1..] == w[1..] + rest;
      WordLengthOfWord(w[1..], rest);
    } else {
      assert (w + rest)[1..] == rest;
    }
  }

  /** Words joined with single spaces split back into the same words. */
  lemma {:induction false} SplitWhitespaceJoin(ws: seq<string>)
    requires |ws| >= 1 && forall i | 0 <= i < |ws| :: IsWord(ws[i])
    ensures SplitWhitespace(Join(ws, ' ')) == ws
    decreases |ws|
  {
    var s := Join(ws, ' ');
    if |ws| == 1 {
      WordLengthOfWord(ws[0], []);
      assert ws[0] + [] == ws[0];
      assert s[|ws[0]|..] == [];
    } else {
      var rest := Join(ws[1..], ' ');
      assert s == ws[0] + (" " + rest);
      WordLengthOfWord(ws[0], " " + rest);
      assert s[..|ws[0]|] == ws[0] && s[|ws[0]|..] == " " + rest;
      assert (" " + rest)[1..] == rest;
      SplitWhitespaceJoin(ws[1..]);
    }
  }

  function StripCr(line: string): string {
    if |line| > 0 && line[|line| - 1] == '\r' then line[..|line| - 1] else line
  }

  /** `str::lines`: pieces ended by '\n' (a '\r' before it is dropped too); a final
      line ending is optional, and the empty string has no lines. */
  function Lines(s: string): (r: seq<string>)
    ensures s == [] <==> r == []
    ensures forall l | l in r :: '\n' !in l
    decreases |s|
  {
    if s == [] then []
    else match IndexOfAny(s, {'\n'})
      case None => [s]
      case Some(i) => [StripCr(s[..i])] + Lines(s[i + 1..])
  }

  // ---------------------------------------------------------------------
  // Trimming and prefixes

  function TrimStart(s: string): (r: string)
    ensures r <= s || (|r| <= |s| && r == s[|s| - |r|..])
    ensures r != [] ==> !IsSpace(r[0])
  {
    if s != [] && IsSpace(s[0]) then TrimStart(s[1..]) else s
  }

  function TrimEnd(s: string): (r: string)
    ensures r <= s
    ensures r != [] ==> !IsSpace(r[|r| - 1])
  {
    if s != [] && IsSpace(s[|s| - 1]) then TrimEnd(s[..|s| - 1]) else s
  }

  /** `str::trim`. */
  function Trim(s: string): (r: string)
    ensures r != [] ==> !IsSpace(r[0]) && !IsSpace(r[|r| - 1])
  {
    TrimEnd(TrimStart(s))
  }

  /** `str::strip_prefix`. */
  function StripPrefix(s: string, p: string): (r: Option<string>)
    ensures r.Some? <==> p <= s
    ensures r.Some? ==> s == p + r.value
  {
    if p <= s then Some(s[|p|..]) else None
  }

  predicate StartsWith(s: string, p: string) { p <= s }

  predicate EndsWith(s: string, p: string) { |p| <= |s| && s[|s| - |p|..] == p }

  /** `str::trim_start_matches` with a string pattern: every leading copy of `p` removed. */
  function TrimStartMatches(s: string, p: string): (r: string)
    ensures p != [] ==> !(p <= r)
    decreases |s|
  {
    if p != [] && p <= s then TrimStartMatches(s[|p|..], p) else s
  }

  // ---------------------------------------------------------------------
  // Numbers

  /** Decimal value of a string of digits, most significant first. */
  function DigitsValue(s: string): nat
    requires AllDigits(s)
  {
    if s == [] then 0 else DigitsValue(s[..|s| - 1]) * 10 + DigitValue(s[|s| - 1])
  }

  function Pow10(n: nat): (r: nat)
    ensures r >= 1
  {
    if n == 0 then 1 else 10 * Pow10(n - 1)
  }

  /** The value of concatenated digit strings: the left part is shifted by the
      length of the right part. */
  lemma {:induction false} DigitsValueAppend(a: string, b: string)
    requires AllDigits(a) && AllDigits(b)
    ensures AllDigits(a + b)
    ensures DigitsValue(a + b) == DigitsValue(a) * Pow10(|b|) + DigitsValue(b)
    decreases |b|
  {
    assert AllDigits(a + b) by {
      forall i | 0 <= i < |a + b| ensures IsDigit((a + b)[i]) {
        if i < |a| { assert (a + b)[i] == a[i]; } else { assert (a + b)[i] == b[i - |a|]; }
      }
    }
    if b == [] {
      assert a + b == a;
    } else {
      var b' := b[..|b| - 1];
      assert (a + b)[..|a + b| - 1] == a + b';
      assert (a + b)[|a + b| - 1] == b[|b| - 1];
      DigitsValueAppend(a, b');
      ShiftDigit(DigitsValue(a), Pow10(|b'|), DigitsValue(b'), DigitValue(b[|b| - 1]));
    }
  }

  lemma ShiftDigit(x: nat, p: nat, y: nat, d: nat)
    ensures (x * p + y) * 10 + d == x * (10 * p) + (y * 10 + d)
  {
  }

  /** The digits after an optional leading '+'. */
  function UnsignedPart(s: string): string {
    if |s| > 0 && s[0] == '+' then s[1..] else s
  }

  /** The numbers `str::parse::<uN>()` reads: an optional '+' and then at
      least one decimal digit, of any size (`ParseNatUpTo` adds the width). */
  function ParseNat(s: string): (r: Option<nat>)
    ensures r.Some? <==> UnsignedPart(s) != [] && AllDigits(UnsignedPart(s))
    ensures r.Some? ==> r.value == DigitsValue(UnsignedPart(s))
  {
    var d := UnsignedPart(s);
    if d != [] && AllDigits(d) then Some(DigitsValue(d)) else None
  }

  /** `str::parse::<iN>()`: an optional sign and then at least one decimal digit. */
  function ParseInt(s: string): (r: Option<int>)
    ensures |s| > 0 && s[0] == '-' ==> (r.Some? <==> |s| > 1 && AllDigits(s[1..]))
    ensures |s| > 0 && s[0] == '-' && r.Some? ==> r.value == 0 - DigitsValue(s[1..])
    ensures !(|s| > 0 && s[0] == '-') ==> (r.Some? <==> ParseNat(s).Some?)
    ensures !(|s| > 0 && s[0] == '-') && r.Some? ==> r.value == ParseNat(s).value
  {
    if |s| > 0 && s[0] == '-' then
      (if |s| > 1 && AllDigits(s[1..]) then Some(0 - DigitsValue(s[1..]) as int) else None)
    else
      match ParseNat(s)
      case Some(n) => Some(n)
      case None => None
  }

  /** The largest values of Rust's fixed-width integer types; `usize` is
      taken to be 64 bits wide. */
  const U32Max: nat := 0xffff_ffff
  const U64Max: nat := 0xffff_ffff_ffff_ffff
  const USizeMax: nat := U64Max
  const I64Min: int := -0x8000_0000_0000_0000
  const I64Max: int := 0x7fff_ffff_ffff_ffff

  /** The errors for a number outside the target integer type. */
  function TooLarge(): string { "number too large to fit in target type" }

  function TooSmall(): string { "number too small to fit in target type" }

  /** `str::parse` into a fixed-width signed integer: a number outside
      `lo..=hi` is an error. */
  function ParseIntIn(t: string, lo: int, hi: int): (r: Result<int>)
    ensures r.Ok? <==> ParseInt(t).Some? && lo <= ParseInt(t).value <= hi
    ensures r.Ok? ==> r.value == ParseInt(t).value
    ensures ParseInt(t).None? ==> r == Err(InvalidDigit())
    ensures ParseInt(t).Some? && ParseInt(t).value > hi ==> r == Err(TooLarge())
  {
    match ParseInt(t)
    case None => Err(InvalidDigit())
    case Some(v) =>
      if v > hi then Err(TooLarge())
      else if v < lo then Err(TooSmall())
      else Ok(v)
  }

  /** `str::parse` into an unsigned fixed-width integer whose largest value
      is `hi`. */
  function ParseNatUpTo(t: string, hi: nat): (r: Result<nat>)
    ensures r.Ok? <==> ParseNat(t).Some? && ParseNat(t).value <= hi
    ensures r.Ok? ==> r.value == ParseNat(t).value
    ensures ParseNat(t).None? ==> r == Err(InvalidDigit())
    ensures ParseNat(t).Some? && ParseNat(t).value > hi ==> r == Err(TooLarge())
  {
    match ParseNat(t)
    case None => Err(InvalidDigit())
    case Some(v) => if v > hi then Err(TooLarge()) else Ok(v)
  }

  /** Debug formatting `{s:?}` of a string: the text in double quotes
      (escapes are not modelled). */
  function Quoted(s: string): string { "\"" + s + "\"" }

  /** The error `str::parse` into an unsigned type gives for text it does not
      read: an invalid digit, or a number too large for the type. */
  function UnsignedError(t: string): string {
    if ParseNat(t).None? then InvalidDigit() else TooLarge()
  }

  /** `u64::to_string`: decimal without leading zeros. */
  function NatToString(n: nat): (r: string)
    ensures r != [] && AllDigits(r)
    ensures |r| > 1 ==> r[0] != '0'
  {
    if n < 10 then [DigitChar(n)] else NatToString(n / 10) + [DigitChar(n % 10)]
  }

  lemma {:induction false} NatToStringValue(n: nat)
    ensures DigitsValue(NatToString(n)) == n
  {
    var r := NatToString(n);
    if n >= 10 {
      NatToStringValue(n / 10);
      assert r[..|r| - 1] == NatToString(n / 10);
    }
  }

  /** Printing and parsing back a number gives the number. */
  lemma ParseNatToString(n: nat)
    ensures ParseNat(NatToString(n)) == Some(n)
  {
    NatToStringValue(n);
  }

  /** `i64::to_string`: a '-' for a negative number, then its magnitude. */
  function IntToString(v: int): (r: string)
    ensures r != []
  {
    if v < 0 then "-" + NatToString(-v) else NatToString(v)
  }

  /** Printing and parsing back a signed number gives the number; the text
      is one word. */
  lemma ParseIntToString(v: int)
    ensures ParseInt(IntToString(v)) == Some(v)
    ensures IsWord(IntToString(v))
  {
    if v < 0 {
      ParseNegative(-v);
    } else {
      ParseNatToString(v);
      var t := NatToString(v);
      assert t[0] != '-' by { assert IsDigit(t[0]); }
    }
  }

  lemma ParseNegative(n: nat)
    ensures ParseInt("-" + NatToString(n)) == Some(0 - n)
    ensures IsWord("-" + NatToString(n))
  {
    var t := NatToString(n);
    var s := "-" + t;
    assert s[0] == '-' && s[1..] == t;
    NatToStringValue(n);
    assert forall k | 0 <= k < |t| :: !IsSpace(t[k]) by {
      forall k | 0 <= k < |t| ensures !IsSpace(t[k]) {
        assert IsDigit(t[k]);
      }
    }
  }
}
