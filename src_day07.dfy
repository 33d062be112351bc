/** Directory sizes from a shell session (src/bin/day07.rs): a log of `cd` and
    `ls` commands and the listing lines `ls` prints is walked once, keeping the
    working directory, and every file's size is added to the directory it is
    listed in and to every ancestor of that directory. */
module SrcDay07 {
  import opened Wrappers
  import opened Text

  datatype Cmd = CdRoot | CdParent | CdDir(dir: string) | Ls

  datatype LsOutput = DirEntry(name: string) | FileEntry(size: nat, file: string)

  datatype Line = CmdLine(cmd: Cmd) | LsLine(output: LsOutput)

  /** The error for a line of no known shape; the source prints the line with
      `Debug`, which is modelled as plain quoting. */
  function ParseError(s: string): string { "Can't parse line: " + Quoted(s) }

  /** `Line::from_str`: the line's whitespace-separated words decide its kind;
      every line it accepts is well formed. */
  function LineFromStr(s: string): (r: Result<Line>)
    ensures r.Ok? ==> WellFormed(r.value)
  {
    SplitWhitespaceWords(s);
    LineOfWords(SplitWhitespace(s), s)
  }

  /** The line the words `ws` of `s` make: `$ cd` with a target, `$ ls`,
      `dir` with a name, and any other two words are a size and a file name. */
  function LineOfWords(ws: seq<string>, s: string): (r: Result<Line>)
    ensures AllWords(ws) && r.Ok? ==> WellFormed(r.value)
  {
    if |ws| == 3 && ws[0] == "$" && ws[1] == "cd" then
      Ok(CmdLine(if ws[2] == "/" then CdRoot else if ws[2] == ".." then CdParent else CdDir(ws[2])))
    else if |ws| == 2 then
      if ws[0] == "$" && ws[1] == "ls" then Ok(CmdLine(Ls))
      else if ws[0] == "dir" then Ok(LsLine(DirEntry(ws[1])))
      else match ParseNatUpTo(ws[0], USizeMax)
        case Err(e) => Err(e)
        case Ok(size) => Ok(LsLine(FileEntry(size, ws[1])))
    else Err(ParseError(s))
  }

  /** What each shape of line parses to: commands start with `$`, listing
      lines have two words, `dir` names a subdirectory, any other pair must
      start with a size, and nothing else parses. */
  lemma LineShapes(s: string)
    ensures var ws, r := SplitWhitespace(s), LineFromStr(s);
      && (|ws| != 2 && |ws| != 3 ==> r == Err(ParseError(s)))
      && (r.Ok? && r.value.CmdLine? ==> ws[0] == "$" && (r.value.cmd.Ls? <==> |ws| == 2))
      && (r.Ok? && r.value.LsLine? ==> |ws| == 2 && ws[0] != "$"
                                       && (r.value.output.DirEntry? <==> ws[0] == "dir"))
      && (|ws| == 2 && ws[0] != "dir" && !(ws[0] == "$" && ws[1] == "ls") ==>
            (r.Ok? <==> ParseNatUpTo(ws[0], USizeMax).Ok?)
            && (r.Err? ==> r.error == UnsignedError(ws[0])))
  {
    WordShapes(SplitWhitespace(s), s);
  }

  lemma WordShapes(ws: seq<string>, s: string)
    ensures var r := LineOfWords(ws, s);
      && (|ws| != 2 && |ws| != 3 ==> r == Err(ParseError(s)))
      && (r.Ok? && r.value.CmdLine? ==> ws[0] == "$" && (r.value.cmd.Ls? <==> |ws| == 2))
      && (r.Ok? && r.value.LsLine? ==> |ws| == 2 && ws[0] != "$"
                                       && (r.value.output.DirEntry? <==> ws[0] == "dir"))
      && (|ws| == 2 && ws[0] != "dir" && !(ws[0] == "$" && ws[1] == "ls") ==>
            (r.Ok? <==> ParseNatUpTo(ws[0], USizeMax).Ok?)
            && (r.Err? ==> r.error == UnsignedError(ws[0])))
  {
    if |ws| == 2 && ws[0] == "$" && ws[1] != "ls" {
      assert UnsignedPart(ws[0]) == "$" && !IsDigit('$');
    }
  }

  /** The words a line is printed as. */
  function Words(l: Line): seq<string> {
    match l
    case CmdLine(CdRoot) => ["$", "cd", "/"]
    case CmdLine(CdParent) => ["$", "cd", ".."]
    case CmdLine(CdDir(d)) => ["$", "cd", d]
    case CmdLine(Ls) => ["$", "ls"]
    case LsLine(DirEntry(d)) => ["dir", d]
    case LsLine(FileEntry(size, f)) => [NatToString(size), f]
  }

  /** A line as the shell session prints it. */
  function Render(l: Line): string {
    Join(Words(l), ' ')
  }

  /** The names in a line are single words, a `cd` target is not one of the
      two special ones, and a file's size fits a `usize`. */
  predicate WellFormed(l: Line) {
    match l
    case CmdLine(CdDir(d)) => IsWord(d) && d != "/" && d != ".."
    case CmdLine(_) => true
    case LsLine(DirEntry(d)) => IsWord(d)
    case LsLine(FileEntry(size, f)) => IsWord(f) && size <= USizeMax
  }

  /** Parsing a printed line gives the line back. */
  lemma LineRoundTrip(l: Line)
    requires WellFormed(l)
    ensures LineFromStr(Render(l)) == Ok(l)
  {
    var ws := Words(l);
    assert forall i | 0 <= i < |ws| :: IsWord(ws[i]);
    SplitWhitespaceJoin(ws);
    WordsParse(Render(l), l);
  }

  /** A line whose words are those of `l` parses to `l`. */
  lemma WordsParse(s: string, l: Line)
    requires WellFormed(l) && SplitWhitespace(s) == Words(l)
    ensures LineFromStr(s) == Ok(l)
  {
    WordsOfLine(l, s);
  }

  /** The words of a well-formed line make that line. */
  lemma WordsOfLine(l: Line, s: string)
    requires WellFormed(l)
    ensures LineOfWords(Words(l), s) == Ok(l)
  {
    match l
    case CmdLine(c) =>
    case LsLine(DirEntry(d)) =>
    case LsLine(FileEntry(size, f)) =>
      SizeWords(size, f, Words(l), s);
  }

  /** A size that fits a `usize`, printed in decimal, and a file name make
      that file. */
  lemma SizeWords(size: nat, f: string, ws: seq<string>, s: string)
    requires ws == [NatToString(size), f] && size <= USizeMax
    ensures LineOfWords(ws, s) == Ok(LsLine(FileEntry(size, f)))
  {
    var w := NatToString(size);
    ParseNatToString(size);
    assert IsDigit(w[0]);
    assert w != "$" && w != "dir";
  }

  /** `parse_input`: one line per input line, stopping at the first error. */
  function ParseInput(input: string): (r: Result<seq<Line>>)
    ensures r.Ok? <==> forall i | 0 <= i < |Lines(input)| :: LineFromStr(Lines(input)[i]).Ok?
    ensures r.Ok? ==> |r.value| == |Lines(input)|
                      && forall i | 0 <= i < |r.value| :: Ok(r.value[i]) == LineFromStr(Lines(input)[i])
    ensures r.Ok? ==> forall i | 0 <= i < |r.value| :: WellFormed(r.value[i])
  {
    var ls := Lines(input);
    var r := CollectMap(ls, LineFromStr);
    if r.Ok? then ParsedWellFormed(ls, r.value); r else r
  }

  lemma ParsedWellFormed(ls: seq<string>, g: seq<Line>)
    requires CollectMap(ls, LineFromStr) == Ok(g)
    ensures forall i | 0 <= i < |g| :: WellFormed(g[i])
  {
    forall i | 0 <= i < |g| ensures WellFormed(g[i]) {
      assert LineFromStr(ls[i]) == Ok(g[i]);
    }
  }

  // ---------------------------------------------------------------------
  // Walking the session

  datatype LineState = WaitingForLs | InLsOutput

  /** Whether a directory's own listing has been seen (`Yep`) or it has only
      been named in its parent's listing (`Nope`). */
  datatype BeenHere = Yep | Nope

  type Path = seq<string>

  const CdParentError: string := "Did a `cd ..` in `/`"

  /** The working directory after a command: only `cd ..` at the root fails. */
  function Cd(pwd: Path, cmd: Cmd): (r: Result<Path>)
    ensures r.Err? <==> cmd == CdParent && pwd == []
    ensures r.Err? ==> r.error == CdParentError
  {
    match cmd
    case CdRoot => Ok([])
    case CdParent => if pwd == [] then Err(CdParentError) else Ok(pwd[..|pwd| - 1])
    case CdDir(d) => Ok(pwd + [d])
    case Ls => Ok(pwd)
  }

  /** The line state after a command: listing output follows `ls` only. */
  function StateAfter(cmd: Cmd): LineState {
    if cmd.Ls? then InLsOutput else WaitingForLs
  }

  /** `update_pwd`: `cd /` empties the working directory, `cd <d>` enters `d`,
      `cd ..` leaves the current directory and fails at the root; the state is
      reset first, so it is `WaitingForLs` after every command but `ls`. */
  method UpdatePwd(pwd: Path, cmd: Cmd) returns (newPwd: Path, newState: LineState, r: Result<()>)
    ensures newState == StateAfter(cmd)
    ensures cmd == CdRoot ==> r.Ok? && newPwd == []
    ensures cmd == CdParent ==> (r.Ok? <==> pwd != [])
                                && (r.Ok? ==> newPwd + [pwd[|pwd| - 1]] == pwd)
                                && (r.Err? ==> r.error == CdParentError && newPwd == pwd)
    ensures cmd.CdDir? ==> r.Ok? && newPwd == pwd + [cmd.dir]
    ensures cmd == Ls ==> r.Ok? && newPwd == pwd
    ensures r.Ok? <==> Cd(pwd, cmd).Ok?
    ensures r.Ok? ==> newPwd == Cd(pwd, cmd).value
    ensures r.Err? ==> r.error == Cd(pwd, cmd).error
  {
    newState := WaitingForLs;
    newPwd := pwd;
    match cmd {
      case CdRoot =>
        newPwd := [];
      case CdParent =>
        if newPwd == [] {
          return newPwd, newState, Err(CdParentError);
        }
        newPwd := newPwd[..|newPwd| - 1];
      case CdDir(d) =>
        newPwd := newPwd + [d];
      case Ls =>
        newState := InLsOutput;
    }
    r := Ok(());
  }

  /** `cd ..` undoes `cd <d>`. */
  lemma CdDirThenParent(pwd: Path, d: string)
    ensures Cd(pwd, CdDir(d)).Ok? && Cd(Cd(pwd, CdDir(d)).value, CdParent) == Ok(pwd)
  {
    assert (pwd + [d])[..|pwd|] == pwd;
  }

  /** A command changes the depth of the working directory by at most one,
      except `cd /`, which goes to the root. */
  lemma CdDepth(pwd: Path, cmd: Cmd)
    requires Cd(pwd, cmd).Ok?
    ensures var p := Cd(pwd, cmd).value;
      (cmd == CdRoot ==> p == [])
      && (cmd != CdRoot ==> |pwd| - 1 <= |p| <= |pwd| + 1 && (p <= pwd || pwd <= p))
  {
  }

  /** `p` is the working directory or one of its ancestors, the root included. */
  predicate IsAncestor(p: Path, pwd: Path) {
    |p| <= |pwd| && pwd[..|p|] == p
  }

  function SizeOf(sizes: map<Path, nat>, p: Path): nat {
    if p in sizes then sizes[p] else 0
  }

  /** The sizes after `size` is added to the ancestors `pwd[..len]` with
      `len < n`, shortest first. */
  function Added(sizes: map<Path, nat>, pwd: Path, size: nat, n: nat): map<Path, nat>
    requires n <= |pwd| + 1
  {
    if n == 0 then sizes
    else
      var m := Added(sizes, pwd, size, n - 1);
      m[pwd[..n - 1] := SizeOf(m, pwd[..n - 1]) + size]
  }

  /** The inner loop `for len in 0..=pwd.len()` of `dir_sizes`. */
  method AddFile(sizes: map<Path, nat>, pwd: Path, size: nat) returns (r: map<Path, nat>)
    ensures r == Added(sizes, pwd, size, |pwd| + 1)
  {
    r := sizes;
    var len := 0;
    while len <= |pwd|
      invariant len <= |pwd| + 1
      invariant r == Added(sizes, pwd, size, len)
    {
      var key := pwd[..len];
      var entry := if key in r then r[key] else 0;
      r := r[key := entry + size];
      len := len + 1;
    }
  }

  /** After the first `n` ancestors: each of them, and nothing else, has
      grown by `size`, and is present even if it was not before. */
  lemma {:induction false} AddedUpTo(sizes: map<Path, nat>, pwd: Path, size: nat, n: nat, p: Path)
    requires n <= |pwd| + 1
    ensures var r := Added(sizes, pwd, size, n);
      (p in r <==> p in sizes || (|p| < n && IsAncestor(p, pwd)))
      && SizeOf(r, p) == SizeOf(sizes, p) + if |p| < n && IsAncestor(p, pwd) then size else 0
  {
    if n > 0 {
      AddedUpTo(sizes, pwd, size, n - 1, p);
      if p == pwd[..n - 1] {
        assert |p| == n - 1 && IsAncestor(p, pwd);
      } else if |p| == n - 1 {
        assert !IsAncestor(p, pwd);
      }
    }
  }

  /** A file adds its size to exactly the directories that contain it: the
      one it is listed in and all of that one's ancestors. */
  lemma AddedMeaning(sizes: map<Path, nat>, pwd: Path, size: nat, p: Path)
    ensures var r := Added(sizes, pwd, size, |pwd| + 1);
      (p in r <==> p in sizes || IsAncestor(p, pwd))
      && SizeOf(r, p) == SizeOf(sizes, p) + if IsAncestor(p, pwd) then size else 0
  {
    AddedUpTo(sizes, pwd, size, |pwd| + 1, p);
  }

  /** The state `dir_sizes` keeps while it walks. */
  datatype Walk = Walk(pwd: Path, state: LineState, dirs: map<Path, BeenHere>, sizes: map<Path, nat>)

  const Start: Walk := Walk([], WaitingForLs, map[], map[])

  const LsOutputError: string := "Ls output where cmd was expected!"

  /** One line of the loop of `dir_sizes`: a command updates the working
      directory; listing output marks the working directory as listed and
      then records a named subdirectory (unless it is known already) or adds a
      file's size. */
  function StepLine(w: Walk, line: Line): (r: Result<Walk>)
    ensures r.Err? <==> (line.CmdLine? && line.cmd == CdParent && w.pwd == [])
                        || (line.LsLine? && w.state == WaitingForLs)
    ensures r.Err? ==> r.error == if line.LsLine? then LsOutputError else CdParentError
    ensures r.Ok? && line.LsLine? ==> r.value.pwd == w.pwd && r.value.state == InLsOutput
                                      && w.pwd in r.value.dirs && r.value.dirs[w.pwd] == Yep
  {
    match line
    case CmdLine(cmd) =>
      (match Cd(w.pwd, cmd)
       case Err(e) => Err(e)
       case Ok(p) => Ok(w.(pwd := p, state := StateAfter(cmd))))
    case LsLine(output) =>
      if w.state == WaitingForLs then Err(LsOutputError)
      else
        var dirs := w.dirs[w.pwd := Yep];
        assert w.state == InLsOutput;
        match output
        case DirEntry(d) =>
          var sub := w.pwd + [d];
          assert sub != w.pwd by { assert |sub| != |w.pwd|; }
          var dirs' := if sub in dirs then dirs else dirs[sub := Nope];
          assert w.pwd in dirs' && dirs'[w.pwd] == Yep;
          Ok(w.(dirs := dirs'))
        case FileEntry(size, _) =>
          Ok(w.(dirs := dirs, sizes := Added(w.sizes, w.pwd, size, |w.pwd| + 1)))
  }

  /** The loop of `dir_sizes`, stopping at the first error, which is one of
      the two a line can give. */
  function Run(w: Walk, lines: seq<Line>): (r: Result<Walk>)
    ensures r.Err? ==> r.error == LsOutputError || r.error == CdParentError
    ensures lines == [] ==> r == Ok(w)
    decreases |lines|
  {
    if lines == [] then Ok(w)
    else match StepLine(w, lines[0])
      case Err(e) => Err(e)
      case Ok(w1) => Run(w1, lines[1..])
  }

  /** Whether some directory was named but never listed. */
  predicate Missed(dirs: map<Path, BeenHere>) {
    exists p | p in dirs :: dirs[p] == Nope
  }

  /** What `dir_sizes` returns: the walk's error, "Missed a dir", or the sizes. */
  function DirSizesOf(g: seq<Line>): (r: Result<map<Path, nat>>)
    ensures r.Err? ==> r.error == LsOutputError || r.error == CdParentError || r.error == "Missed a dir"
  {
    match Run(Start, g)
    case Err(e) => Err(e)
    case Ok(w) => if Missed(w.dirs) then Err("Missed a dir") else Ok(w.sizes)
  }

  /** `dir_sizes`: walk the session, then fail if a directory was missed. */
  method DirSizes(g: seq<Line>) returns (r: Result<map<Path, nat>>)
    ensures r == DirSizesOf(g)
  {
    var pwd: Path := [];
    var state := WaitingForLs;
    var dirs: map<Path, BeenHere> := map[];
    var sizes: map<Path, nat> := map[];
    var i := 0;
    while i < |g|
      invariant i <= |g|
      invariant Run(Walk(pwd, state, dirs, sizes), g[i..]) == Run(Start, g)
    {
      assert g[i..][0] == g[i] && g[i..][1..] == g[i + 1..];
      ghost var w := Walk(pwd, state, dirs, sizes);
      match g[i] {
        case CmdLine(cmd) =>
          var p, s, res := UpdatePwd(pwd, cmd);
          if res.Err? {
            return Err(res.error);
          }
          pwd, state := p, s;
        case LsLine(output) =>
          if state == WaitingForLs {
            return Err(LsOutputError);
          }
          dirs := dirs[pwd := Yep];
          match output {
            case DirEntry(d) =>
              pwd := pwd + [d];
              if pwd !in dirs {
                dirs := dirs[pwd := Nope];
              }
              pwd := pwd[..|pwd| - 1];
              assert pwd == w.pwd;
            case FileEntry(size, _) =>
              sizes := AddFile(sizes, pwd, size);
          }
      }
      assert StepLine(w, g[i]) == Ok(Walk(pwd, state, dirs, sizes));
      i := i + 1;
    }
    assert g[i..] == [];
    if exists p | p in dirs :: dirs[p] == Nope {
      return Err("Missed a dir");
    }
    return Ok(sizes);
  }

  // ---------------------------------------------------------------------
  // What the walk computes

  /** The total size of the files listed in `lines`. */
  function FileSum(lines: seq<Line>): nat
    decreases |lines|
  {
    if lines == [] then 0
    else (match lines[0]
          case LsLine(FileEntry(size, _)) => size
          case _ => 0) + FileSum(lines[1..])
  }

  /** Whether some line of `lines` lists a file. */
  predicate ListsFile(lines: seq<Line>) {
    exists i | 0 <= i < |lines| :: lines[i].LsLine? && lines[i].output.FileEntry?
  }

  /** Every file is added to the root: after a successful walk the root has
      grown by the sizes of all the files listed, and it has an entry exactly
      when it had one before or some file was listed. */
  lemma {:induction false} RootTotal(w: Walk, lines: seq<Line>)
    requires Run(w, lines).Ok?
    ensures var w' := Run(w, lines).value;
      SizeOf(w'.sizes, []) == SizeOf(w.sizes, []) + FileSum(lines)
      && ([] in w'.sizes <==> [] in w.sizes || ListsFile(lines))
    decreases |lines|
  {
    if lines != [] {
      var w1 := StepLine(w, lines[0]).value;
      RootStep(w, lines[0]);
      RootTotal(w1, lines[1..]);
      assert forall i | 1 <= i < |lines| :: lines[1..][i - 1] == lines[i];
      if ListsFile(lines[1..]) {
        var i :| 0 <= i < |lines[1..]| && lines[1..][i].LsLine? && lines[1..][i].output.FileEntry?;
        assert lines[i + 1] == lines[1..][i];
      }
    }
  }

  /** One line's effect on the root entry. */
  lemma RootStep(w: Walk, line: Line)
    requires StepLine(w, line).Ok?
    ensures var w1 := StepLine(w, line).value;
      var size := match line case LsLine(FileEntry(size, _)) => size case _ => 0;
      SizeOf(w1.sizes, []) == SizeOf(w.sizes, []) + size
      && ([] in w1.sizes <==> [] in w.sizes || (line.LsLine? && line.output.FileEntry?))
  {
    if line.LsLine? && line.output.FileEntry? {
      AddedMeaning(w.sizes, w.pwd, line.output.size, []);
    }
  }

  /** Every directory that has a size has one for each of its ancestors, at
      least as large. */
  predicate Nested(sizes: map<Path, nat>) {
    forall p, k | p in sizes && 0 <= k <= |p| :: p[..k] in sizes && sizes[p] <= sizes[p[..k]]
  }

  /** Adding a file to a directory and its ancestors keeps sizes nested. */
  lemma AddedNested(sizes: map<Path, nat>, pwd: Path, size: nat)
    requires Nested(sizes)
    ensures Nested(Added(sizes, pwd, size, |pwd| + 1))
  {
    var r := Added(sizes, pwd, size, |pwd| + 1);
    forall p, k | p in r && 0 <= k <= |p|
      ensures p[..k] in r && r[p] <= r[p[..k]]
    {
      AddedMeaning(sizes, pwd, size, p);
      AddedMeaning(sizes, pwd, size, p[..k]);
      if IsAncestor(p, pwd) {
        assert pwd[..|p[..k]|] == p[..k];
      }
    }
  }

  /** Every walk step keeps sizes nested. */
  lemma {:induction false} RunNested(w: Walk, lines: seq<Line>)
    requires Nested(w.sizes) && Run(w, lines).Ok?
    ensures Nested(Run(w, lines).value.sizes)
    decreases |lines|
  {
    if lines != [] {
      var w1 := StepLine(w, lines[0]).value;
      if lines[0].LsLine? && lines[0].output.FileEntry? {
        AddedNested(w.sizes, w.pwd, lines[0].output.size);
      }
      RunNested(w1, lines[1..]);
    }
  }

  /** A directory is at least as large as each of its subdirectories, and the
      root, when it has a size, is at least as large as every directory. */
  lemma SubdirSmaller(g: seq<Line>, p: Path, k: nat)
    requires DirSizesOf(g).Ok? && p in DirSizesOf(g).value && k <= |p|
    ensures var s := DirSizesOf(g).value; p[..k] in s && s[p] <= s[p[..k]]
  {
    RunNested(Start, g);
  }

  /** The directories listed while walking `lines` from `w`: the working
      directory at every listing line. */
  function ListedIn(w: Walk, lines: seq<Line>): set<Path>
    decreases |lines|
  {
    if lines == [] then {}
    else match StepLine(w, lines[0])
      case Err(_) => {}
      case Ok(w1) => (if lines[0].LsLine? then {w.pwd} else {}) + ListedIn(w1, lines[1..])
  }

  /** The directories named by `dir` lines while walking `lines` from `w`. */
  function NamedIn(w: Walk, lines: seq<Line>): set<Path>
    decreases |lines|
  {
    if lines == [] then {}
    else match StepLine(w, lines[0])
      case Err(_) => {}
      case Ok(w1) =>
        (match lines[0] case LsLine(DirEntry(d)) => {w.pwd + [d]} case _ => {})
        + NamedIn(w1, lines[1..])
  }

  /** After a successful walk, the known directories are those known before,
      listed or named; the listed ones, and those that were, are `Yep`. */
  lemma {:induction false} DirsMeaning(w: Walk, lines: seq<Line>, p: Path)
    requires Run(w, lines).Ok?
    ensures var d := Run(w, lines).value.dirs;
      (p in d <==> p in w.dirs || p in ListedIn(w, lines) || p in NamedIn(w, lines))
      && (p in d && d[p] == Yep <==> (p in w.dirs && w.dirs[p] == Yep) || p in ListedIn(w, lines))
    decreases |lines|
  {
    if lines != [] {
      DirsMeaning(StepLine(w, lines[0]).value, lines[1..], p);
    }
  }

  /** `dir_sizes` fails with "Missed a dir" exactly when some directory was
      named in a listing but never listed itself. */
  lemma MissedMeaning(g: seq<Line>)
    requires Run(Start, g).Ok?
    ensures DirSizesOf(g) == Err("Missed a dir") <==> NamedIn(Start, g) - ListedIn(Start, g) != {}
    ensures DirSizesOf(g).Ok? <==> NamedIn(Start, g) <= ListedIn(Start, g)
  {
    var d := Run(Start, g).value.dirs;
    if Missed(d) {
      var p :| p in d && d[p] == Nope;
      DirsMeaning(Start, g, p);
      assert p in NamedIn(Start, g) - ListedIn(Start, g);
    }
    if p :| p in NamedIn(Start, g) - ListedIn(Start, g) {
      DirsMeaning(Start, g, p);
      assert d[p] == Nope;
    }
  }

  /** Listing output is refused exactly when no `ls` came before it since the
      last other command; a listing line keeps the walk in `InLsOutput`. */
  lemma ListingNeedsLs(w: Walk, line: Line)
    ensures StepLine(w, line) == Err(LsOutputError) <==> line.LsLine? && w.state == WaitingForLs
    ensures line.LsLine? && StepLine(w, line).Ok? ==> StepLine(w, line).value.state == InLsOutput
  {
  }

  // ---------------------------------------------------------------------
  // The two answers

  /** The sum of the sizes of the directories in `keys` that are at most
      `limit`. */
  ghost function SumAtMost(sizes: map<Path, nat>, keys: set<Path>, limit: nat): nat
    requires keys <= sizes.Keys
    decreases keys
  {
    if keys == {} then 0
    else
      var k :| k in keys;
      (if sizes[k] <= limit then sizes[k] else 0) + SumAtMost(sizes, keys - {k}, limit)
  }

  /** The sum does not depend on the order the directories are taken in. */
  lemma {:induction false} SumAtMostPick(sizes: map<Path, nat>, keys: set<Path>, limit: nat, k: Path)
    requires keys <= sizes.Keys && k in keys
    ensures SumAtMost(sizes, keys, limit)
            == (if sizes[k] <= limit then sizes[k] else 0) + SumAtMost(sizes, keys - {k}, limit)
    decreases keys
  {
    var j :| j in keys && SumAtMost(sizes, keys, limit)
      == (if sizes[j] <= limit then sizes[j] else 0) + SumAtMost(sizes, keys - {j}, limit);
    if j != k {
      SumAtMostPick(sizes, keys - {j}, limit, k);
      SumAtMostPick(sizes, keys - {k}, limit, j);
      assert keys - {j} - {k} == keys - {k} - {j};
    }
  }

  /** Every directory counted is at most the limit, so the sum is at most
      the limit times the number of directories. */
  lemma {:induction false} SumAtMostBound(sizes: map<Path, nat>, keys: set<Path>, limit: nat)
    requires keys <= sizes.Keys
    ensures SumAtMost(sizes, keys, limit) <= limit * |keys|
    decreases keys
  {
    if keys != {} {
      var k :| k in keys;
      var rest := keys - {k};
      SumAtMostPick(sizes, keys, limit, k);
      SumAtMostBound(sizes, rest, limit);
      assert |keys| == |rest| + 1;
      MulSucc(limit, |rest|);
    }
  }

  lemma MulSucc(a: nat, n: nat)
    ensures a * (n + 1) == a * n + a
  {
  }

  /** Directories above the limit add nothing. */
  lemma {:induction false} SumAtMostNone(sizes: map<Path, nat>, keys: set<Path>, limit: nat)
    requires keys <= sizes.Keys && forall k | k in keys :: sizes[k] > limit
    ensures SumAtMost(sizes, keys, limit) == 0
    decreases keys
  {
    if keys != {} {
      var k :| k in keys;
      SumAtMostPick(sizes, keys, limit, k);
      SumAtMostNone(sizes, keys - {k}, limit);
    }
  }

  /** `part1`: the sizes of at most 100000, summed over every directory;
      an error of `dir_sizes` is passed on. */
  method Part1(g: seq<Line>) returns (r: Result<nat>)
    ensures r.Ok? <==> DirSizesOf(g).Ok?
    ensures r.Err? ==> r.error == DirSizesOf(g).error
    ensures r.Ok? ==> r.value == SumAtMost(DirSizesOf(g).value, DirSizesOf(g).value.Keys, 100_000)
  {
    var res := DirSizes(g);
    if res.Err? {
      return Err(res.error);
    }
    var sizes := res.value;
    var keys := sizes.Keys;
    var total := 0;
    while keys != {}
      invariant keys <= sizes.Keys
      invariant total + SumAtMost(sizes, keys, 100_000) == SumAtMost(sizes, sizes.Keys, 100_000)
      decreases keys
    {
      var k :| k in keys;
      SumAtMostPick(sizes, keys, 100_000, k);
      if sizes[k] <= 100_000 {
        total := total + sizes[k];
      }
      keys := keys - {k};
    }
    return Ok(total);
  }

  /** The smallest size of at least `need` among the directories in `keys`. */
  ghost function MinAtLeast(sizes: map<Path, nat>, keys: set<Path>, need: int): (r: Option<nat>)
    requires keys <= sizes.Keys
    ensures r.None? <==> forall k | k in keys :: sizes[k] < need
    ensures r.Some? ==> need <= r.value
                        && (exists k | k in keys :: sizes[k] == r.value)
                        && forall k | k in keys && need <= sizes[k] :: r.value <= sizes[k]
    decreases keys
  {
    if keys == {} then None
    else
      var k :| k in keys;
      var rest := MinAtLeast(sizes, keys - {k}, need);
      if sizes[k] < need then rest
      else if rest.Some? && rest.value < sizes[k] then rest
      else Some(sizes[k])
  }

  /** The disk holds 70000000 and the update needs 30000000 free. */
  const DiskSize: nat := 70_000_000
  const UpdateSize: nat := 30_000_000

  /** `part2`: the smallest directory whose removal frees enough space for
      the update. The source indexes the root entry and subtracts in `usize`,
      so it needs a root entry with a size between `DiskSize - UpdateSize`
      and `DiskSize`. */
  method Part2(g: seq<Line>) returns (r: Result<nat>)
    requires DirSizesOf(g).Ok? ==> [] in DirSizesOf(g).value
                                   && DiskSize - UpdateSize <= DirSizesOf(g).value[[]] <= DiskSize
    ensures DirSizesOf(g).Err? ==> r == Err(DirSizesOf(g).error)
    ensures DirSizesOf(g).Ok? ==>
      var sizes := DirSizesOf(g).value;
      var need := UpdateSize - (DiskSize - sizes[[]]);
      (r.Err? <==> forall k | k in sizes :: sizes[k] < need)
      && (r.Err? ==> r.error == "no dir with enough size")
      && (r.Ok? ==> need <= r.value
                    && (exists k | k in sizes :: sizes[k] == r.value)
                    && forall k | k in sizes && need <= sizes[k] :: r.value <= sizes[k])
  {
    var res := DirSizes(g);
    if res.Err? {
      return Err(res.error);
    }
    var sizes := res.value;
    var freeSpace := DiskSize - sizes[[]];
    var minSize := UpdateSize - freeSpace;
    var keys := sizes.Keys;
    var best: Option<nat> := None;
    while keys != {}
      invariant keys <= sizes.Keys
      invariant best.None? <==> forall k | k in sizes.Keys - keys :: sizes[k] < minSize
      invariant best.Some? ==> minSize <= best.value
                               && (exists k | k in sizes.Keys - keys :: sizes[k] == best.value)
                               && forall k | k in sizes.Keys - keys && minSize <= sizes[k] :: best.value <= sizes[k]
      decreases keys
    {
      var k :| k in keys;
      if minSize <= sizes[k] && (best.None? || sizes[k] < best.value) {
        best := Some(sizes[k]);
      }
      keys := keys - {k};
    }
    if best.None? {
      return Err("no dir with enough size");
    }
    return Ok(best.value);
  }
}
