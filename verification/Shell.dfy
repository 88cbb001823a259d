/** user/sh.c: the shell's grammar. What the recursive-descent parsers compute, as functions of the input and
    the position of the cursor; and that printing a command and parsing it gives it back. */
module Shell {

  /** A word of the input, by position. */
  datatype Tok = Tok(q: nat, eq: nat)

  /** A command, whose words are given by position, or by their text. */
  datatype Cmd<T> =
    | Exec(argv: seq<T>)
    | Redir(cmd: Cmd<T>, file: T, mode: nat, fd: nat)
    | Pipe(left: Cmd<T>, right: Cmd<T>)
    | List(left: Cmd<T>, right: Cmd<T>)
    | Back(cmd: Cmd<T>)

  /** What a parser leaves: a command and the cursor, or panic. */
  datatype Parse = Ok(cmd: Cmd<Tok>, s: nat) | Panic

  /** What gettoken leaves. */
  datatype Token = Token(kind: char, q: nat, eq: nat, s: nat)

  datatype Redirection = Redirection(file: Tok, mode: nat, fd: nat)
  datatype Redirs = Redirs(list: seq<Redirection>, s: nat) | RedirPanic

  const MAXARGS := 10
  const O_RDONLY: nat := 0
  const O_WRONLY: nat := 1
  const O_CREATE: nat := 0x200
  const O_TRUNC: nat := 0x400

  // ---- tokens ----

  predicate IsSpace(c: char) {
    c == ' ' || c == '\t' || c == '\r' || c == '\n' || c == '\U{0B}'
  }

  predicate IsSymbol(c: char) {
    c == '<' || c == '|' || c == '>' || c == '&' || c == ';' || c == '(' || c == ')'
  }

  predicate IsWordChar(c: char) {
    c != '\0' && !IsSpace(c) && !IsSymbol(c)
  }

  /** The input is a C string: the character at its end is NUL, and no other is. */
  predicate IsInput(buf: string) {
    forall i :: 0 <= i < |buf| ==> buf[i] != '\0'
  }

  function At(buf: string, s: nat): char {
    if s < |buf| then buf[s] else '\0'
  }

  function SkipSpace(buf: string, s: nat): (r: nat)
    requires s <= |buf|
    ensures s <= r <= |buf| && !IsSpace(At(buf, r)) && forall i :: s <= i < r ==> IsSpace(buf[i])
    decreases |buf| - s
  {
    if s < |buf| && IsSpace(buf[s]) then SkipSpace(buf, s + 1) else s
  }

  function SkipWord(buf: string, s: nat): (r: nat)
    requires s <= |buf|
    ensures s <= r <= |buf| && !IsWordChar(At(buf, r)) && forall i :: s <= i < r ==> IsWordChar(buf[i])
    decreases |buf| - s
  {
    if s < |buf| && IsWordChar(buf[s]) then SkipWord(buf, s + 1) else s
  }

  /** A maximal run of word characters. */
  predicate IsWord(buf: string, t: Tok) {
    && t.q < t.eq <= |buf| && (forall i :: t.q <= i < t.eq ==> IsWordChar(buf[i]))
    && !IsWordChar(At(buf, t.eq))
  }

  function GetToken(buf: string, s: nat): (t: Token)
    requires s <= |buf| && IsInput(buf)
    ensures s <= t.q <= t.eq <= t.s <= |buf|
    ensures t.kind == '\0' <==> t.q == |buf|
    ensures t.kind != '\0' ==> t.q < t.eq
    ensures t.kind == 'a' ==> IsWord(buf, Tok(t.q, t.eq))
  {
    var q := SkipSpace(buf, s);
    var c := At(buf, q);
    if c == '\0' then Token(c, q, q, q)
    else if c == '>' then
      if At(buf, q + 1) == '>' then Token('+', q, q + 2, SkipSpace(buf, q + 2))
      else Token('>', q, q + 1, SkipSpace(buf, q + 1))
    else if IsSymbol(c) then Token(c, q, q + 1, SkipSpace(buf, q + 1))
    else var eq := SkipWord(buf, q); Token('a', q, eq, SkipSpace(buf, eq))
  }

  /** peek: does the next token start with one of these characters? */
  predicate Peek(buf: string, s: nat, toks: string)
    requires s <= |buf|
  {
    var c := At(buf, SkipSpace(buf, s));
    c != '\0' && c in toks
  }

  /** The cursor behind the token that peek has seen. */
  function Past(buf: string, s: nat, toks: string): (r: nat)
    requires s <= |buf| && IsInput(buf) && Peek(buf, s, toks)
    ensures s < r <= |buf|
  {
    GetToken(buf, s).s
  }

  // ---- parsers ----

  function Mode(kind: char): nat {
    if kind == '<' then O_RDONLY else if kind == '>' then O_WRONLY + O_CREATE + O_TRUNC else O_WRONLY + O_CREATE
  }

  function Fd(kind: char): nat {
    if kind == '<' then 0 else 1
  }

  ghost predicate RedirsOk(buf: string, s: nat, r: Redirs) {
    r.Redirs? ==> s <= r.s <= |buf| && !IsSpace(At(buf, r.s)) && forall x :: x in r.list ==> RedirOk(buf, x)
  }

  /** The ways a redirection opens its file: for reading as standard input, and for writing as standard output,
      made if need be, from the start or, for `>>`, keeping what is there. */
  predicate IsOpening(mode: nat, fd: nat) {
    (mode == 0 && fd == 0) || (mode == 0x601 && fd == 1) || (mode == 0x201 && fd == 1)
  }

  predicate RedirOk(buf: string, x: Redirection) {
    IsWord(buf, x.file) && IsOpening(x.mode, x.fd)
  }

  function ParseRedirs(buf: string, s: nat): (r: Redirs)
    requires s <= |buf| && IsInput(buf)
    ensures RedirsOk(buf, s, r)
    decreases |buf| - s
  {
    if !Peek(buf, s, "<>") then Redirs([], SkipSpace(buf, s))
    else
      var op := GetToken(buf, s);
      var word := GetToken(buf, op.s);
      if word.kind != 'a' then RedirPanic
      else
        var rest := ParseRedirs(buf, word.s);
        if rest == RedirPanic then RedirPanic
        else Redirs([Redirection(Tok(word.q, word.eq), Mode(op.kind), Fd(op.kind))] + rest.list, rest.s)
  }

  /** Redirections wrap a command, the last one outermost. */
  function Wrap(cmd: Cmd<Tok>, list: seq<Redirection>): Cmd<Tok>
    decreases |list|
  {
    if list == [] then cmd else Wrap(Redir(cmd, list[0].file, list[0].mode, list[0].fd), list[1..])
  }

  /** What the parsers can build from an input: every name is a word of it, there are fewer than MAXARGS
      arguments, and every redirection is one of the three kinds. */
  ghost predicate Built(buf: string, cmd: Cmd<Tok>) {
    match cmd
    case Exec(argv) => |argv| < MAXARGS && forall t :: t in argv ==> IsWord(buf, t)
    case Redir(c, file, mode, fd) => Built(buf, c) && RedirOk(buf, Redirection(file, mode, fd))
    case Pipe(l, r) => Built(buf, l) && Built(buf, r)
    case List(l, r) => Built(buf, l) && Built(buf, r)
    case Back(c) => Built(buf, c)
  }

  lemma {:induction false} WrapBuilt(buf: string, cmd: Cmd<Tok>, list: seq<Redirection>)
    requires Built(buf, cmd) && forall x :: x in list ==> RedirOk(buf, x)
    ensures Built(buf, Wrap(cmd, list))
    decreases |list|
  {
    if list != [] {
      assert list[0] in list;
      WrapBuilt(buf, Redir(cmd, list[0].file, list[0].mode, list[0].fd), list[1..]);
    }
  }

  /** A parser's result: a command built from the input, and the cursor further on, not at white space. */
  ghost predicate Parsed(buf: string, s: nat, r: Parse) {
    r.Ok? ==> s <= r.s <= |buf| && !IsSpace(At(buf, r.s)) && Built(buf, r.cmd)
  }

  ghost predicate ArgsOk(buf: string, argv: seq<Tok>, list: seq<Redirection>) {
    |argv| < MAXARGS && (forall t :: t in argv ==> IsWord(buf, t)) && forall x :: x in list ==> RedirOk(buf, x)
  }

  lemma ArgsMore(buf: string, argv: seq<Tok>, list: seq<Redirection>, t: Tok, s: nat, rs: Redirs)
    requires ArgsOk(buf, argv, list) && IsWord(buf, t) && |argv| + 1 < MAXARGS && rs.Redirs? && RedirsOk(buf, s, rs)
    ensures ArgsOk(buf, argv + [t], list + rs.list)
  {
  }

  /** parseexec's loop, with the arguments and redirections so far. */
  function ExecLoop(buf: string, argv: seq<Tok>, list: seq<Redirection>, s: nat): (r: Parse)
    requires s <= |buf| && IsInput(buf) && ArgsOk(buf, argv, list)
    ensures Parsed(buf, s, r)
    decreases |buf| - s
  {
    var t := GetToken(buf, s);
    if Peek(buf, s, "|)&;") || t.kind == '\0' then
      WrapBuilt(buf, Exec(argv), list);
      Ok(Wrap(Exec(argv), list), SkipSpace(buf, s))
    else if t.kind != 'a' || |argv| + 1 >= MAXARGS then Panic
    else
      var rs := ParseRedirs(buf, t.s);
      if rs == RedirPanic then Panic
      else
        ArgsMore(buf, argv, list, Tok(t.q, t.eq), t.s, rs);
        ExecLoop(buf, argv + [Tok(t.q, t.eq)], list + rs.list, rs.s)
  }

  function ParseExec(buf: string, s: nat): (r: Parse)
    requires s <= |buf| && IsInput(buf)
    ensures Parsed(buf, s, r)
    decreases |buf| - s, 1
  {
    if Peek(buf, s, "(") then ParseBlock(buf, s)
    else
      var rs := ParseRedirs(buf, s);
      if rs == RedirPanic then Panic else ExecLoop(buf, [], rs.list, rs.s)
  }

  function ParseBlock(buf: string, s: nat): (r: Parse)
    requires s <= |buf| && IsInput(buf)
    ensures Parsed(buf, s, r)
    decreases |buf| - s, 0
  {
    if !Peek(buf, s, "(") then Panic
    else
      var line := ParseLine(buf, Past(buf, s, "("));
      if line == Panic || !Peek(buf, line.s, ")") then Panic
      else
        var rs := ParseRedirs(buf, Past(buf, line.s, ")"));
        if rs == RedirPanic then Panic
        else
          WrapBuilt(buf, line.cmd, rs.list);
          Ok(Wrap(line.cmd, rs.list), rs.s)
  }

  function ParsePipe(buf: string, s: nat): (r: Parse)
    requires s <= |buf| && IsInput(buf)
    ensures Parsed(buf, s, r)
    decreases |buf| - s, 2
  {
    hide RedirOk, IsWord, IsSpace;
    var left := ParseExec(buf, s);
    if left == Panic then Panic
    else if !Peek(buf, left.s, "|") then left
    else
      var right := ParsePipe(buf, Past(buf, left.s, "|"));
      if right == Panic then Panic else Ok(Pipe(left.cmd, right.cmd), right.s)
  }

  /** parseline's loop over ampersands. */
  function ParseBacks(buf: string, cmd: Cmd<Tok>, s: nat): (r: Parse)
    requires s <= |buf| && IsInput(buf)
    ensures r.Ok? && (Built(buf, cmd) ==> Parsed(buf, s, r))
    decreases |buf| - s
  {
    if Peek(buf, s, "&") then ParseBacks(buf, Back(cmd), Past(buf, s, "&")) else Ok(cmd, SkipSpace(buf, s))
  }

  function ParseLine(buf: string, s: nat): (r: Parse)
    requires s <= |buf| && IsInput(buf)
    ensures Parsed(buf, s, r)
    decreases |buf| - s, 3
  {
    var first := ParsePipe(buf, s);
    if first == Panic then Panic
    else
      var left := ParseBacks(buf, first.cmd, first.s);
      if !Peek(buf, left.s, ";") then left
      else
        var right := ParseLine(buf, Past(buf, left.s, ";"));
        if right == Panic then Panic else Ok(List(left.cmd, right.cmd), right.s)
  }

  /** parsecmd: the whole input is one line. */
  function ParseCmd(buf: string): (r: Parse)
    requires IsInput(buf)
    ensures Parsed(buf, 0, r) && (r.Ok? ==> r.s == |buf|)
  {
    var r := ParseLine(buf, 0);
    if r == Panic || r.s != |buf| then Panic else r
  }

  // ---- printing and parsing ----

  function TextOf(buf: string, t: Tok): string {
    if t.q <= t.eq <= |buf| then buf[t.q..t.eq] else ""
  }

  function Texts(buf: string, argv: seq<Tok>): seq<string> {
    if argv == [] then [] else [TextOf(buf, argv[0])] + Texts(buf, argv[1..])
  }

  /** The command with its words spelled out. */
  function Text(buf: string, cmd: Cmd<Tok>): Cmd<string> {
    match cmd
    case Exec(argv) => Exec(Texts(buf, argv))
    case Redir(c, file, mode, fd) => Redir(Text(buf, c), TextOf(buf, file), mode, fd)
    case Pipe(l, r) => Pipe(Text(buf, l), Text(buf, r))
    case List(l, r) => List(Text(buf, l), Text(buf, r))
    case Back(c) => Back(Text(buf, c))
  }

  predicate IsWordText(w: string) {
    w != "" && forall i :: 0 <= i < |w| ==> IsWordChar(w[i])
  }

  /** The commands the parsers can produce. */
  predicate Printable(cmd: Cmd<string>) {
    match cmd
    case Exec(argv) => |argv| < MAXARGS && forall w :: w in argv ==> IsWordText(w)
    case Redir(c, file, mode, fd) =>
      Printable(c) && IsWordText(file) && IsOpening(mode, fd)
    case Pipe(l, r) => Printable(l) && Printable(r)
    case List(l, r) => Printable(l) && Printable(r)
    case Back(c) => Printable(c)
  }

  function PrintArgs(argv: seq<string>): string {
    if argv == [] then "" else argv[0] + " " + PrintArgs(argv[1..])
  }

  function Operator(mode: nat): string {
    if mode == 0 then "<" else if mode == 0x601 then ">" else ">>"
  }

  /** Every command inside another one is put in parentheses. */
  function Print(cmd: Cmd<string>): string
    decreases cmd, 0
  {
    match cmd
    case Exec(argv) => PrintArgs(argv)
    case Redir(c, file, mode, fd) => Paren(c) + Operator(mode) + file
    case Pipe(l, r) => Paren(l) + "|" + Paren(r)
    case List(l, r) => Paren(l) + ";" + Paren(r)
    case Back(c) => Paren(c) + "&"
  }

  function Paren(cmd: Cmd<string>): string
    decreases cmd, 1
  {
    "(" + Print(cmd) + ")"
  }

  ghost predicate HasAt(buf: string, s: nat, text: string) {
    s + |text| <= |buf| && forall i :: 0 <= i < |text| ==> buf[s + i] == text[i]
  }

  lemma HasParts(buf: string, s: nat, a: string, b: string)
    requires HasAt(buf, s, a + b)
    ensures HasAt(buf, s, a) && HasAt(buf, s + |a|, b)
  {
    forall i | 0 <= i < |a| ensures buf[s + i] == a[i] {
      assert (a + b)[i] == a[i];
    }
    forall i | 0 <= i < |b| ensures buf[s + |a| + i] == b[i] {
      assert (a + b)[|a| + i] == b[i];
    }
  }

  /** A command is followed by a closing parenthesis or by nothing. */
  predicate AtEnd(buf: string, s: nat) {
    At(buf, s) == ')' || At(buf, s) == '\0'
  }

  /** Reading the symbol the cursor is at. */
  lemma Symbol(buf: string, s: nat)
    requires IsInput(buf) && s < |buf| && IsSymbol(buf[s]) && buf[s] != '>'
    requires !IsSpace(At(buf, s + 1))
    ensures SkipSpace(buf, s) == s && GetToken(buf, s) == Token(buf[s], s, s + 1, s + 1)
  {
  }

  /** Reading the word the cursor is at, and the blank behind it if there is one. */
  lemma Word(buf: string, s: nat, w: string)
    requires IsInput(buf) && IsWordText(w) && HasAt(buf, s, w) && !IsWordChar(At(buf, s + |w|))
    requires At(buf, s + |w|) == ' ' ==> !IsSpace(At(buf, s + |w| + 1))
    requires IsSpace(At(buf, s + |w|)) ==> At(buf, s + |w|) == ' '
    ensures SkipSpace(buf, s) == s && TextOf(buf, Tok(s, s + |w|)) == w
    ensures GetToken(buf, s) ==
            Token('a', s, s + |w|, if At(buf, s + |w|) == ' ' then s + |w| + 1 else s + |w|)
  {
    assert buf[s + 0] == w[0];
    forall i | s <= i < s + |w| ensures IsWordChar(buf[i]) {
      assert buf[s + (i - s)] == w[i - s];
    }
    WordEnds(buf, s, s + |w|);
    assert buf[s..s + |w|] == w;
  }

  lemma {:induction false} WordEnds(buf: string, s: nat, e: nat)
    requires s <= e <= |buf| && !IsWordChar(At(buf, e)) && forall i :: s <= i < e ==> IsWordChar(buf[i])
    ensures SkipWord(buf, s) == e
    decreases e - s
  {
    if s < e {
      WordEnds(buf, s + 1, e);
    }
  }

  lemma HasChar(buf: string, s: nat, c: char)
    requires HasAt(buf, s, [c])
    ensures At(buf, s) == c && s < |buf|
  {
    assert buf[s + 0] == [c][0];
  }

  lemma NoRedirs(buf: string, s: nat)
    requires IsInput(buf) && s <= |buf| && !IsSpace(At(buf, s)) && At(buf, s) !in "<>"
    ensures SkipSpace(buf, s) == s && ParseRedirs(buf, s) == Redirs([], s)
  {
  }

  lemma ArgsEnd(buf: string, s: nat, argv: seq<Tok>)
    requires IsInput(buf) && s <= |buf| && AtEnd(buf, s) && ArgsOk(buf, argv, [])
    ensures ExecLoop(buf, argv, [], s) == Ok(Exec(argv), s)
  {
  }

  lemma LoopStep(buf: string, s: nat, argv: seq<Tok>, t: Token, list: seq<Redirection>)
    requires IsInput(buf) && s <= |buf| && ArgsOk(buf, argv, list) && |argv| + 1 < MAXARGS
    requires !Peek(buf, s, "|)&;") && GetToken(buf, s) == t && t.kind == 'a' && ParseRedirs(buf, t.s) == Redirs([], t.s)
    ensures t.s <= |buf| && ArgsOk(buf, argv + [Tok(t.q, t.eq)], list)
    ensures ExecLoop(buf, argv, list, s) == ExecLoop(buf, argv + [Tok(t.q, t.eq)], list, t.s)
  {
    hide GetToken, Peek, ParseRedirs, SkipSpace, Parsed, Wrap, IsWord, IsInput, RedirOk;
    assert list + [] == list;
  }

  /** A round of parseexec's loop: a word and a blank, and no redirection behind it. */
  lemma ArgStep(buf: string, s: nat, argv: seq<Tok>, w: string)
    requires IsInput(buf) && IsWordText(w) && HasAt(buf, s, w) && At(buf, s + |w|) == ' '
    requires !IsSpace(At(buf, s + |w| + 1)) && At(buf, s + |w| + 1) !in "<>"
    requires ArgsOk(buf, argv, []) && |argv| + 1 < MAXARGS
    ensures s + |w| + 1 <= |buf| && TextOf(buf, Tok(s, s + |w|)) == w && ArgsOk(buf, argv + [Tok(s, s + |w|)], [])
    ensures ExecLoop(buf, argv, [], s) == ExecLoop(buf, argv + [Tok(s, s + |w|)], [], s + |w| + 1)
  {
    hide ExecLoop, ParseRedirs, ArgsOk;
    Word(buf, s, w);
    assert buf[s + 0] == w[0];
    NoRedirs(buf, s + |w| + 1);
    assert !Peek(buf, s, "|)&;");
    LoopStep(buf, s, argv, GetToken(buf, s), []);
  }

  lemma {:induction false} ArgsPrinted(buf: string, s: nat, argv: seq<Tok>, rest: seq<string>)
    requires IsInput(buf) && HasAt(buf, s, PrintArgs(rest)) && AtEnd(buf, s + |PrintArgs(rest)|)
    requires ArgsOk(buf, argv, []) && |argv| + |rest| < MAXARGS && forall w :: w in rest ==> IsWordText(w)
    ensures var r := ExecLoop(buf, argv, [], s);
            && r.Ok? && r.s == s + |PrintArgs(rest)| && r.cmd.Exec? && |r.cmd.argv| == |argv| + |rest|
            && r.cmd.argv[..|argv|] == argv && Texts(buf, r.cmd.argv[|argv|..]) == rest
    decreases |rest|
  {
    hide ExecLoop, At, IsInput, ArgsOk;
    if rest == [] {
      ArgsEnd(buf, s, argv);
    } else {
      var w, tail := rest[0], PrintArgs(rest[1..]);
      assert PrintArgs(rest) == w + (" " + tail);
      HasParts(buf, s, w, " " + tail);
      HasParts(buf, s + |w|, " ", tail);
      HasChar(buf, s + |w|, ' ');
      var e := s + |w| + 1;
      ArgStarts(buf, e, rest[1..]);
      ArgStep(buf, s, argv, w);
      var t := Tok(s, s + |w|);
      hide HasAt;
      ArgsPrinted(buf, e, argv + [t], rest[1..]);
      ArgvParts(buf, ExecLoop(buf, argv + [t], [], e).cmd.argv, argv, t, rest);
    }
  }

  lemma ArgvParts(buf: string, all: seq<Tok>, argv: seq<Tok>, t: Tok, rest: seq<string>)
    requires rest != [] && |all| == |argv| + |rest| && all[..|argv| + 1] == argv + [t]
    requires TextOf(buf, t) == rest[0] && Texts(buf, all[|argv| + 1..]) == rest[1..]
    ensures all[..|argv|] == argv && Texts(buf, all[|argv|..]) == rest
  {
    assert all[|argv|] == all[..|argv| + 1][|argv|] == t;
    assert all[|argv|..][1..] == all[|argv| + 1..];
    assert all[..|argv|] == all[..|argv| + 1][..|argv|];
  }

  /** Behind a printed argument comes another one, or the end. */
  lemma ArgStarts(buf: string, s: nat, rest: seq<string>)
    requires HasAt(buf, s, PrintArgs(rest)) && AtEnd(buf, s + |PrintArgs(rest)|)
    requires forall w :: w in rest ==> IsWordText(w)
    ensures rest != [] ==> IsWordChar(At(buf, s))
    ensures rest == [] ==> AtEnd(buf, s)
    ensures !IsSpace(At(buf, s)) && At(buf, s) !in "<>"
  {
    if rest != [] {
      assert rest[0] in rest;
      assert PrintArgs(rest)[0] == rest[0][0];
      assert buf[s + 0] == PrintArgs(rest)[0];
    }
  }

  // ---- one step of each parser ----

  lemma ExecStep(buf: string, s: nat)
    requires IsInput(buf) && s <= |buf| && !Peek(buf, s, "(") && ParseRedirs(buf, s) == Redirs([], s)
    ensures ArgsOk(buf, [], []) && ParseExec(buf, s) == ExecLoop(buf, [], [], s)
  {
    hide Peek, ParseRedirs, ExecLoop, ParseBlock, Parsed, RedirsOk;
  }

  lemma BlockStep(buf: string, s: nat, line: Parse, rs: Redirs)
    requires IsInput(buf) && s <= |buf| && Peek(buf, s, "(") && ParseLine(buf, Past(buf, s, "(")) == line && line.Ok?
    requires line.s <= |buf| && Peek(buf, line.s, ")") && ParseRedirs(buf, Past(buf, line.s, ")")) == rs && rs.Redirs?
    ensures ParseExec(buf, s) == Ok(Wrap(line.cmd, rs.list), rs.s)
  {
    hide Peek, ParseRedirs, ExecLoop, ParseLine, Parsed, RedirsOk, Past, Wrap, IsInput;
  }

  lemma PipeEnd(buf: string, s: nat, left: Parse)
    requires IsInput(buf) && s <= |buf| && ParseExec(buf, s) == left && left.Ok? && !Peek(buf, left.s, "|")
    ensures ParsePipe(buf, s) == left
  {
    hide Peek, ParseExec, Parsed, IsInput;
  }

  lemma PipeStep(buf: string, s: nat, left: Parse, right: Parse)
    requires IsInput(buf) && s <= |buf| && ParseExec(buf, s) == left && left.Ok? && left.s <= |buf|
    requires Peek(buf, left.s, "|") && ParsePipe(buf, Past(buf, left.s, "|")) == right && right.Ok?
    ensures ParsePipe(buf, s) == Ok(Pipe(left.cmd, right.cmd), right.s)
  {
    hide Peek, ParseExec, Parsed, IsInput, Past;
  }

  lemma LineEnd(buf: string, s: nat, first: Parse, left: Parse)
    requires IsInput(buf) && s <= |buf| && ParsePipe(buf, s) == first && first.Ok? && first.s <= |buf|
    requires ParseBacks(buf, first.cmd, first.s) == left && !Peek(buf, left.s, ";")
    ensures ParseLine(buf, s) == left
  {
    hide Peek, ParsePipe, ParseBacks, Parsed, IsInput;
  }

  lemma LineStep(buf: string, s: nat, first: Parse, left: Parse, right: Parse)
    requires IsInput(buf) && s <= |buf| && ParsePipe(buf, s) == first && first.Ok? && first.s <= |buf|
    requires ParseBacks(buf, first.cmd, first.s) == left && left.Ok? && left.s <= |buf|
    requires Peek(buf, left.s, ";") && ParseLine(buf, Past(buf, left.s, ";")) == right && right.Ok?
    ensures ParseLine(buf, s) == Ok(List(left.cmd, right.cmd), right.s)
  {
    hide Peek, ParsePipe, ParseBacks, Parsed, IsInput, Past;
  }

  lemma BacksEnd(buf: string, cmd: Cmd<Tok>, s: nat)
    requires IsInput(buf) && s <= |buf| && !Peek(buf, s, "&")
    ensures ParseBacks(buf, cmd, s) == Ok(cmd, SkipSpace(buf, s))
  {
    hide Peek, Parsed, IsInput, SkipSpace;
  }

  lemma BacksStep(buf: string, cmd: Cmd<Tok>, s: nat)
    requires IsInput(buf) && s <= |buf| && Peek(buf, s, "&")
    ensures ParseBacks(buf, cmd, s) == ParseBacks(buf, Back(cmd), Past(buf, s, "&"))
  {
    hide Peek, Parsed, IsInput, SkipSpace, Past;
  }

  lemma RedirStep(buf: string, s: nat, op: Token, word: Token)
    requires IsInput(buf) && s <= |buf| && Peek(buf, s, "<>") && GetToken(buf, s) == op && op.s <= |buf|
    requires GetToken(buf, op.s) == word && word.kind == 'a' && ParseRedirs(buf, word.s) == Redirs([], word.s)
    ensures ParseRedirs(buf, s) == Redirs([Redirection(Tok(word.q, word.eq), Mode(op.kind), Fd(op.kind))], word.s)
  {
    hide Peek, GetToken, RedirsOk, IsInput, SkipSpace, Mode, Fd;
    var r := Redirection(Tok(word.q, word.eq), Mode(op.kind), Fd(op.kind));
    assert [r] + [] == [r];
  }

  // ---- the printed command, piece by piece ----

  /** At the end of a command no parser goes on. */
  lemma EndsHere(buf: string, e: nat)
    requires IsInput(buf) && e <= |buf| && AtEnd(buf, e)
    ensures SkipSpace(buf, e) == e && !IsSpace(At(buf, e)) && At(buf, e) !in "<>"
    ensures !Peek(buf, e, "|") && !Peek(buf, e, "&") && !Peek(buf, e, ";")
  {
  }

  /** At a symbol, exactly that symbol is seen, and the cursor moves past it. */
  lemma SymbolHere(buf: string, e: nat, c: char)
    requires IsInput(buf) && At(buf, e) == c && IsSymbol(c) && c != '<' && c != '>' && !IsSpace(At(buf, e + 1))
    ensures e < |buf| && SkipSpace(buf, e) == e && !IsSpace(At(buf, e)) && At(buf, e) !in "<>"
    ensures forall d :: Peek(buf, e, [d]) <==> c == d
    ensures Past(buf, e, [c]) == e + 1
  {
    Symbol(buf, e);
    assert forall d :: c in [d] <==> c == d;
  }

  /** A command that ends here is a line. */
  lemma ExecIsLine(buf: string, s: nat, r: Parse)
    requires IsInput(buf) && s <= |buf| && ParseExec(buf, s) == r && r.Ok? && AtEnd(buf, r.s)
    ensures ParsePipe(buf, s) == r && ParseLine(buf, s) == r
  {
    hide ParseExec, ParsePipe, ParseLine, ParseBacks, Peek, At, SkipSpace, IsInput;
    EndsHere(buf, r.s);
    PipeEnd(buf, s, r);
    BacksEnd(buf, r.cmd, r.s);
    LineEnd(buf, s, r, r);
  }

  /** A printed command does not start with white space. */
  lemma PrintStarts(buf: string, s: nat, c: Cmd<string>)
    requires Printable(c) && HasAt(buf, s, Print(c)) && AtEnd(buf, s + |Print(c)|)
    ensures !IsSpace(At(buf, s))
  {
    if c.Exec? {
      ArgStarts(buf, s, c.argv);
    } else {
      assert Print(c)[0] == '(';
      assert buf[s + 0] == '(';
    }
  }

  lemma {:induction false} ParenPrinted(buf: string, s: nat, c: Cmd<string>, rs: Redirs) returns (cmd: Cmd<Tok>)
    requires IsInput(buf) && Printable(c) && HasAt(buf, s, Paren(c)) && !IsSpace(At(buf, s + |Paren(c)|))
    requires ParseRedirs(buf, s + |Paren(c)|) == rs && rs.Redirs?
    ensures Text(buf, cmd) == c && ParseExec(buf, s) == Ok(Wrap(cmd, rs.list), rs.s)
    decreases c, 3
  {
    hide Print, Paren, HasAt, ParseLine, ParseRedirs, ParseExec, Peek, Past, SkipSpace, Wrap, IsInput, At, Printable;
    ParenParts(buf, s, c);
    SymbolHere(buf, s, '(');
    LinePrinted(buf, s + 1, c);
    var line := ParseLine(buf, s + 1);
    SymbolHere(buf, line.s, ')');
    BlockStep(buf, s, line, rs);
    cmd := line.cmd;
  }

  lemma ParenParts(buf: string, s: nat, c: Cmd<string>)
    requires Printable(c) && HasAt(buf, s, Paren(c))
    ensures |Paren(c)| == |Print(c)| + 2 && HasAt(buf, s + 1, Print(c)) && !IsSpace(At(buf, s + 1))
    ensures At(buf, s) == '(' && At(buf, s + 1 + |Print(c)|) == ')'
  {
    var p := Print(c);
    assert Paren(c) == "(" + (p + ")");
    hide Print;
    HasParts(buf, s, "(", p + ")");
    HasParts(buf, s + 1, p, ")");
    HasChar(buf, s, '(');
    HasChar(buf, s + 1 + |p|, ')');
    PrintStarts(buf, s + 1, c);
  }

  /** A command in parentheses that nothing redirects. */
  lemma {:induction false} ParenAlone(buf: string, s: nat, c: Cmd<string>) returns (cmd: Cmd<Tok>)
    requires IsInput(buf) && Printable(c) && HasAt(buf, s, Paren(c)) && !IsSpace(At(buf, s + |Paren(c)|))
    requires At(buf, s + |Paren(c)|) !in "<>"
    ensures Text(buf, cmd) == c && ParseExec(buf, s) == Ok(cmd, s + |Paren(c)|)
    decreases c, 4
  {
    var e := s + |Paren(c)|;
    NoRedirs(buf, e);
    cmd := ParenPrinted(buf, s, c, Redirs([], e));
  }

  /** Two commands in parentheses with a symbol between them. */
  lemma TwoParts(buf: string, s: nat, l: string, c: char, r: Cmd<string>)
    requires IsInput(buf) && HasAt(buf, s, l + [c] + Paren(r)) && IsSymbol(c) && c != '<' && c != '>'
    ensures HasAt(buf, s, l) && At(buf, s + |l|) == c && HasAt(buf, s + |l| + 1, Paren(r))
    ensures s + |l| + 1 + |Paren(r)| <= |buf|
    ensures !IsSpace(At(buf, s + |l|)) && At(buf, s + |l|) !in "<>" && !IsSpace(At(buf, s + |l| + 1))
  {
    var t := Paren(r);
    assert t[0] == '(';
    hide Paren;
    assert l + [c] + t == l + ([c] + t);
    HasParts(buf, s, l, [c] + t);
    HasParts(buf, s + |l|, [c], t);
    HasChar(buf, s + |l|, c);
    assert buf[s + |l| + 1 + 0] == t[0];
  }

  lemma {:induction false} PipePrinted(buf: string, s: nat, l: Cmd<string>, r: Cmd<string>)
    requires IsInput(buf) && Printable(l) && Printable(r) && HasAt(buf, s, Paren(l) + "|" + Paren(r))
    requires AtEnd(buf, s + |Paren(l)| + 1 + |Paren(r)|)
    ensures var p := ParseLine(buf, s);
            p.Ok? && p.s == s + |Paren(l)| + 1 + |Paren(r)| && Text(buf, p.cmd) == Pipe(l, r)
    decreases Pipe(l, r), 1
  {
    hide Print, Paren, HasAt, ParseExec, ParsePipe, ParseBacks, ParseLine, Peek, Past, SkipSpace, IsInput, At, AtEnd,
         IsSpace, Printable;
    TwoParts(buf, s, Paren(l), '|', r);
    var e := s + |Paren(l)|;
    var end := e + 1 + |Paren(r)|;
    EndsHere(buf, end);
    SymbolHere(buf, e, '|');
    var left := ParenAlone(buf, s, l);
    var right := ParenAlone(buf, e + 1, r);
    ExecIsLine(buf, e + 1, Ok(right, end));
    PipeStep(buf, s, Ok(left, e), Ok(right, end));
    BacksEnd(buf, Pipe(left, right), end);
    LineEnd(buf, s, Ok(Pipe(left, right), end), Ok(Pipe(left, right), end));
  }

  lemma {:induction false} ListPrinted(buf: string, s: nat, l: Cmd<string>, r: Cmd<string>)
    requires IsInput(buf) && Printable(l) && Printable(r) && HasAt(buf, s, Paren(l) + ";" + Paren(r))
    requires AtEnd(buf, s + |Paren(l)| + 1 + |Paren(r)|)
    ensures var p := ParseLine(buf, s);
            p.Ok? && p.s == s + |Paren(l)| + 1 + |Paren(r)| && Text(buf, p.cmd) == List(l, r)
    decreases List(l, r), 1
  {
    hide Print, Paren, HasAt, ParseExec, ParsePipe, ParseBacks, ParseLine, Peek, Past, SkipSpace, IsInput, At, AtEnd,
         IsSpace, Printable;
    TwoParts(buf, s, Paren(l), ';', r);
    var e := s + |Paren(l)|;
    var end := e + 1 + |Paren(r)|;
    EndsHere(buf, end);
    SymbolHere(buf, e, ';');
    var left := ParenAlone(buf, s, l);
    var right := ParenAlone(buf, e + 1, r);
    ExecIsLine(buf, e + 1, Ok(right, end));
    PipeEnd(buf, s, Ok(left, e));
    BacksEnd(buf, left, e);
    LineStep(buf, s, Ok(left, e), Ok(left, e), Ok(right, end));
  }

  lemma {:induction false} BackPrinted(buf: string, s: nat, c: Cmd<string>)
    requires IsInput(buf) && Printable(c) && HasAt(buf, s, Paren(c) + "&") && AtEnd(buf, s + |Paren(c)| + 1)
    ensures var p := ParseLine(buf, s);
            p.Ok? && p.s == s + |Paren(c)| + 1 && Text(buf, p.cmd) == Back(c)
    decreases Back(c), 1
  {
    HasParts(buf, s, Paren(c), "&");
    var e := s + |Paren(c)|;
    HasChar(buf, e, '&');
    EndsHere(buf, e + 1);
    SymbolHere(buf, e, '&');
    hide Print, Paren, HasAt, ParseExec, ParsePipe, ParseBacks, ParseLine, Peek, Past, SkipSpace, IsInput, At;
    var cmd := ParenAlone(buf, s, c);
    PipeEnd(buf, s, Ok(cmd, e));
    BacksStep(buf, cmd, e);
    BacksEnd(buf, Back(cmd), e + 1);
    LineEnd(buf, s, Ok(cmd, e), Ok(Back(cmd), e + 1));
  }

  /** Reading a printed redirection. */
  lemma RedirHere(buf: string, s: nat, mode: nat, fd: nat, file: string)
    requires IsInput(buf) && IsWordText(file) && HasAt(buf, s, Operator(mode) + file)
    requires IsOpening(mode, fd)
    requires AtEnd(buf, s + |Operator(mode)| + |file|)
    ensures !IsSpace(At(buf, s)) && s <= |buf|
    ensures var q := s + |Operator(mode)|; var e := q + |file|;
            TextOf(buf, Tok(q, e)) == file && ParseRedirs(buf, s) == Redirs([Redirection(Tok(q, e), mode, fd)], e)
  {
    var q := s + |Operator(mode)|;
    var e := q + |file|;
    HasParts(buf, s, Operator(mode), file);
    assert At(buf, q) == file[0] by {
      assert buf[q + 0] == file[0];
    }
    assert !IsWordChar(At(buf, e)) && !IsSpace(At(buf, e));
    assert fd == Fd(if mode == 0 then '<' else '>');
    hide Peek, GetToken, ParseRedirs, SkipSpace, HasAt, IsInput, At, Operator, Mode, AtEnd, TextOf;
    Word(buf, q, file);
    EndsHere(buf, e);
    NoRedirs(buf, e);
    OperatorHere(buf, s, mode);
    RedirStep(buf, s, GetToken(buf, s), GetToken(buf, q));
  }

  lemma OperatorHere(buf: string, s: nat, mode: nat)
    requires IsInput(buf) && HasAt(buf, s, Operator(mode)) && IsWordChar(At(buf, s + |Operator(mode)|))
    requires mode == 0 || mode == 0x601 || mode == 0x201
    ensures s <= |buf| && !IsSpace(At(buf, s)) && Peek(buf, s, "<>")
    ensures var t := GetToken(buf, s);
            t.s == s + |Operator(mode)| && Mode(t.kind) == mode && Fd(t.kind) == Fd(if mode == 0 then '<' else '>')
  {
    var op := Operator(mode);
    assert buf[s + 0] == op[0];
    if |op| == 2 {
      assert buf[s + 1] == op[1];
    }
  }

  lemma {:induction false} RedirPrinted(buf: string, s: nat, c: Cmd<string>, file: string, mode: nat, fd: nat)
    requires IsInput(buf) && Printable(Redir(c, file, mode, fd)) && HasAt(buf, s, Paren(c) + Operator(mode) + file)
    requires AtEnd(buf, s + |Paren(c) + Operator(mode) + file|)
    ensures var p := ParseLine(buf, s);
            p.Ok? && p.s == s + |Paren(c) + Operator(mode) + file| && Text(buf, p.cmd) == Redir(c, file, mode, fd)
    decreases Redir(c, file, mode, fd), 1
  {
    hide Print, Paren, HasAt, ParseExec, ParseLine, ParseRedirs, IsInput, At, Operator, Mode, AtEnd, IsSpace;
    assert Paren(c) + Operator(mode) + file == Paren(c) + (Operator(mode) + file);
    HasParts(buf, s, Paren(c), Operator(mode) + file);
    var q := s + |Paren(c)| + |Operator(mode)|;
    var e := q + |file|;
    RedirHere(buf, s + |Paren(c)|, mode, fd, file);
    var list := [Redirection(Tok(q, e), mode, fd)];
    var cmd := ParenPrinted(buf, s, c, Redirs(list, e));
    assert Wrap(cmd, list) == Redir(cmd, Tok(q, e), mode, fd);
    ExecIsLine(buf, s, Ok(Wrap(cmd, list), e));
  }

  lemma ArgsLine(buf: string, s: nat, argv: seq<string>)
    requires IsInput(buf) && Printable(Exec(argv)) && HasAt(buf, s, PrintArgs(argv)) &&
        AtEnd(buf, s + |PrintArgs(argv)|)
    ensures var p := ParseLine(buf, s);
            p.Ok? && p.s == s + |PrintArgs(argv)| && Text(buf, p.cmd) == Exec(argv)
  {
    ArgStarts(buf, s, argv);
    NoRedirs(buf, s);
    assert !Peek(buf, s, "(");
    hide ExecLoop, ParseExec, ParseLine, ParseRedirs, Peek, At, IsInput, HasAt, PrintArgs;
    ExecStep(buf, s);
    ArgsPrinted(buf, s, [], argv);
    var r := ExecLoop(buf, [], [], s);
    assert r.cmd.argv[0..] == r.cmd.argv;
    ExecIsLine(buf, s, r);
  }

  lemma {:induction false} LinePrinted(buf: string, s: nat, c: Cmd<string>)
    requires IsInput(buf) && Printable(c) && HasAt(buf, s, Print(c)) && AtEnd(buf, s + |Print(c)|)
    ensures var r := ParseLine(buf, s); r.Ok? && r.s == s + |Print(c)| && Text(buf, r.cmd) == c
    decreases c, 2
  {
    hide ParseLine, HasAt, AtEnd, IsInput;
    match c
    case Exec(argv) => ArgsLine(buf, s, argv);
    case Redir(c1, file, mode, fd) => RedirPrinted(buf, s, c1, file, mode, fd);
    case Pipe(l, r) => PipePrinted(buf, s, l, r);
    case List(l, r) => ListPrinted(buf, s, l, r);
    case Back(c1) => BackPrinted(buf, s, c1);
  }

  /** Parsing a printed command gives the command back. */
  lemma PrintParse(c: Cmd<string>)
    requires Printable(c)
    ensures IsInput(Print(c)) && ParseCmd(Print(c)).Ok? && Text(Print(c), ParseCmd(Print(c)).cmd) == c
  {
    var buf := Print(c);
    PrintIsInput(c);
    LinePrinted(buf, 0, c);
  }

  lemma {:induction false} PrintIsInput(c: Cmd<string>)
    requires Printable(c)
    ensures IsInput(Print(c))
  {
    match c
    case Exec(argv) => ArgsInput(argv);
    case Redir(c1, _, _, _) => PrintIsInput(c1);
    case Pipe(l, r) =>
      PrintIsInput(l);
      PrintIsInput(r);
    case List(l, r) =>
      PrintIsInput(l);
      PrintIsInput(r);
    case Back(c1) => PrintIsInput(c1);
  }

  lemma {:induction false} ArgsInput(argv: seq<string>)
    requires forall w :: w in argv ==> IsWordText(w)
    ensures IsInput(PrintArgs(argv))
  {
    if argv != [] {
      assert argv[0] in argv;
      ArgsInput(argv[1..]);
    }
  }

  lemma {:induction false} TextsWords(buf: string, argv: seq<Tok>)
    requires forall t :: t in argv ==> IsWord(buf, t)
    ensures |Texts(buf, argv)| == |argv| && forall w :: w in Texts(buf, argv) ==> IsWordText(w)
  {
    if argv != [] {
      assert argv[0] in argv;
      TextsWords(buf, argv[1..]);
    }
  }

  lemma {:induction false} BuiltPrintable(buf: string, cmd: Cmd<Tok>)
    requires Built(buf, cmd)
    ensures Printable(Text(buf, cmd))
  {
    match cmd
    case Exec(argv) => TextsWords(buf, argv);
    case Redir(c, file, mode, fd) =>
      BuiltPrintable(buf, c);
      assert RedirOk(buf, Redirection(file, mode, fd));
    case Pipe(l, r) =>
      BuiltPrintable(buf, l);
      BuiltPrintable(buf, r);
    case List(l, r) =>
      BuiltPrintable(buf, l);
      BuiltPrintable(buf, r);
    case Back(c) => BuiltPrintable(buf, c);
  }

  /** Whatever input was parsed, its command can be printed, and parsing that gives the same command. */
  lemma ParsePrintParse(buf: string)
    requires IsInput(buf) && ParseCmd(buf).Ok?
    ensures var c := Text(buf, ParseCmd(buf).cmd);
            Printable(c) && IsInput(Print(c)) && ParseCmd(Print(c)).Ok? && Text(Print(c), ParseCmd(Print(c)).cmd) == c
  {
    BuiltPrintable(buf, ParseCmd(buf).cmd);
    hide ParseCmd, Print, Text, Built, Printable;
    PrintParse(Text(buf, ParseCmd(buf).cmd));
  }

  // ---- nulterminate ----

  /** All words of a command. */
  function Words(cmd: Cmd<Tok>): seq<Tok> {
    match cmd
    case Exec(argv) => argv
    case Redir(c, file, _, _) => Words(c) + [file]
    case Pipe(l, r) => Words(l) + Words(r)
    case List(l, r) => Words(l) + Words(r)
    case Back(c) => Words(c)
  }

  lemma {:induction false} WordsBuilt(buf: string, cmd: Cmd<Tok>)
    requires Built(buf, cmd)
    ensures forall t :: t in Words(cmd) ==> IsWord(buf, t)
  {
    match cmd
    case Exec(argv) =>
    case Redir(c, _, _, _) => WordsBuilt(buf, c);
    case Pipe(l, r) =>
      WordsBuilt(buf, l);
      WordsBuilt(buf, r);
    case List(l, r) =>
      WordsBuilt(buf, l);
      WordsBuilt(buf, r);
    case Back(c) => WordsBuilt(buf, c);
  }

  /** Position `i` is the end of one of the words. */
  predicate EndsAt(words: seq<Tok>, i: nat) {
    exists t :: t in words && t.eq == i
  }

  /** The buffer with a NUL at the end of every word. */
  ghost predicate Terminated(before: seq<char>, after: seq<char>, words: seq<Tok>) {
    |after| == |before| &&
    forall i: nat :: i < |before| ==> after[i] == if EndsAt(words, i) then '\0' else before[i]
  }

  /** The C string at a position. */
  predicate IsCString(a: seq<char>, q: nat, text: string) {
    q + |text| < |a| && a[q..q + |text|] == text && a[q + |text|] == '\0' && '\0' !in text
  }

  /** After parsecmd every argument and every file name, read as a C string, is exactly its word: no NUL
      lands inside another word. */
  lemma NamesIntact(buf: string, a: seq<char>, t: Tok)
    requires IsInput(buf) && ParseCmd(buf).Ok? && t in Words(ParseCmd(buf).cmd)
    requires Terminated(buf + ['\0'], a, Words(ParseCmd(buf).cmd))
    ensures t.q < t.eq <= |buf| && IsCString(a, t.q, buf[t.q..t.eq])
  {
    var words := Words(ParseCmd(buf).cmd);
    WordsBuilt(buf, ParseCmd(buf).cmd);
    hide ParseCmd, Words, Built;
    forall i | t.q <= i < t.eq ensures a[i] == buf[i] {
      forall u | u in words ensures u.eq != i {
        assert IsWord(buf, u) && IsWord(buf, t);
      }
    }
    assert EndsAt(words, t.eq);
    assert a[t.q..t.eq] == buf[t.q..t.eq];
  }

  lemma TerminatedBoth(a: seq<char>, b: seq<char>, c: seq<char>, v: seq<Tok>, w: seq<Tok>)
    requires Terminated(a, b, v) && Terminated(b, c, w)
    ensures Terminated(a, c, v + w)
  {
    forall i: nat | i < |a| ensures EndsAt(v + w, i) == (EndsAt(v, i) || EndsAt(w, i)) {
      if EndsAt(v, i) {
        var t :| t in v && t.eq == i;
        assert t in v + w;
      }
      if EndsAt(w, i) {
        var t :| t in w && t.eq == i;
        assert t in v + w;
      }
    }
  }

  /** nulterminate: a NUL behind every word, and no other change. */
  method NulTerminate(a: array<char>, cmd: Cmd<Tok>)
    requires forall t :: t in Words(cmd) ==> t.eq < a.Length
    modifies a
    ensures Terminated(old(a[..]), a[..], Words(cmd))
    decreases cmd
  {
    match cmd
    case Exec(argv) =>
      var i := 0;
      assert argv[..0] == [];
      while i < |argv|
        invariant 0 <= i <= |argv| && Terminated(old(a[..]), a[..], argv[..i])
      {
        ghost var before := a[..];
        a[argv[i].eq] := '\0';
        OneMore(before, a[..], argv[i]);
        TerminatedBoth(old(a[..]), before, a[..], argv[..i], [argv[i]]);
        assert argv[..i] + [argv[i]] == argv[..i + 1];
        i := i + 1;
      }
      assert argv[..i] == argv;
    case Redir(c, file, _, _) =>
      assert file in Words(cmd);
      NulTerminate(a, c);
      ghost var before := a[..];
      a[file.eq] := '\0';
      OneMore(before, a[..], file);
      TerminatedBoth(old(a[..]), before, a[..], Words(c), [file]);
    case Pipe(l, r) =>
      NulTerminate(a, l);
      ghost var before := a[..];
      NulTerminate(a, r);
      TerminatedBoth(old(a[..]), before, a[..], Words(l), Words(r));
    case List(l, r) =>
      NulTerminate(a, l);
      ghost var before := a[..];
      NulTerminate(a, r);
      TerminatedBoth(old(a[..]), before, a[..], Words(l), Words(r));
    case Back(c) => NulTerminate(a, c);
  }

  lemma OneMore(before: seq<char>, after: seq<char>, t: Tok)
    requires t.eq < |before| && after == before[t.eq := '\0']
    ensures Terminated(before, after, [t])
  {
    assert t in [t];
  }
}
