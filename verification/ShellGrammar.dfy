/** The shell's grammar apart from its parser: how an input falls into tokens, and which commands a run of tokens
    stands for. user/sh.c parses an input exactly if it is derived, and to the command it is derived as. */
module ShellGrammar {
  import opened Shell

  // ---- tokens ----

  /** A word ('a'), an operator by its character, or '+' for >>. */
  datatype Lexeme = Lexeme(kind: char, q: nat, eq: nat)

  predicate LexemeOk(buf: string, t: Lexeme) {
    && t.q < t.eq <= |buf|
    && if t.kind == 'a' then IsWord(buf, Tok(t.q, t.eq))
       else if t.kind == '+' then t.eq == t.q + 2 && buf[t.q] == '>' && buf[t.q + 1] == '>'
       else if t.kind == '>' then t.eq == t.q + 1 && buf[t.q] == '>' && At(buf, t.q + 1) != '>'
       else IsSymbol(t.kind) && t.eq == t.q + 1 && buf[t.q] == t.kind
  }

  /** Where the gap before token `i` starts and ends. */
  function GapStart(toks: seq<Lexeme>, i: nat): nat
    requires i <= |toks|
  {
    if i == 0 then 0 else toks[i - 1].eq
  }

  function GapEnd(buf: string, toks: seq<Lexeme>, i: nat): nat
    requires i <= |toks|
  {
    if i < |toks| then toks[i].q else |buf|
  }

  predicate GapOk(buf: string, toks: seq<Lexeme>, i: nat)
    requires i <= |toks|
  {
    && GapStart(toks, i) <= GapEnd(buf, toks, i) <= |buf|
    && forall p :: GapStart(toks, i) <= p < GapEnd(buf, toks, i) ==> IsSpace(buf[p])
  }

  /** The tokens are all of the input but white space. */
  ghost predicate Lexes(buf: string, toks: seq<Lexeme>) {
    && (forall i: nat :: i < |toks| ==> LexemeOk(buf, toks[i]))
    && (forall i: nat :: i <= |toks| ==> GapOk(buf, toks, i))
  }

  function Kind(toks: seq<Lexeme>, i: nat): char {
    if i < |toks| then toks[i].kind else '\0'
  }

  predicate IsRedir(kind: char) {
    kind == '<' || kind == '>' || kind == '+'
  }

  // ---- derivations: tokens i to j are a ... ----

  function WordAt(toks: seq<Lexeme>, i: nat): Tok
    requires i < |toks|
  {
    Tok(toks[i].q, toks[i].eq)
  }

  /** ... sequence of words `argv` and redirections `list`, in any order. */
  ghost predicate IsItems(toks: seq<Lexeme>, i: nat, j: nat, argv: seq<Tok>, list: seq<Redirection>)
    decreases j - i
  {
    i <= j <= |toks| &&
    if i == j then argv == [] && list == []
    else if Kind(toks, i) == 'a' then
      argv != [] && argv[0] == WordAt(toks, i) && IsItems(toks, i + 1, j, argv[1..], list)
    else
      && IsRedir(Kind(toks, i)) && i + 1 < j && Kind(toks, i + 1) == 'a' && list != []
      && list[0] == Redirection(WordAt(toks, i + 1), Mode(Kind(toks, i)), Fd(Kind(toks, i)))
      && IsItems(toks, i + 2, j, argv, list[1..])
  }

  /** ... simple command: fewer than MAXARGS words, and redirections, of which the last is outermost. */
  ghost predicate IsSimple(toks: seq<Lexeme>, i: nat, j: nat, cmd: Cmd<Tok>, argv: seq<Tok>, list: seq<Redirection>) {
    |argv| < MAXARGS && IsItems(toks, i, j, argv, list) && cmd == Wrap(Exec(argv), list)
  }

  /** ... line in parentheses, from `i + 1` to `m`, and redirections. */
  ghost predicate IsBlock(toks: seq<Lexeme>, i: nat, m: nat, j: nat, cmd: Cmd<Tok>, inner: Cmd<Tok>,
                          list: seq<Redirection>)
    decreases j - i, 0
  {
    && i < m < j && Kind(toks, i) == '(' && IsLine(toks, i + 1, m, inner) && Kind(toks, m) == ')'
    && IsItems(toks, m + 1, j, [], list) && cmd == Wrap(inner, list)
  }

  ghost predicate IsExec(toks: seq<Lexeme>, i: nat, j: nat, cmd: Cmd<Tok>)
    decreases j - i, 1
  {
    || (exists argv: seq<Tok>, list: seq<Redirection> :: IsSimple(toks, i, j, cmd, argv, list))
    || (exists m: nat, inner: Cmd<Tok>, list: seq<Redirection> :: IsBlock(toks, i, m, j, cmd, inner, list))
  }

  /** ... command, a bar and a pipeline. */
  ghost predicate IsPiped(toks: seq<Lexeme>, i: nat, m: nat, j: nat, cmd: Cmd<Tok>)
    decreases j - i, 2
  {
    && i <= m < j && Kind(toks, m) == '|' && cmd.Pipe?
    && IsExec(toks, i, m, cmd.left) && IsPipe(toks, m + 1, j, cmd.right)
  }

  ghost predicate IsPipe(toks: seq<Lexeme>, i: nat, j: nat, cmd: Cmd<Tok>)
    decreases j - i, 3
  {
    IsExec(toks, i, j, cmd) || exists m: nat :: IsPiped(toks, i, m, j, cmd)
  }

  /** ... pipeline with any number of ampersands behind it. */
  ghost predicate IsBack(toks: seq<Lexeme>, i: nat, j: nat, cmd: Cmd<Tok>)
    decreases j - i, 4
  {
    || IsPipe(toks, i, j, cmd)
    || (i < j && Kind(toks, j - 1) == '&' && cmd.Back? && IsBack(toks, i, j - 1, cmd.cmd))
  }

  /** ... such a pipeline, a semicolon and a line. */
  ghost predicate IsListed(toks: seq<Lexeme>, i: nat, m: nat, j: nat, cmd: Cmd<Tok>)
    decreases j - i, 5
  {
    && i <= m < j && Kind(toks, m) == ';' && cmd.List?
    && IsBack(toks, i, m, cmd.left) && IsLine(toks, m + 1, j, cmd.right)
  }

  ghost predicate IsLine(toks: seq<Lexeme>, i: nat, j: nat, cmd: Cmd<Tok>)
    decreases j - i, 6
  {
    IsBack(toks, i, j, cmd) || exists m: nat :: IsListed(toks, i, m, j, cmd)
  }

  // ---- the cursor ----

  /** The cursor is before token `i`, behind the one before it. */
  predicate Before(buf: string, toks: seq<Lexeme>, i: nat, s: nat) {
    i <= |toks| && GapStart(toks, i) <= s <= GapEnd(buf, toks, i)
  }

  /** The first character of a token tells its kind. */
  lemma FirstChar(buf: string, toks: seq<Lexeme>, i: nat)
    requires IsInput(buf) && Lexes(buf, toks) && i <= |toks|
    ensures var c := At(buf, GapEnd(buf, toks, i)); var k := Kind(toks, i);
            && GapEnd(buf, toks, i) <= |buf| && !IsSpace(c)
            && (k == '\0' <==> c == '\0') && (k == '\0' <==> i == |toks|)
            && (k == 'a' <==> IsWordChar(c)) && (k == '>' || k == '+' <==> c == '>')
            && (c == '>' || c == '\0' || IsWordChar(c) || k == c)
  {
    assert GapOk(buf, toks, i);
    if i < |toks| {
      assert LexemeOk(buf, toks[i]);
    }
  }

  lemma SkipTo(buf: string, toks: seq<Lexeme>, i: nat, s: nat)
    requires IsInput(buf) && Lexes(buf, toks) && Before(buf, toks, i, s)
    ensures s <= |buf| && SkipSpace(buf, s) == GapEnd(buf, toks, i)
  {
    assert GapOk(buf, toks, i);
    FirstChar(buf, toks, i);
    hide Lexes, LexemeOk;
    var r, e := SkipSpace(buf, s), GapEnd(buf, toks, i);
    assert r < |buf| ==> At(buf, r) == buf[r];
    assert e < |buf| ==> At(buf, e) == buf[e];
  }

  lemma TokenAt(buf: string, toks: seq<Lexeme>, i: nat, s: nat)
    requires IsInput(buf) && Lexes(buf, toks) && Before(buf, toks, i, s) && i < |toks|
    ensures s <= |buf| && GetToken(buf, s) == Token(toks[i].kind, toks[i].q, toks[i].eq, GapEnd(buf, toks, i + 1))
    ensures Before(buf, toks, i + 1, GapEnd(buf, toks, i + 1)) && GapEnd(buf, toks, i) < GapEnd(buf, toks, i + 1)
  {
    SkipTo(buf, toks, i, s);
    FirstChar(buf, toks, i);
    assert LexemeOk(buf, toks[i]) && GapOk(buf, toks, i + 1);
    SkipTo(buf, toks, i + 1, toks[i].eq);
    hide Lexes, SkipSpace;
    if toks[i].kind == 'a' {
      WordEnds(buf, toks[i].q, toks[i].eq);
    }
  }

  lemma WordEnds(buf: string, q: nat, eq: nat)
    requires IsWord(buf, Tok(q, eq))
    ensures SkipWord(buf, q) == eq
  {
    var r := SkipWord(buf, q);
    assert r < |buf| ==> At(buf, r) == buf[r];
    assert eq < |buf| ==> At(buf, eq) == buf[eq];
  }

  lemma TokenEnd(buf: string, toks: seq<Lexeme>, s: nat)
    requires IsInput(buf) && Lexes(buf, toks) && Before(buf, toks, |toks|, s)
    ensures s <= |buf| && GetToken(buf, s) == Token('\0', |buf|, |buf|, |buf|)
  {
    SkipTo(buf, toks, |toks|, s);
  }

  lemma PeekAt(buf: string, toks: seq<Lexeme>, i: nat, s: nat)
    requires IsInput(buf) && Lexes(buf, toks) && Before(buf, toks, i, s)
    ensures s <= |buf| && SkipSpace(buf, s) == GapEnd(buf, toks, i)
    ensures var k := Kind(toks, i);
            && (Peek(buf, s, "<>") <==> IsRedir(k)) && (Peek(buf, s, "(") <==> k == '(')
            && (Peek(buf, s, ")") <==> k == ')') && (Peek(buf, s, "|") <==> k == '|')
            && (Peek(buf, s, "&") <==> k == '&') && (Peek(buf, s, ";") <==> k == ';')
            && (Peek(buf, s, "|)&;") <==> k == '|' || k == ')' || k == '&' || k == ';')
  {
    SkipTo(buf, toks, i, s);
    FirstChar(buf, toks, i);
    hide Lexes, SkipSpace;
  }

  // ---- one step of each parser, by tokens ----

  ghost predicate Input(buf: string, toks: seq<Lexeme>) {
    IsInput(buf) && Lexes(buf, toks)
  }

  predicate EndsCommand(kind: char) {
    kind == '|' || kind == ')' || kind == '&' || kind == ';' || kind == '\0'
  }

  /** A cursor right before token `i`. */
  function Pos(buf: string, toks: seq<Lexeme>, i: nat): (s: nat)
    requires Input(buf, toks) && i <= |toks|
    ensures s <= |buf| && Before(buf, toks, i, s)
  {
    assert GapOk(buf, toks, i);
    GapEnd(buf, toks, i)
  }

  lemma RedirsStop(buf: string, toks: seq<Lexeme>, i: nat, s: nat)
    requires Input(buf, toks) && Before(buf, toks, i, s) && !IsRedir(Kind(toks, i))
    ensures s <= |buf| && ParseRedirs(buf, s) == Redirs([], Pos(buf, toks, i))
  {
    PeekAt(buf, toks, i, s);
  }

  lemma RedirsNoWord(buf: string, toks: seq<Lexeme>, i: nat, s: nat)
    requires Input(buf, toks) && Before(buf, toks, i, s) && IsRedir(Kind(toks, i)) && Kind(toks, i + 1) != 'a'
    ensures s <= |buf| && ParseRedirs(buf, s) == RedirPanic
  {
    PeekAt(buf, toks, i, s);
    TokenAt(buf, toks, i, s);
    hide Lexes, Peek, GetToken, RedirsOk;
    var s1 := GetToken(buf, s).s;
    if i + 1 == |toks| {
      TokenEnd(buf, toks, s1);
    } else {
      TokenAt(buf, toks, i + 1, s1);
    }
  }

  function RedirAt(toks: seq<Lexeme>, i: nat): Redirection
    requires i + 1 < |toks|
  {
    Redirection(WordAt(toks, i + 1), Mode(toks[i].kind), Fd(toks[i].kind))
  }

  lemma RedirsUnfold(buf: string, s: nat, op: Token, word: Token)
    requires s <= |buf| && IsInput(buf) && Peek(buf, s, "<>") && op == GetToken(buf, s) && word == GetToken(buf, op.s)
    requires word.kind == 'a'
    ensures var rest := ParseRedirs(buf, word.s);
            ParseRedirs(buf, s) ==
            if rest == RedirPanic then RedirPanic
            else Redirs([Redirection(Tok(word.q, word.eq), Mode(op.kind), Fd(op.kind))] + rest.list, rest.s)
  {
    hide Peek, GetToken, RedirsOk, Mode, Fd;
  }

  lemma RedirsMore(buf: string, toks: seq<Lexeme>, i: nat, s: nat)
    requires Input(buf, toks) && Before(buf, toks, i, s) && IsRedir(Kind(toks, i)) && Kind(toks, i + 1) == 'a'
    ensures s <= |buf|
    ensures var rest := ParseRedirs(buf, Pos(buf, toks, i + 2));
            ParseRedirs(buf, s) == if rest == RedirPanic then RedirPanic
                else Redirs([RedirAt(toks, i)] + rest.list, rest.s)
  {
    hide ParseRedirs, Lexes, Peek, GetToken, RedirsOk, Mode, Fd;
    PeekAt(buf, toks, i, s);
    TokenAt(buf, toks, i, s);
    TokenAt(buf, toks, i + 1, Pos(buf, toks, i + 1));
    RedirsUnfold(buf, s, GetToken(buf, s), GetToken(buf, Pos(buf, toks, i + 1)));
  }

  lemma LoopStep(buf: string, toks: seq<Lexeme>, i: nat, argv: seq<Tok>, list: seq<Redirection>, s: nat)
    requires Input(buf, toks) && Before(buf, toks, i, s) && s <= |buf| && ArgsOk(buf, argv, list)
    ensures EndsCommand(Kind(toks, i)) ==>
            ExecLoop(buf, argv, list, s) == Ok(Wrap(Exec(argv), list), Pos(buf, toks, i))
    ensures !EndsCommand(Kind(toks, i)) && (Kind(toks, i) != 'a' || |argv| + 1 >= MAXARGS) ==>
            ExecLoop(buf, argv, list, s) == Panic
    ensures Kind(toks, i) == 'a' && |argv| + 1 < MAXARGS ==>
            var rs := ParseRedirs(buf, Pos(buf, toks, i + 1));
            if rs == RedirPanic then ExecLoop(buf, argv, list, s) == Panic
            else
              && rs.s <= |buf| && ArgsOk(buf, argv + [WordAt(toks, i)], list + rs.list)
              && ExecLoop(buf, argv, list, s) == ExecLoop(buf, argv + [WordAt(toks, i)], list + rs.list, rs.s)
  {
    PeekAt(buf, toks, i, s);
    hide Lexes, Peek, ArgsOk;
    if i == |toks| {
      TokenEnd(buf, toks, s);
    } else {
      TokenAt(buf, toks, i, s);
    }
    hide GetToken, RedirsOk;
    var t := GetToken(buf, s);
    if t.kind == 'a' && |argv| + 1 < MAXARGS && ParseRedirs(buf, t.s).Redirs? {
      ArgsMore(buf, argv, list, Tok(t.q, t.eq), t.s, ParseRedirs(buf, t.s));
      RedirsWithin(buf, t.s);
    }
  }

  lemma RedirsWithin(buf: string, s: nat)
    requires s <= |buf| && IsInput(buf) && ParseRedirs(buf, s).Redirs?
    ensures ParseRedirs(buf, s).s <= |buf|
  {
  }

  lemma ExecStep(buf: string, toks: seq<Lexeme>, i: nat, s: nat)
    requires Input(buf, toks) && Before(buf, toks, i, s)
    ensures s <= |buf| && (Kind(toks, i) == '(' ==> ParseExec(buf, s) == ParseBlock(buf, s))
    ensures Kind(toks, i) != '(' ==>
            var rs := ParseRedirs(buf, s);
            if rs == RedirPanic then ParseExec(buf, s) == Panic
            else rs.s <= |buf| && ArgsOk(buf, [], rs.list) && ParseExec(buf, s) == ExecLoop(buf, [], rs.list, rs.s)
  {
    PeekAt(buf, toks, i, s);
    hide Peek, ParseBlock, ExecLoop, ParseRedirs;
  }

  lemma PastAt(buf: string, toks: seq<Lexeme>, i: nat, s: nat, paren: string)
    requires Input(buf, toks) && Before(buf, toks, i, s) && i < |toks| && s <= |buf| && Peek(buf, s, paren)
    ensures Past(buf, s, paren) == Pos(buf, toks, i + 1)
  {
    TokenAt(buf, toks, i, s);
  }

  lemma BlockStep(buf: string, toks: seq<Lexeme>, i: nat, s: nat)
    requires Input(buf, toks) && Before(buf, toks, i, s) && Kind(toks, i) == '('
    ensures s <= |buf| && i < |toks| && (ParseLine(buf, Pos(buf, toks, i + 1)) == Panic ==> ParseBlock(buf, s) == Panic)
    ensures Peek(buf, s, "(") && Past(buf, s, "(") == Pos(buf, toks, i + 1)
  {
    PeekAt(buf, toks, i, s);
    PastAt(buf, toks, i, s, "(");
    hide Peek, ParseLine, ParseRedirs, Past;
  }

  lemma BlockCloses(buf: string, toks: seq<Lexeme>, i: nat, s: nat, m: nat, inner: Cmd<Tok>)
    requires Input(buf, toks) && Before(buf, toks, i, s) && Kind(toks, i) == '(' && i < m <= |toks|
    requires ParseLine(buf, Pos(buf, toks, i + 1)) == Ok(inner, Pos(buf, toks, m))
    ensures s <= |buf| && (Kind(toks, m) != ')' ==> ParseBlock(buf, s) == Panic)
    ensures Kind(toks, m) == ')' ==>
            var rs := ParseRedirs(buf, Pos(buf, toks, m + 1));
            ParseBlock(buf, s) == if rs == RedirPanic then Panic else Ok(Wrap(inner, rs.list), rs.s)
  {
    hide Peek, ParseLine, ParseRedirs, Past, Lexes, Parsed;
    BlockStep(buf, toks, i, s);
    PeekAt(buf, toks, m, Pos(buf, toks, m));
    if Kind(toks, m) == ')' {
      PastAt(buf, toks, m, Pos(buf, toks, m), ")");
    }
  }

  lemma PipeStep(buf: string, toks: seq<Lexeme>, i: nat, s: nat, m: nat, left: Cmd<Tok>)
    requires Input(buf, toks) && Before(buf, toks, i, s) && i <= m <= |toks| && s <= |buf|
    requires ParseExec(buf, s) == Ok(left, Pos(buf, toks, m))
    ensures Kind(toks, m) != '|' ==> ParsePipe(buf, s) == Ok(left, Pos(buf, toks, m))
    ensures Kind(toks, m) == '|' ==>
            var right := ParsePipe(buf, Pos(buf, toks, m + 1));
            ParsePipe(buf, s) == if right == Panic then Panic else Ok(Pipe(left, right.cmd), right.s)
  {
    hide Peek, ParseExec, Past, Lexes, Parsed;
    PeekAt(buf, toks, m, Pos(buf, toks, m));
    if Kind(toks, m) == '|' {
      PastAt(buf, toks, m, Pos(buf, toks, m), "|");
    }
  }

  lemma BacksStep(buf: string, toks: seq<Lexeme>, m: nat, cmd: Cmd<Tok>, s: nat)
    requires Input(buf, toks) && Before(buf, toks, m, s)
    ensures s <= |buf|
    ensures ParseBacks(buf, cmd, s) ==
            if Kind(toks, m) == '&' then ParseBacks(buf, Back(cmd), Pos(buf, toks, m + 1))
                else Ok(cmd, Pos(buf, toks, m))
  {
    PeekAt(buf, toks, m, s);
    if Kind(toks, m) == '&' {
      PastAt(buf, toks, m, s, "&");
    }
    hide Peek, Past, Lexes, Parsed, Built;
  }

  lemma LineStep(buf: string, toks: seq<Lexeme>, i: nat, s: nat, p: nat, first: Cmd<Tok>, m: nat, left: Cmd<Tok>)
    requires Input(buf, toks) && Before(buf, toks, i, s) && i <= p <= m <= |toks| && s <= |buf|
    requires ParsePipe(buf, s) == Ok(first, Pos(buf, toks, p))
    requires ParseBacks(buf, first, Pos(buf, toks, p)) == Ok(left, Pos(buf, toks, m))
    ensures Kind(toks, m) != ';' ==> ParseLine(buf, s) == Ok(left, Pos(buf, toks, m))
    ensures Kind(toks, m) == ';' ==>
            var right := ParseLine(buf, Pos(buf, toks, m + 1));
            ParseLine(buf, s) == if right == Panic then Panic else Ok(List(left, right.cmd), right.s)
  {
    hide Peek, ParsePipe, ParseBacks, Past, Lexes, Parsed;
    PeekAt(buf, toks, m, Pos(buf, toks, m));
    if Kind(toks, m) == ';' {
      PastAt(buf, toks, m, Pos(buf, toks, m), ";");
    }
  }

  // ---- what the parsers accept is derived ----

  lemma {:induction false} ItemsJoin(toks: seq<Lexeme>, i: nat, m: nat, j: nat, argv: seq<Tok>, list: seq<Redirection>,
                                     argv': seq<Tok>, list': seq<Redirection>)
    requires IsItems(toks, i, m, argv, list) && IsItems(toks, m, j, argv', list')
    ensures IsItems(toks, i, j, argv + argv', list + list')
    decreases m - i
  {
    if i == m {
      assert argv + argv' == argv' && list + list' == list';
    } else if Kind(toks, i) == 'a' {
      ItemsJoin(toks, i + 1, m, j, argv[1..], list, argv', list');
      assert (argv + argv')[1..] == argv[1..] + argv';
    } else {
      ItemsJoin(toks, i + 2, m, j, argv, list[1..], argv', list');
      assert (list + list')[1..] == list[1..] + list';
    }
  }

  /** Words and redirections of which the first is word `i`. */
  lemma ItemsWord(toks: seq<Lexeme>, i: nat, m: nat, j: nat, list: seq<Redirection>, argv': seq<Tok>,
                  list': seq<Redirection>)
    requires i < |toks| && Kind(toks, i) == 'a' && IsItems(toks, i + 1, m, [], list) &&
        IsItems(toks, m, j, argv', list')
    ensures IsItems(toks, i, j, [WordAt(toks, i)] + argv', list + list')
  {
    ItemsJoin(toks, i + 1, m, j, [], list, argv', list');
    assert [] + argv' == argv';
    assert ([WordAt(toks, i)] + argv')[1..] == argv';
  }

  lemma ItemsNone(toks: seq<Lexeme>, i: nat)
    requires i <= |toks|
    ensures IsItems(toks, i, i, [], [])
  {
  }

  lemma {:induction false} RedirsSound(buf: string, toks: seq<Lexeme>, i: nat) returns (j: nat)
    requires Input(buf, toks) && i <= |toks| && ParseRedirs(buf, Pos(buf, toks, i)).Redirs?
    ensures i <= j <= |toks| && ParseRedirs(buf, Pos(buf, toks, i)).s == Pos(buf, toks, j)
    ensures IsItems(toks, i, j, [], ParseRedirs(buf, Pos(buf, toks, i)).list)
    decreases |toks| - i
  {
    hide Lexes, IsInput, ParseRedirs, RedirsOk, Mode, Fd;
    if !IsRedir(Kind(toks, i)) {
      RedirsStop(buf, toks, i, Pos(buf, toks, i));
      j := i;
    } else {
      if Kind(toks, i + 1) != 'a' {
        RedirsNoWord(buf, toks, i, Pos(buf, toks, i));
        assert false;
      }
      RedirsMore(buf, toks, i, Pos(buf, toks, i));
      j := RedirsSound(buf, toks, i + 2);
      var rest := ParseRedirs(buf, Pos(buf, toks, i + 2)).list;
      assert ([RedirAt(toks, i)] + rest)[1..] == rest;
    }
  }

  /** From token `i` on, parseexec's loop adds `argv'` and `list'` to what it has, up to token `j`. */
  ghost predicate LoopAdds(buf: string, toks: seq<Lexeme>, i: nat, argv: seq<Tok>, list: seq<Redirection>,
                           j: nat, argv': seq<Tok>, list': seq<Redirection>)
    requires Input(buf, toks) && i <= |toks| && ArgsOk(buf, argv, list)
  {
    && i <= j <= |toks|
    && ExecLoop(buf, argv, list, Pos(buf, toks, i)) == Ok(Wrap(Exec(argv + argv'), list + list'), Pos(buf, toks, j))
  }

  lemma LoopEnd(buf: string, toks: seq<Lexeme>, i: nat, argv: seq<Tok>, list: seq<Redirection>)
    requires Input(buf, toks) && i <= |toks| && ArgsOk(buf, argv, list) && EndsCommand(Kind(toks, i))
    ensures LoopAdds(buf, toks, i, argv, list, i, [], [])
  {
    hide Lexes, IsInput, ArgsOk, ExecLoop, Parsed, Wrap;
    LoopStep(buf, toks, i, argv, list, Pos(buf, toks, i));
    assert argv + [] == argv && list + [] == list;
  }

  lemma LoopMore(buf: string, toks: seq<Lexeme>, i: nat, argv: seq<Tok>, list: seq<Redirection>, m: nat,
                 rs: seq<Redirection>, j: nat, argv': seq<Tok>, list': seq<Redirection>)
    requires Input(buf, toks) && i < m <= |toks| && ArgsOk(buf, argv, list) && Kind(toks, i) == 'a' &&
        |argv| + 1 < MAXARGS
    requires ParseRedirs(buf, Pos(buf, toks, i + 1)) == Redirs(rs, Pos(buf, toks, m))
    requires ArgsOk(buf, argv + [WordAt(toks, i)], list + rs)
    requires LoopAdds(buf, toks, m, argv + [WordAt(toks, i)], list + rs, j, argv', list')
    ensures LoopAdds(buf, toks, i, argv, list, j, [WordAt(toks, i)] + argv', rs + list')
  {
    hide Lexes, IsInput, ArgsOk, ExecLoop, Parsed, Wrap, ParseRedirs, RedirsOk;
    LoopStep(buf, toks, i, argv, list, Pos(buf, toks, i));
    var word := WordAt(toks, i);
    assert argv + [word] + argv' == argv + ([word] + argv') && list + rs + list' == list + (rs + list');
  }

  lemma {:induction false} LoopSound(buf: string, toks: seq<Lexeme>, i: nat, argv: seq<Tok>, list: seq<Redirection>)
    returns (j: nat, argv': seq<Tok>, list': seq<Redirection>)
    requires Input(buf, toks) && i <= |toks| && ArgsOk(buf, argv, list)
    requires ExecLoop(buf, argv, list, Pos(buf, toks, i)).Ok?
    ensures LoopAdds(buf, toks, i, argv, list, j, argv', list')
    ensures |argv| + |argv'| < MAXARGS && IsItems(toks, i, j, argv', list')
    decreases |toks| - i
  {
    assert |argv| < MAXARGS;
    hide Lexes, IsInput, ArgsOk, IsItems, RedirsOk, ExecLoop, Parsed, ParseRedirs, LoopAdds;
    LoopStep(buf, toks, i, argv, list, Pos(buf, toks, i));
    if EndsCommand(Kind(toks, i)) {
      j, argv', list' := i, [], [];
      ItemsNone(toks, i);
      LoopEnd(buf, toks, i, argv, list);
    } else {
      var m := RedirsSound(buf, toks, i + 1);
      var rs := ParseRedirs(buf, Pos(buf, toks, i + 1)).list;
      var word := WordAt(toks, i);
      var argv1, list1;
      j, argv1, list1 := LoopSound(buf, toks, m, argv + [word], list + rs);
      argv', list' := [word] + argv1, rs + list1;
      ItemsWord(toks, i, m, j, rs, argv1, list1);
      LoopMore(buf, toks, i, argv, list, m, rs, j, argv1, list1);
    }
  }

  lemma {:induction false} SimpleSound(buf: string, toks: seq<Lexeme>, i: nat) returns (j: nat)
    requires Input(buf, toks) && i <= |toks| && Kind(toks, i) != '(' && ParseExec(buf, Pos(buf, toks, i)).Ok?
    ensures i <= j <= |toks| && ParseExec(buf, Pos(buf, toks, i)).s == Pos(buf, toks, j)
    ensures IsExec(toks, i, j, ParseExec(buf, Pos(buf, toks, i)).cmd)
  {
    hide Lexes, IsInput, ArgsOk, IsItems, RedirsOk, ExecLoop, Parsed, ParseRedirs, ParseExec, IsBlock;
    ExecStep(buf, toks, i, Pos(buf, toks, i));
    var m := RedirsSound(buf, toks, i);
    var rs := ParseRedirs(buf, Pos(buf, toks, i)).list;
    var argv, list;
    j, argv, list := LoopSound(buf, toks, m, [], rs);
    ItemsJoin(toks, i, m, j, [], rs, argv, list);
    assert [] + argv == argv;
    assert IsSimple(toks, i, j, Wrap(Exec(argv), rs + list), argv, rs + list);
  }

  lemma {:induction false} BlockSound(buf: string, toks: seq<Lexeme>, i: nat) returns (j: nat)
    requires Input(buf, toks) && i <= |toks| && Kind(toks, i) == '(' && ParseBlock(buf, Pos(buf, toks, i)).Ok?
    ensures i < j <= |toks| && ParseBlock(buf, Pos(buf, toks, i)).s == Pos(buf, toks, j)
    ensures IsExec(toks, i, j, ParseBlock(buf, Pos(buf, toks, i)).cmd)
    decreases |toks| - i, 0
  {
    hide Lexes, IsInput, IsItems, RedirsOk, Parsed, ParseRedirs, ParseBlock, ParseLine, IsSimple, IsLine;
    BlockStep(buf, toks, i, Pos(buf, toks, i));
    var m := LineSound(buf, toks, i + 1);
    var inner := ParseLine(buf, Pos(buf, toks, i + 1)).cmd;
    BlockCloses(buf, toks, i, Pos(buf, toks, i), m, inner);
    j := RedirsSound(buf, toks, m + 1);
    var rs := ParseRedirs(buf, Pos(buf, toks, m + 1)).list;
    assert IsBlock(toks, i, m, j, Wrap(inner, rs), inner, rs);
  }

  lemma {:induction false} ExecSound(buf: string, toks: seq<Lexeme>, i: nat) returns (j: nat)
    requires Input(buf, toks) && i <= |toks| && ParseExec(buf, Pos(buf, toks, i)).Ok?
    ensures i <= j <= |toks| && ParseExec(buf, Pos(buf, toks, i)).s == Pos(buf, toks, j)
    ensures IsExec(toks, i, j, ParseExec(buf, Pos(buf, toks, i)).cmd)
    decreases |toks| - i, 1
  {
    hide Lexes, IsInput, Parsed, ParseRedirs, ExecLoop, ParseExec, ParseBlock, IsExec;
    ExecStep(buf, toks, i, Pos(buf, toks, i));
    if Kind(toks, i) == '(' {
      j := BlockSound(buf, toks, i);
    } else {
      j := SimpleSound(buf, toks, i);
    }
  }

  lemma {:induction false} PipeSound(buf: string, toks: seq<Lexeme>, i: nat) returns (j: nat)
    requires Input(buf, toks) && i <= |toks| && ParsePipe(buf, Pos(buf, toks, i)).Ok?
    ensures i <= j <= |toks| && ParsePipe(buf, Pos(buf, toks, i)).s == Pos(buf, toks, j)
    ensures IsPipe(toks, i, j, ParsePipe(buf, Pos(buf, toks, i)).cmd)
    decreases |toks| - i, 2
  {
    hide Lexes, IsInput, Parsed, ParseExec, ParsePipe, IsExec, IsPipe;
    PipeExec(buf, Pos(buf, toks, i));
    var m := ExecSound(buf, toks, i);
    var left := ParseExec(buf, Pos(buf, toks, i)).cmd;
    PipeStep(buf, toks, i, Pos(buf, toks, i), m, left);
    if Kind(toks, m) == '|' {
      j := PipeSound(buf, toks, m + 1);
      PipeTwo(toks, i, m, j, left, ParsePipe(buf, Pos(buf, toks, m + 1)).cmd);
    } else {
      j := m;
      PipeOne(toks, i, j, left);
    }
  }

  lemma PipeOne(toks: seq<Lexeme>, i: nat, j: nat, cmd: Cmd<Tok>)
    requires IsExec(toks, i, j, cmd)
    ensures IsPipe(toks, i, j, cmd)
  {
  }

  lemma PipeTwo(toks: seq<Lexeme>, i: nat, m: nat, j: nat, left: Cmd<Tok>, right: Cmd<Tok>)
    requires i <= m < j && Kind(toks, m) == '|' && IsExec(toks, i, m, left) && IsPipe(toks, m + 1, j, right)
    ensures IsPipe(toks, i, j, Pipe(left, right))
  {
    assert IsPiped(toks, i, m, j, Pipe(left, right));
  }

  lemma PipeExec(buf: string, s: nat)
    requires s <= |buf| && IsInput(buf) && ParsePipe(buf, s).Ok?
    ensures ParseExec(buf, s).Ok?
  {
  }

  lemma {:induction false} BacksSound(buf: string, toks: seq<Lexeme>, i: nat, m: nat, cmd: Cmd<Tok>) returns (j: nat)
    requires Input(buf, toks) && i <= m <= |toks| && IsBack(toks, i, m, cmd)
    ensures m <= j <= |toks| && ParseBacks(buf, cmd, Pos(buf, toks, m)).s == Pos(buf, toks, j)
    ensures IsBack(toks, i, j, ParseBacks(buf, cmd, Pos(buf, toks, m)).cmd)
    decreases |toks| - m
  {
    hide Lexes, IsInput, Parsed, Built, ParseBacks, IsPipe;
    BacksStep(buf, toks, m, cmd, Pos(buf, toks, m));
    j := m;
    if Kind(toks, m) == '&' {
      j := BacksSound(buf, toks, i, m + 1, Back(cmd));
    }
  }

  lemma {:induction false} LineSound(buf: string, toks: seq<Lexeme>, i: nat) returns (j: nat)
    requires Input(buf, toks) && i <= |toks| && ParseLine(buf, Pos(buf, toks, i)).Ok?
    ensures i <= j <= |toks| && ParseLine(buf, Pos(buf, toks, i)).s == Pos(buf, toks, j)
    ensures IsLine(toks, i, j, ParseLine(buf, Pos(buf, toks, i)).cmd)
    decreases |toks| - i, 3
  {
    hide Lexes, IsInput, Parsed, Built, ParsePipe, ParseBacks, ParseLine, IsPipe, IsBack, IsLine;
    LinePipe(buf, Pos(buf, toks, i));
    var p := PipeSound(buf, toks, i);
    var first := ParsePipe(buf, Pos(buf, toks, i)).cmd;
    BackNone(toks, i, p, first);
    var m := BacksSound(buf, toks, i, p, first);
    var left := ParseBacks(buf, first, Pos(buf, toks, p)).cmd;
    LineStep(buf, toks, i, Pos(buf, toks, i), p, first, m, left);
    if Kind(toks, m) == ';' {
      j := LineSound(buf, toks, m + 1);
      LineTwo(toks, i, m, j, left, ParseLine(buf, Pos(buf, toks, m + 1)).cmd);
    } else {
      j := m;
      LineOne(toks, i, j, left);
    }
  }

  lemma BackNone(toks: seq<Lexeme>, i: nat, j: nat, cmd: Cmd<Tok>)
    requires IsPipe(toks, i, j, cmd)
    ensures IsBack(toks, i, j, cmd)
  {
  }

  lemma LineOne(toks: seq<Lexeme>, i: nat, j: nat, cmd: Cmd<Tok>)
    requires IsBack(toks, i, j, cmd)
    ensures IsLine(toks, i, j, cmd)
  {
  }

  lemma LineTwo(toks: seq<Lexeme>, i: nat, m: nat, j: nat, left: Cmd<Tok>, right: Cmd<Tok>)
    requires i <= m < j && Kind(toks, m) == ';' && IsBack(toks, i, m, left) && IsLine(toks, m + 1, j, right)
    ensures IsLine(toks, i, j, List(left, right))
  {
    assert IsListed(toks, i, m, j, List(left, right));
  }

  lemma LinePipe(buf: string, s: nat)
    requires s <= |buf| && IsInput(buf) && ParseLine(buf, s).Ok?
    ensures ParsePipe(buf, s).Ok?
  {
  }

  // ---- what is derived is accepted ----

  /** The redirections at the start of some words and redirections. */
  lemma {:induction false} RedirsComplete(buf: string, toks: seq<Lexeme>, i: nat, j: nat, argv: seq<Tok>,
                                          list: seq<Redirection>)
    returns (k: nat)
    requires Input(buf, toks) && IsItems(toks, i, j, argv, list) && !IsRedir(Kind(toks, j))
    ensures k <= |list| && i + 2 * k <= j <= |toks| && !IsRedir(Kind(toks, i + 2 * k))
    ensures IsItems(toks, i + 2 * k, j, argv, list[k..])
    ensures ParseRedirs(buf, Pos(buf, toks, i)) == Redirs(list[..k], Pos(buf, toks, i + 2 * k))
    decreases j - i
  {
    hide Lexes, IsInput, ParseRedirs, RedirsOk, Mode, Fd;
    if !IsRedir(Kind(toks, i)) {
      RedirsStop(buf, toks, i, Pos(buf, toks, i));
      k := 0;
      assert list[0..] == list;
    } else {
      RedirsMore(buf, toks, i, Pos(buf, toks, i));
      var l := RedirsComplete(buf, toks, i + 2, j, argv, list[1..]);
      k := l + 1;
      assert [list[0]] + list[1..][..l] == list[..k] && list[1..][l..] == list[k..];
    }
  }

  lemma {:induction false} LoopComplete(buf: string, toks: seq<Lexeme>, i: nat, j: nat, argv: seq<Tok>,
                                        list: seq<Redirection>,
                                        argv': seq<Tok>, list': seq<Redirection>)
    requires Input(buf, toks) && IsItems(toks, i, j, argv', list') && EndsCommand(Kind(toks, j)) &&
        !IsRedir(Kind(toks, i))
    requires ArgsOk(buf, argv, list) && |argv| + |argv'| < MAXARGS
    ensures i <= |toks| && LoopAdds(buf, toks, i, argv, list, j, argv', list')
    decreases j - i
  {
    hide Lexes, IsInput, ArgsOk, RedirsOk, ExecLoop, Parsed, ParseRedirs, LoopAdds;
    if i == j {
      LoopEnd(buf, toks, i, argv, list);
    } else {
      var word, rest := WordAt(toks, i), argv'[1..];
      assert [word] + rest == argv';
      LoopStep(buf, toks, i, argv, list, Pos(buf, toks, i));
      var k := RedirsComplete(buf, toks, i + 1, j, rest, list');
      assert list'[..k] + list'[k..] == list';
      var m := i + 1 + 2 * k;
      LoopComplete(buf, toks, m, j, argv + [word], list + list'[..k], rest, list'[k..]);
      LoopMore(buf, toks, i, argv, list, m, list'[..k], j, rest, list'[k..]);
    }
  }

  lemma {:induction false} SimpleComplete(buf: string, toks: seq<Lexeme>, i: nat, j: nat, cmd: Cmd<Tok>,
                                          argv: seq<Tok>, list: seq<Redirection>)
    requires Input(buf, toks) && EndsCommand(Kind(toks, j)) && IsSimple(toks, i, j, cmd, argv, list)
    ensures i <= j <= |toks| && ParseExec(buf, Pos(buf, toks, i)) == Ok(cmd, Pos(buf, toks, j))
  {
    hide Lexes, IsInput, ArgsOk, RedirsOk, ExecLoop, Parsed, ParseRedirs, ParseExec, IsItems, Wrap;
    ItemsFirst(toks, i, j, argv, list);
    ExecStep(buf, toks, i, Pos(buf, toks, i));
    var k := RedirsComplete(buf, toks, i, j, argv, list);
    LoopComplete(buf, toks, i + 2 * k, j, [], list[..k], argv, list[k..]);
    assert [] + argv == argv && list[..k] + list[k..] == list;
  }

  lemma ItemsFirst(toks: seq<Lexeme>, i: nat, j: nat, argv: seq<Tok>, list: seq<Redirection>)
    requires IsItems(toks, i, j, argv, list) && EndsCommand(Kind(toks, j))
    ensures i <= j <= |toks| && Kind(toks, i) != '('
  {
  }

  lemma {:induction false} BlockComplete(buf: string, toks: seq<Lexeme>, i: nat, m: nat, j: nat, cmd: Cmd<Tok>,
                                         inner: Cmd<Tok>, list: seq<Redirection>)
    requires Input(buf, toks) && EndsCommand(Kind(toks, j)) && IsBlock(toks, i, m, j, cmd, inner, list)
    ensures i <= j <= |toks| && ParseExec(buf, Pos(buf, toks, i)) == Ok(cmd, Pos(buf, toks, j))
    decreases j - i, 0
  {
    hide Lexes, IsInput, RedirsOk, ExecLoop, Parsed, ParseRedirs, ParseExec, ParseBlock, ParseLine, Wrap;
    hide IsBlock, IsLine, IsItems;
    BlockParts(toks, i, m, j, cmd, inner, list);
    LineComplete(buf, toks, i + 1, m, inner);
    ExecStep(buf, toks, i, Pos(buf, toks, i));
    BlockCloses(buf, toks, i, Pos(buf, toks, i), m, inner);
    var k := RedirsComplete(buf, toks, m + 1, j, [], list);
    OnlyRedirs(toks, m + 1 + 2 * k, j, list[k..]);
    assert list[..k] == list;
  }

  lemma BlockParts(toks: seq<Lexeme>, i: nat, m: nat, j: nat, cmd: Cmd<Tok>, inner: Cmd<Tok>, list: seq<Redirection>)
    requires IsBlock(toks, i, m, j, cmd, inner, list)
    ensures i < m < j && Kind(toks, i) == '(' && IsLine(toks, i + 1, m, inner) && Kind(toks, m) == ')'
    ensures IsItems(toks, m + 1, j, [], list) && cmd == Wrap(inner, list) && j <= |toks|
  {
  }

  lemma OnlyRedirs(toks: seq<Lexeme>, i: nat, j: nat, list: seq<Redirection>)
    requires IsItems(toks, i, j, [], list) && !IsRedir(Kind(toks, i))
    ensures i == j && list == []
  {
  }

  lemma {:induction false} ExecComplete(buf: string, toks: seq<Lexeme>, i: nat, j: nat, cmd: Cmd<Tok>)
    requires Input(buf, toks) && EndsCommand(Kind(toks, j)) && IsExec(toks, i, j, cmd)
    ensures i <= j <= |toks| && ParseExec(buf, Pos(buf, toks, i)) == Ok(cmd, Pos(buf, toks, j))
    decreases j - i, 1
  {
    hide Lexes, IsInput, Parsed, ParseExec, IsSimple, IsBlock;
    if argv: seq<Tok>, list: seq<Redirection> :| IsSimple(toks, i, j, cmd, argv, list) {
      SimpleComplete(buf, toks, i, j, cmd, argv, list);
    } else {
      var m: nat, inner, list :| IsBlock(toks, i, m, j, cmd, inner, list);
      BlockComplete(buf, toks, i, m, j, cmd, inner, list);
    }
  }

  predicate EndsPipe(kind: char) {
    kind == '&' || kind == ';' || kind == ')' || kind == '\0'
  }

  lemma {:induction false} PipeComplete(buf: string, toks: seq<Lexeme>, i: nat, j: nat, cmd: Cmd<Tok>)
    requires Input(buf, toks) && EndsPipe(Kind(toks, j)) && IsPipe(toks, i, j, cmd)
    ensures i <= j <= |toks| && ParsePipe(buf, Pos(buf, toks, i)) == Ok(cmd, Pos(buf, toks, j))
    decreases j - i, 2
  {
    hide Lexes, IsInput, Parsed, ParseExec, ParsePipe, IsExec, IsPiped;
    if IsExec(toks, i, j, cmd) {
      ExecComplete(buf, toks, i, j, cmd);
      PipeStep(buf, toks, i, Pos(buf, toks, i), j, cmd);
    } else {
      var m: nat :| IsPiped(toks, i, m, j, cmd);
      PipedParts(toks, i, m, j, cmd);
      hide IsPipe;
      ExecComplete(buf, toks, i, m, cmd.left);
      PipeComplete(buf, toks, m + 1, j, cmd.right);
      PipeStep(buf, toks, i, Pos(buf, toks, i), m, cmd.left);
    }
  }

  lemma PipedParts(toks: seq<Lexeme>, i: nat, m: nat, j: nat, cmd: Cmd<Tok>)
    requires IsPiped(toks, i, m, j, cmd)
    ensures i <= m < j && Kind(toks, m) == '|' && cmd.Pipe?
    ensures IsExec(toks, i, m, cmd.left) && IsPipe(toks, m + 1, j, cmd.right)
  {
  }

  /** A command with `n` ampersands behind it. */
  function Backs(cmd: Cmd<Tok>, n: nat): Cmd<Tok> {
    if n == 0 then cmd else Back(Backs(cmd, n - 1))
  }

  lemma {:induction false} BacksInner(cmd: Cmd<Tok>, n: nat)
    ensures Backs(Back(cmd), n) == Back(Backs(cmd, n))
  {
    if n > 0 {
      BacksInner(cmd, n - 1);
    }
  }

  predicate Ampersands(toks: seq<Lexeme>, i: nat, j: nat) {
    i <= j && forall k: nat :: i <= k < j ==> Kind(toks, k) == '&'
  }

  lemma {:induction false} BackSplits(toks: seq<Lexeme>, i: nat, j: nat, cmd: Cmd<Tok>)
    returns (p: nat, first: Cmd<Tok>)
    requires IsBack(toks, i, j, cmd)
    ensures IsPipe(toks, i, p, first) && Ampersands(toks, p, j) && cmd == Backs(first, j - p)
    decreases j
  {
    hide IsPipe;
    if IsPipe(toks, i, j, cmd) {
      p, first := j, cmd;
    } else {
      p, first := BackSplits(toks, i, j - 1, cmd.cmd);
    }
  }

  lemma {:induction false} BacksComplete(buf: string, toks: seq<Lexeme>, p: nat, j: nat, cmd: Cmd<Tok>)
    requires Input(buf, toks) && p <= j <= |toks| && Ampersands(toks, p, j) && Kind(toks, j) != '&'
    ensures ParseBacks(buf, cmd, Pos(buf, toks, p)) == Ok(Backs(cmd, j - p), Pos(buf, toks, j))
    decreases j - p
  {
    hide Lexes, IsInput, Parsed, Built, ParseBacks;
    BacksStep(buf, toks, p, cmd, Pos(buf, toks, p));
    if p < j {
      BacksComplete(buf, toks, p + 1, j, Back(cmd));
      BacksInner(cmd, j - p - 1);
    }
  }

  predicate EndsLine(kind: char) {
    kind == ')' || kind == '\0'
  }

  /** A pipeline with ampersands, parsed as parseline begins. */
  lemma {:induction false} BackComplete(buf: string, toks: seq<Lexeme>, i: nat, j: nat, cmd: Cmd<Tok>)
    returns (p: nat, first: Cmd<Tok>)
    requires Input(buf, toks) && IsBack(toks, i, j, cmd) && (Kind(toks, j) == ';' || EndsLine(Kind(toks, j)))
    requires i <= j <= |toks|
    ensures i <= p <= j && ParsePipe(buf, Pos(buf, toks, i)) == Ok(first, Pos(buf, toks, p))
    ensures ParseBacks(buf, first, Pos(buf, toks, p)) == Ok(cmd, Pos(buf, toks, j))
    decreases j - i, 3
  {
    hide Lexes, IsInput, Parsed, Built, ParseBacks, ParsePipe, IsPipe, IsBack, Backs;
    p, first := BackSplits(toks, i, j, cmd);
    PipeComplete(buf, toks, i, p, first);
    BacksComplete(buf, toks, p, j, first);
  }

  lemma {:induction false} LineComplete(buf: string, toks: seq<Lexeme>, i: nat, j: nat, cmd: Cmd<Tok>)
    requires Input(buf, toks) && IsLine(toks, i, j, cmd) && EndsLine(Kind(toks, j)) && i <= j <= |toks|
    ensures ParseLine(buf, Pos(buf, toks, i)) == Ok(cmd, Pos(buf, toks, j))
    decreases j - i, 4
  {
    hide Lexes, IsInput, Parsed, Built, ParseBacks, ParsePipe, ParseLine, IsBack, IsListed;
    if IsBack(toks, i, j, cmd) {
      var p, first := BackComplete(buf, toks, i, j, cmd);
      LineStep(buf, toks, i, Pos(buf, toks, i), p, first, j, cmd);
    } else {
      var m: nat :| IsListed(toks, i, m, j, cmd);
      ListedParts(toks, i, m, j, cmd);
      hide IsLine;
      var p, first := BackComplete(buf, toks, i, m, cmd.left);
      LineStep(buf, toks, i, Pos(buf, toks, i), p, first, m, cmd.left);
      LineComplete(buf, toks, m + 1, j, cmd.right);
    }
  }

  lemma ListedParts(toks: seq<Lexeme>, i: nat, m: nat, j: nat, cmd: Cmd<Tok>)
    requires IsListed(toks, i, m, j, cmd)
    ensures i <= m < j && Kind(toks, m) == ';' && cmd.List?
    ensures IsBack(toks, i, m, cmd.left) && IsLine(toks, m + 1, j, cmd.right)
  {
  }

  // ---- the theorem ----

  /** White space before the first token makes no difference. */
  lemma RedirsFrom(buf: string, toks: seq<Lexeme>, i: nat, s: nat)
    requires Input(buf, toks) && Before(buf, toks, i, s)
    ensures s <= |buf| && ParseRedirs(buf, s) == ParseRedirs(buf, Pos(buf, toks, i))
  {
    hide Lexes, IsInput, ParseRedirs, RedirsOk, RedirAt;
    var e := Pos(buf, toks, i);
    if !IsRedir(Kind(toks, i)) {
      RedirsStop(buf, toks, i, s);
      RedirsStop(buf, toks, i, e);
    } else if Kind(toks, i + 1) != 'a' {
      RedirsNoWord(buf, toks, i, s);
      RedirsNoWord(buf, toks, i, e);
    } else {
      RedirsMore(buf, toks, i, s);
      RedirsMore(buf, toks, i, e);
    }
  }

  lemma BlockFrom(buf: string, toks: seq<Lexeme>, i: nat, s: nat)
    requires Input(buf, toks) && Before(buf, toks, i, s) && Kind(toks, i) == '('
    ensures s <= |buf| && ParseBlock(buf, s) == ParseBlock(buf, Pos(buf, toks, i))
  {
    hide Lexes, Peek, Past, ParseLine, ParseRedirs, Parsed;
    BlockStep(buf, toks, i, s);
    BlockStep(buf, toks, i, Pos(buf, toks, i));
  }

  lemma ExecFrom(buf: string, toks: seq<Lexeme>, i: nat, s: nat)
    requires Input(buf, toks) && Before(buf, toks, i, s)
    ensures s <= |buf| && ParseExec(buf, s) == ParseExec(buf, Pos(buf, toks, i))
  {
    hide Lexes, IsInput, ParseExec, ParseBlock, ExecLoop, ParseRedirs, Parsed, ArgsOk;
    ExecStep(buf, toks, i, s);
    ExecStep(buf, toks, i, Pos(buf, toks, i));
    RedirsFrom(buf, toks, i, s);
    if Kind(toks, i) == '(' {
      BlockFrom(buf, toks, i, s);
    }
  }

  lemma LineFrom(buf: string, toks: seq<Lexeme>, i: nat, s: nat)
    requires Input(buf, toks) && Before(buf, toks, i, s)
    ensures s <= |buf| && ParseLine(buf, s) == ParseLine(buf, Pos(buf, toks, i))
  {
    hide Lexes, Peek, Past, ParseExec, ParseBacks, Parsed;
    ExecFrom(buf, toks, i, s);
    assert ParsePipe(buf, s) == ParsePipe(buf, Pos(buf, toks, i));
    hide ParsePipe;
  }

  /** Only the end of the input is behind all tokens. */
  lemma WholeInput(buf: string, toks: seq<Lexeme>, j: nat)
    requires Input(buf, toks) && j <= |toks|
    ensures Pos(buf, toks, j) == |buf| <==> j == |toks|
  {
    if j < |toks| {
      assert LexemeOk(buf, toks[j]);
    }
  }

  /** parsecmd accepts an input as a command exactly if its tokens are derived as that command. */
  lemma ParsesExactly(buf: string, toks: seq<Lexeme>, cmd: Cmd<Tok>)
    requires IsInput(buf) && Lexes(buf, toks)
    ensures ParseCmd(buf) == Ok(cmd, |buf|) <==> IsLine(toks, 0, |toks|, cmd)
  {
    assert GapOk(buf, toks, 0);
    LineFrom(buf, toks, 0, 0);
    hide Lexes, IsInput, Parsed, Built, ParseLine, IsLine;
    if IsLine(toks, 0, |toks|, cmd) {
      LineComplete(buf, toks, 0, |toks|, cmd);
      WholeInput(buf, toks, |toks|);
    } else if ParseLine(buf, 0).Ok? {
      var j := LineSound(buf, toks, 0);
      WholeInput(buf, toks, j);
    }
  }

  /** The tokens of an input from position `s` on. */
  function Lexed(buf: string, s: nat): (toks: seq<Lexeme>)
    requires IsInput(buf) && s <= |buf|
    decreases |buf| - s
  {
    var t := GetToken(buf, s);
    if t.kind == '\0' then [] else [Lexeme(t.kind, t.q, t.eq)] + Lexed(buf, t.eq)
  }

  /** The same for the rest of an input. */
  ghost predicate LexesFrom(buf: string, s: nat, toks: seq<Lexeme>) {
    && s <= |buf|
    && (forall i: nat :: i < |toks| ==> LexemeOk(buf, toks[i]))
    && (forall i: nat :: i <= |toks| ==> RestGapOk(buf, s, toks, i))
  }

  ghost predicate RestGapOk(buf: string, s: nat, toks: seq<Lexeme>, i: nat)
    requires i <= |toks|
  {
    var start := if i == 0 then s else toks[i - 1].eq;
    && start <= GapEnd(buf, toks, i) <= |buf|
    && forall p :: start <= p < GapEnd(buf, toks, i) ==> IsSpace(buf[p])
  }

  /** gettoken finds a token behind white space. */
  lemma TokenLexeme(buf: string, s: nat)
    requires IsInput(buf) && s <= |buf|
    ensures var t := GetToken(buf, s);
            && (forall p :: s <= p < t.q ==> IsSpace(buf[p]))
            && (t.kind != '\0' ==> LexemeOk(buf, Lexeme(t.kind, t.q, t.eq)))
  {
  }

  lemma RestGapNext(buf: string, s: nat, t: Lexeme, rest: seq<Lexeme>, i: nat)
    requires i <= |rest| && RestGapOk(buf, t.eq, rest, i)
    ensures RestGapOk(buf, s, [t] + rest, i + 1)
  {
  }

  lemma {:induction false} LexedOk(buf: string, s: nat)
    requires IsInput(buf) && s <= |buf|
    ensures LexesFrom(buf, s, Lexed(buf, s))
    decreases |buf| - s
  {
    var t, toks := GetToken(buf, s), Lexed(buf, s);
    hide GetToken, LexemeOk;
    TokenLexeme(buf, s);
    assert RestGapOk(buf, s, toks, 0);
    if t.kind != '\0' {
      LexedOk(buf, t.eq);
      var first, rest := Lexeme(t.kind, t.q, t.eq), Lexed(buf, t.eq);
      hide RestGapOk, Lexed;
      forall i: nat | i <= |toks| ensures RestGapOk(buf, s, toks, i) {
        if i > 0 {
          RestGapNext(buf, s, first, rest, i - 1);
        }
      }
    }
  }

  /** Every input has its tokens, so the parser accepts an input exactly if it is derived as some command. */
  lemma AcceptsExactly(buf: string)
    requires IsInput(buf)
    ensures var toks := Lexed(buf, 0);
            Lexes(buf, toks) && (ParseCmd(buf).Ok? <==> exists cmd :: IsLine(toks, 0, |toks|, cmd))
  {
    LexedOk(buf, 0);
    var toks := Lexed(buf, 0);
    assert Lexes(buf, toks) by {
      forall i: nat | i <= |toks| ensures GapOk(buf, toks, i) {
        assert RestGapOk(buf, 0, toks, i);
      }
    }
    hide Lexes, LexesFrom, IsLine, Lexed;
    forall cmd ensures ParseCmd(buf) == Ok(cmd, |buf|) <==> IsLine(toks, 0, |toks|, cmd) {
      ParsesExactly(buf, toks, cmd);
    }
    hide ParseLine, Parsed;
    assert ParseCmd(buf).Ok? ==> IsLine(toks, 0, |toks|, ParseCmd(buf).cmd);
  }
}
