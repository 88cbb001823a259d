/** user/sh.c: gettoken, peek and the recursive parsers, which share and advance one cursor, proved to compute
    the functions of module Shell. */
module ShellParser {
  import opened Shell

  lemma SkipTwice(buf: string, s: nat)
    requires s <= |buf| && IsInput(buf)
    ensures SkipSpace(buf, SkipSpace(buf, s)) == SkipSpace(buf, s)
    ensures GetToken(buf, SkipSpace(buf, s)) == GetToken(buf, s)
    ensures forall toks :: Peek(buf, SkipSpace(buf, s), toks) == Peek(buf, s, toks)
    ensures GetToken(buf, s).kind == '\0' ==> SkipSpace(buf, s) == GetToken(buf, s).s
  {
  }

  lemma SkipRedirs(buf: string, s: nat)
    requires s <= |buf| && IsInput(buf)
    ensures ParseRedirs(buf, SkipSpace(buf, s)) == ParseRedirs(buf, s)
  {
    SkipTwice(buf, s);
    hide GetToken, Peek, SkipSpace;
  }

  lemma SkipBlock(buf: string, s: nat)
    requires s <= |buf| && IsInput(buf)
    ensures ParseBlock(buf, SkipSpace(buf, s)) == ParseBlock(buf, s)
  {
    SkipTwice(buf, s);
    hide GetToken, Peek, SkipSpace, ParseLine, ParseRedirs, Parsed, Wrap, IsInput;
  }

  /** A cursor that is not at white space stays. */
  lemma SkipStays(buf: string, s: nat)
    requires s <= |buf| && !IsSpace(At(buf, s))
    ensures SkipSpace(buf, s) == s
  {
  }

  lemma {:induction false} BacksStop(buf: string, cmd: Cmd<Tok>, s: nat)
    requires s <= |buf| && IsInput(buf)
    ensures ParseBacks(buf, cmd, s).Ok? && s <= ParseBacks(buf, cmd, s).s <= |buf|
    ensures !IsSpace(At(buf, ParseBacks(buf, cmd, s).s))
    decreases |buf| - s
  {
    if Peek(buf, s, "&") {
      BacksStop(buf, Back(cmd), Past(buf, s, "&"));
    }
  }

  /** Redirections read before others. */
  function Before(list: seq<Redirection>, r: Redirs): Redirs {
    if r == RedirPanic then RedirPanic else Redirs(list + r.list, r.s)
  }

  lemma BeforeNone(r: Redirs)
    ensures Before([], r) == r
  {
    assert r.Redirs? ==> [] + r.list == r.list;
  }

  lemma BeforeMore(list: seq<Redirection>, x: Redirection, rest: Redirs)
    ensures Before(list, Before([x], rest)) == Before(list + [x], rest)
  {
    assert rest.Redirs? ==> list + ([x] + rest.list) == (list + [x]) + rest.list;
  }

  /** A round of parseredirs' loop. */
  lemma RedirsRound(buf: string, s: nat, list: seq<Redirection>)
    requires s <= |buf| && IsInput(buf)
    ensures !Peek(buf, s, "<>") ==> Before(list, ParseRedirs(buf, s)) == Redirs(list, SkipSpace(buf, s))
    ensures Peek(buf, s, "<>") ==>
            var op := GetToken(buf, s);
            && s < op.s <= |buf|
            && var word := GetToken(buf, op.s);
            && op.s <= word.s <= |buf|
            && Before(list, ParseRedirs(buf, s)) ==
               if word.kind != 'a' then RedirPanic
               else Before(list + [Redirection(Tok(word.q, word.eq), Mode(op.kind), Fd(op.kind))],
                   ParseRedirs(buf, word.s))
  {
    assert list + [] == list;
    if Peek(buf, s, "<>") {
      assert s < Past(buf, s, "<>");
      var op := GetToken(buf, s);
      var word := GetToken(buf, op.s);
      if word.kind == 'a' {
        var x := Redirection(Tok(word.q, word.eq), Mode(op.kind), Fd(op.kind));
        assert ParseRedirs(buf, s) == Before([x], ParseRedirs(buf, word.s));
        BeforeMore(list, x, ParseRedirs(buf, word.s));
      }
    }
    hide GetToken, Peek, SkipSpace, IsInput;
  }

  class Parser {
    const buf: string
    var s: nat

    predicate Ok()
      reads this
    {
      s <= |buf| && IsInput(buf)
    }

    constructor (input: string)
      requires IsInput(input)
      ensures Ok() && buf == input && s == 0
    {
      buf, s := input, 0;
    }

    method SkipBlanks()
      requires Ok()
      modifies this`s
      ensures Ok() && s == SkipSpace(buf, old(s))
    {
      while s < |buf| && IsSpace(buf[s])
        invariant Ok() && SkipSpace(buf, s) == SkipSpace(buf, old(s))
      {
        s := s + 1;
      }
    }

    method SkipLetters()
      requires Ok()
      modifies this`s
      ensures Ok() && s == SkipWord(buf, old(s))
    {
      while s < |buf| && !IsSpace(buf[s]) && !IsSymbol(buf[s])
        invariant Ok() && SkipWord(buf, s) == SkipWord(buf, old(s))
      {
        s := s + 1;
      }
    }

    method NextToken() returns (kind: char, q: nat, eq: nat)
      requires Ok()
      modifies this`s
      ensures Ok() && Token(kind, q, eq, s) == GetToken(buf, old(s))
    {
      SkipBlanks();
      q := s;
      kind := At(buf, s);
      if kind == '\0' {
        eq := s;
      } else if kind == '>' {
        s := s + 1;
        if At(buf, s) == '>' {
          kind := '+';
          s := s + 1;
        }
      } else if IsSymbol(kind) {
        s := s + 1;
      } else {
        kind := 'a';
        SkipLetters();
      }
      eq := s;
      SkipBlanks();
    }

    method PeekFor(toks: string) returns (yes: bool)
      requires Ok()
      modifies this`s
      ensures Ok() && s == SkipSpace(buf, old(s)) && yes == Peek(buf, old(s), toks)
    {
      SkipBlanks();
      yes := At(buf, s) != '\0' && At(buf, s) in toks;
    }

    /** parseredirs: `list` is the redirections read, outermost last. */
    method Redirections() returns (r: Redirs)
      requires Ok()
      modifies this`s
      ensures Ok() && r == ParseRedirs(buf, old(s)) && (r.Redirs? ==> s == r.s)
    {
      var list: seq<Redirection> := [];
      hide SkipSpace, GetToken, Peek, IsInput, RedirsOk, ParseRedirs, Before;
      BeforeNone(ParseRedirs(buf, s));
      while true
        invariant Ok() && ParseRedirs(buf, old(s)) == Before(list, ParseRedirs(buf, s))
        decreases |buf| - s
      {
        SkipTwice(buf, s);
        RedirsRound(buf, s, list);
        var more := PeekFor("<>");
        if !more {
          return Redirs(list, s);
        }
        var op, _, _ := NextToken();
        var kind, q, eq := NextToken();
        if kind != 'a' {
          return RedirPanic;
        }
        list := list + [Redirection(Tok(q, eq), Mode(op), Fd(op))];
      }
    }

    /** parseexec's loop over words. */
    method Arguments(first: seq<Redirection>) returns (r: Parse)
      requires Ok() && ArgsOk(buf, [], first)
      modifies this`s
      ensures Ok() && r == ExecLoop(buf, [], first, old(s)) && (r.Ok? ==> s == r.s)
    {
      var argv: seq<Tok>, list := [], first;
      hide SkipSpace, GetToken, Peek, IsInput, RedirOk, ParseRedirs, Parsed, ArgsOk, Wrap;
      while true
        invariant Ok() && ArgsOk(buf, argv, list)
        invariant ExecLoop(buf, [], first, old(s)) == ExecLoop(buf, argv, list, s)
        decreases |buf| - s
      {
        SkipTwice(buf, s);
        var stop := PeekFor("|)&;");
        if stop {
          return Parse.Ok(Wrap(Exec(argv), list), s);
        }
        var kind, q, eq := NextToken();
        if kind == '\0' {
          return Parse.Ok(Wrap(Exec(argv), list), s);
        }
        if kind != 'a' || |argv| + 1 >= MAXARGS {
          return Panic;
        }
        ghost var s1 := s;
        var rs := Redirections();
        if rs == RedirPanic {
          return Panic;
        }
        ArgsMore(buf, argv, list, Tok(q, eq), s1, rs);
        argv, list := argv + [Tok(q, eq)], list + rs.list;
      }
    }

    method Command() returns (r: Parse)
      requires Ok()
      modifies this`s
      ensures Ok() && r == ParseExec(buf, old(s)) && (r.Ok? ==> s == r.s)
      decreases |buf| - s, 1
    {
      hide SkipSpace, GetToken, Peek, IsInput, ParseRedirs, Parsed, ExecLoop, ParseBlock;
      SkipTwice(buf, s);
      SkipRedirs(buf, s);
      SkipBlock(buf, s);
      var block := PeekFor("(");
      if block {
        r := Block();
      } else {
        var rs := Redirections();
        if rs == RedirPanic {
          return Panic;
        }
        r := Arguments(rs.list);
      }
    }

    method Block() returns (r: Parse)
      requires Ok()
      modifies this`s
      ensures Ok() && r == ParseBlock(buf, old(s)) && (r.Ok? ==> s == r.s)
      decreases |buf| - s, 0
    {
      hide SkipSpace, GetToken, Peek, IsInput, ParseRedirs, Built, ParseLine, Wrap;
      SkipTwice(buf, s);
      var open := PeekFor("(");
      if !open {
        return Panic;
      }
      assert old(s) < Past(buf, old(s), "(");
      var _, _, _ := NextToken();
      var line := Line();
      if line == Panic {
        return Panic;
      }
      SkipTwice(buf, s);
      var close := PeekFor(")");
      if !close {
        return Panic;
      }
      var _, _, _ := NextToken();
      var rs := Redirections();
      if rs == RedirPanic {
        return Panic;
      }
      return Parse.Ok(Wrap(line.cmd, rs.list), s);
    }

    method Pipeline() returns (r: Parse)
      requires Ok()
      modifies this`s
      ensures Ok() && r == ParsePipe(buf, old(s)) && (r.Ok? ==> s == r.s)
      decreases |buf| - s, 2
    {
      hide SkipSpace, GetToken, Peek, IsInput, Built, ParseExec;
      var left := Command();
      if left == Panic {
        return Panic;
      }
      SkipStays(buf, s);
      SkipTwice(buf, s);
      var more := PeekFor("|");
      if !more {
        return left;
      }
      assert left.s < Past(buf, left.s, "|");
      var _, _, _ := NextToken();
      var right := Pipeline();
      if right == Panic {
        return Panic;
      }
      return Parse.Ok(Pipe(left.cmd, right.cmd), s);
    }

    /** parseline's loop over ampersands. */
    method Ampersands(first: Cmd<Tok>) returns (r: Parse)
      requires Ok()
      modifies this`s
      ensures Ok() && r == ParseBacks(buf, first, old(s)) && r.Ok? && s == r.s
    {
      hide SkipSpace, GetToken, Peek, IsInput, Parsed;
      var cmd := first;
      while true
        invariant Ok() && ParseBacks(buf, first, old(s)) == ParseBacks(buf, cmd, s)
        decreases |buf| - s
      {
        SkipTwice(buf, s);
        var more := PeekFor("&");
        if !more {
          return Parse.Ok(cmd, s);
        }
        var _, _, _ := NextToken();
        cmd := Back(cmd);
      }
    }

    method Line() returns (r: Parse)
      requires Ok()
      modifies this`s
      ensures Ok() && r == ParseLine(buf, old(s)) && (r.Ok? ==> s == r.s)
      decreases |buf| - s, 3
    {
      hide SkipSpace, GetToken, Peek, IsInput, Built, ParsePipe, ParseBacks;
      var first := Pipeline();
      if first == Panic {
        return Panic;
      }
      var left := Ampersands(first.cmd);
      BacksStop(buf, first.cmd, first.s);
      SkipStays(buf, s);
      SkipTwice(buf, s);
      var more := PeekFor(";");
      if !more {
        return left;
      }
      assert left.s < Past(buf, left.s, ";");
      var _, _, _ := NextToken();
      var right := Line();
      if right == Panic {
        return Panic;
      }
      return Parse.Ok(List(left.cmd, right.cmd), s);
    }

    /** parsecmd, up to nulterminate. */
    method Whole() returns (r: Parse)
      requires Ok() && s == 0
      modifies this`s
      ensures Ok() && r == ParseCmd(buf)
    {
      hide SkipSpace, GetToken, Peek, IsInput, ParseLine;
      r := Line();
      if r == Panic {
        return;
      }
      SkipStays(buf, s);
      var _ := PeekFor("");
      if s != |buf| {
        return Panic;
      }
    }
  }
}
