/** user/grep.c: the matcher for the operators ^ . * $, and the loop that reads, matches and prints lines. */
module Grep {

  // ---- what the matcher computes ----

  /** The class of characters that `c` stands for. */
  predicate Fits(c: char, d: char) {
    c == '.' || c == d
  }

  predicate MatchHere(re: string, text: string, i: nat)
    requires i <= |text|
    decreases |re|, |text| - i, 0
  {
    if re == "" then true
    else if |re| > 1 && re[1] == '*' then MatchStar(re[0], re[2..], text, i)
    else if re == "$" then i == |text|
    else i < |text| && Fits(re[0], text[i]) && MatchHere(re[1..], text, i + 1)
  }

  predicate MatchStar(c: char, re: string, text: string, i: nat)
    requires i <= |text|
    decreases |re|, |text| - i, 1
  {
    MatchHere(re, text, i) || (i < |text| && Fits(c, text[i]) && MatchStar(c, re, text, i + 1))
  }

  predicate MatchFrom(re: string, text: string, i: nat)
    requires i <= |text|
    decreases |text| - i
  {
    MatchHere(re, text, i) || (i < |text| && MatchFrom(re, text, i + 1))
  }

  predicate Match(re: string, text: string) {
    if re != "" && re[0] == '^' then MatchHere(re[1..], text, 0) else MatchFrom(re, text, 0)
  }

  // ---- what a pattern means ----

  datatype Item = One(c: char) | Star(c: char)

  /** A pattern as the matcher reads it: a star is looked for before anything else, and a dollar is an anchor
      only where it ends the pattern. */
  datatype Pattern = Pattern(items: seq<Item>, anchored: bool)

  function Read(re: string): Pattern {
    if re == "" then Pattern([], false)
    else if |re| > 1 && re[1] == '*' then
      var rest := Read(re[2..]);
      Pattern([Star(re[0])] + rest.items, rest.anchored)
    else if re == "$" then Pattern([], true)
    else
      var rest := Read(re[1..]);
      Pattern([One(re[0])] + rest.items, rest.anchored)
  }

  /** The words that a sequence of items stands for. */
  ghost predicate InLanguage(items: seq<Item>, w: string)
    decreases |items|
  {
    if items == [] then w == ""
    else match items[0]
      case One(c) => w != "" && Fits(c, w[0]) && InLanguage(items[1..], w[1..])
      case Star(c) => exists k: nat :: k <= |w| && AllFit(c, w[..k]) && InLanguage(items[1..], w[k..])
  }

  predicate AllFit(c: char, w: string) {
    forall i :: 0 <= i < |w| ==> Fits(c, w[i])
  }

  /** Some word of the pattern stands in the text from `i` to `j`; an anchored one ends where the text does. */
  ghost predicate Occurs(p: Pattern, text: string, i: nat, j: nat) {
    i <= j <= |text| && InLanguage(p.items, text[i..j]) && (p.anchored ==> j == |text|)
  }

  ghost predicate OccursAt(p: Pattern, text: string, i: nat) {
    exists j: nat :: Occurs(p, text, i, j)
  }

  // ---- the matcher is right ----

  lemma {:induction false} HereIsRight(re: string, text: string, i: nat)
    requires i <= |text|
    ensures MatchHere(re, text, i) <==> OccursAt(Read(re), text, i)
    decreases |re|, |text| - i, 0
  {
    if re == "" {
      assert Occurs(Read(re), text, i, i);
    } else if |re| > 1 && re[1] == '*' {
      StarIsRight(re[0], re[2..], text, i);
      StarReads(re, text, i);
    } else if re == "$" {
      if i == |text| {
        assert Occurs(Read(re), text, i, i);
      }
    } else {
      OneReads(re, text, i);
      if i < |text| {
        HereIsRight(re[1..], text, i + 1);
      }
    }
  }

  /** A single item: one character, then the rest. */
  lemma OneReads(re: string, text: string, i: nat)
    requires i <= |text| && re != "" && re != "$" && !(|re| > 1 && re[1] == '*')
    ensures OccursAt(Read(re), text, i) <==>
            i < |text| && Fits(re[0], text[i]) && OccursAt(Read(re[1..]), text, i + 1)
  {
    var p, rest := Read(re), Read(re[1..]);
    assert p.items[1..] == rest.items;
    if OccursAt(p, text, i) {
      var j: nat :| Occurs(p, text, i, j);
      assert text[i..j][1..] == text[i + 1..j];
      assert Occurs(rest, text, i + 1, j);
    }
    if i < |text| && Fits(re[0], text[i]) && OccursAt(rest, text, i + 1) {
      var j: nat :| Occurs(rest, text, i + 1, j);
      assert text[i..j][1..] == text[i + 1..j];
      assert Occurs(p, text, i, j);
    }
  }

  /** `k` characters of the class, then the rest. */
  ghost predicate StarThen(c: char, rest: Pattern, text: string, i: nat, k: nat) {
    i <= k <= |text| && AllFit(c, text[i..k]) && OccursAt(rest, text, k)
  }

  ghost predicate StarSomewhere(c: char, rest: Pattern, text: string, i: nat) {
    exists k: nat :: StarThen(c, rest, text, i, k)
  }

  lemma StarSplits(p: Pattern, c: char, rest: Pattern, text: string, i: nat)
    requires p == Pattern([Star(c)] + rest.items, rest.anchored) && OccursAt(p, text, i)
    ensures StarSomewhere(c, rest, text, i)
  {
    var j: nat :| Occurs(p, text, i, j);
    assert p.items[1..] == rest.items;
    var w := text[i..j];
    var n: nat :| n <= |w| && AllFit(c, w[..n]) && InLanguage(p.items[1..], w[n..]);
    hide InLanguage;
    var k := i + n;
    assert w[n..] == text[k..j] && w[..n] == text[i..k];
    assert Occurs(rest, text, k, j);
    assert StarThen(c, rest, text, i, k);
  }

  lemma StarJoins(p: Pattern, c: char, rest: Pattern, text: string, i: nat)
    requires p == Pattern([Star(c)] + rest.items, rest.anchored) && StarSomewhere(c, rest, text, i)
    ensures OccursAt(p, text, i)
  {
    var k: nat :| StarThen(c, rest, text, i, k);
    var j: nat :| Occurs(rest, text, k, j);
    var w := text[i..j];
    assert p.items[1..] == rest.items;
    assert w[k - i..] == text[k..j] && w[..k - i] == text[i..k];
    assert InLanguage(p.items, w);
    assert Occurs(p, text, i, j);
  }

  lemma StarReads(re: string, text: string, i: nat)
    requires i <= |text| && |re| > 1 && re[1] == '*'
    ensures OccursAt(Read(re), text, i) <==> StarSomewhere(re[0], Read(re[2..]), text, i)
  {
    var p, rest := Read(re), Read(re[2..]);
    assert p == Pattern([Star(re[0])] + rest.items, rest.anchored);
    hide Read, OccursAt, StarSomewhere;
    if OccursAt(p, text, i) {
      StarSplits(p, re[0], rest, text, i);
    }
    if StarSomewhere(re[0], rest, text, i) {
      StarJoins(p, re[0], rest, text, i);
    }
  }

  lemma {:induction false} StarIsRight(c: char, re: string, text: string, i: nat)
    requires i <= |text|
    ensures MatchStar(c, re, text, i) <==> StarSomewhere(c, Read(re), text, i)
    decreases |re|, |text| - i, 1
  {
    var p := Read(re);
    HereIsRight(re, text, i);
    if MatchHere(re, text, i) {
      assert StarThen(c, p, text, i, i);
    } else if i < |text| && Fits(c, text[i]) {
      var i1 := i + 1;
      StarIsRight(c, re, text, i1);
      hide Occurs;
      if k: nat :| StarThen(c, p, text, i1, k) {
        assert text[i..k] == [text[i]] + text[i1..k];
        assert StarThen(c, p, text, i, k);
      }
      if k: nat :| StarThen(c, p, text, i, k) {
        assert text[i..k][1..] == text[i1..k];
        assert StarThen(c, p, text, i1, k);
      }
    } else if i < |text| {
      forall k: nat | i < k <= |text| ensures !AllFit(c, text[i..k]) {
        assert text[i..k][0] == text[i];
      }
    }
  }

  /** A word of the pattern starts at `i` or behind it. */
  ghost predicate OccursFrom(p: Pattern, text: string, i: nat) {
    exists k: nat :: i <= k <= |text| && OccursAt(p, text, k)
  }

  lemma {:induction false} FromIsRight(re: string, text: string, i: nat)
    requires i <= |text|
    ensures MatchFrom(re, text, i) <==> OccursFrom(Read(re), text, i)
    decreases |text| - i
  {
    HereIsRight(re, text, i);
    if i < |text| {
      FromIsRight(re, text, i + 1);
    }
  }

  /** Some substring of the text is a word of the pattern, at the start of the text if the pattern starts with a
      caret, and at its end if it ends with a dollar. */
  ghost predicate Matches(re: string, text: string) {
    if re != "" && re[0] == '^' then OccursAt(Read(re[1..]), text, 0)
    else OccursFrom(Read(re), text, 0)
  }

  /** match says yes exactly then. */
  lemma MatchIsRight(re: string, text: string)
    ensures Match(re, text) <==> Matches(re, text)
  {
    if re != "" && re[0] == '^' {
      HereIsRight(re[1..], text, 0);
    } else {
      FromIsRight(re, text, 0);
    }
  }

  // ---- what that comes to for plain text and for dots ----

  predicate IsPlain(re: string) {
    forall i :: 0 <= i < |re| ==> re[i] != '.' && re[i] != '*' && re[i] != '^' && re[i] != '$'
  }

  predicate StandsAt(re: string, text: string, i: nat) {
    i + |re| <= |text| && text[i..i + |re|] == re
  }

  lemma {:induction false} PlainHere(re: string, text: string, i: nat)
    requires i <= |text| && IsPlain(re)
    ensures MatchHere(re, text, i) <==> StandsAt(re, text, i)
    decreases |re|
  {
    if re != "" && i < |text| {
      assert re[0] != '$' && (|re| > 1 ==> re[1] != '*');
      PlainHere(re[1..], text, i + 1);
      if i + |re| <= |text| {
        assert text[i..i + |re|] == [text[i]] + text[i + 1..i + |re|];
        assert re == [re[0]] + re[1..];
      }
    } else if re != "" {
      assert re[0] != '$' && (|re| > 1 ==> re[1] != '*');
    }
  }

  lemma {:induction false} PlainFrom(re: string, text: string, i: nat)
    requires i <= |text| && IsPlain(re)
    ensures MatchFrom(re, text, i) <==> exists k: nat :: i <= k && StandsAt(re, text, k)
    decreases |text| - i
  {
    PlainHere(re, text, i);
    if i < |text| {
      PlainFrom(re, text, i + 1);
    }
  }

  /** A pattern without operators finds exactly the texts that contain it. */
  lemma PlainIsSubstring(re: string, text: string)
    requires IsPlain(re)
    ensures Match(re, text) <==> exists k: nat :: StandsAt(re, text, k)
  {
    PlainFrom(re, text, 0);
  }

  function Dots(n: nat): string {
    seq(n, _ => '.')
  }

  lemma {:induction false} DotsHere(n: nat, text: string, i: nat)
    requires i <= |text|
    ensures MatchHere(Dots(n), text, i) <==> i + n <= |text|
    decreases n
  {
    if n > 0 {
      assert Dots(n)[0] != '$' && (n > 1 ==> Dots(n)[1] != '*');
      if i < |text| {
        assert Dots(n)[1..] == Dots(n - 1);
        DotsHere(n - 1, text, i + 1);
      }
    }
  }

  lemma {:induction false} DotsFrom(n: nat, text: string, i: nat)
    requires i <= |text|
    ensures MatchFrom(Dots(n), text, i) <==> i + n <= |text|
    decreases |text| - i
  {
    DotsHere(n, text, i);
    if i < |text| {
      DotsFrom(n, text, i + 1);
    }
  }

  /** A dot stands for any one character: a pattern of `n` dots finds exactly the texts of that length or more. */
  lemma DotsCount(n: nat, text: string)
    ensures Match(Dots(n), text) <==> n <= |text|
  {
    DotsFrom(n, text, 0);
  }

  lemma {:induction false} StarHere(c: char, text: string, i: nat)
    requires i <= |text|
    ensures MatchStar(c, "$", text, i) <==> c == '.' || forall k :: i <= k < |text| ==> text[k] == c
    decreases |text| - i
  {
    if i < |text| {
      StarHere(c, text, i + 1);
    }
  }

  /** A line that is all one character, and with a dot any line. */
  lemma StarLine(c: char, text: string)
    ensures Match(['^', c, '*', '$'], text) <==> c == '.' || forall k :: 0 <= k < |text| ==> text[k] == c
  {
    var re := ['^', c, '*', '$'];
    assert re[1..] == [c, '*', '$'] && re[1..][2..] == "$";
    StarHere(c, text, 0);
  }

  // ---- the matcher's loops ----

  method DoMatchHere(re: string, text: string, i: nat) returns (yes: bool)
    requires i <= |text|
    ensures yes == MatchHere(re, text, i)
    decreases |re|, |text| - i, 0
  {
    if re == "" {
      return true;
    }
    if |re| > 1 && re[1] == '*' {
      yes := DoMatchStar(re[0], re[2..], text, i);
      return;
    }
    if re == "$" {
      return i == |text|;
    }
    if i < |text| && (re[0] == '.' || re[0] == text[i]) {
      yes := DoMatchHere(re[1..], text, i + 1);
      return;
    }
    return false;
  }

  method DoMatchStar(c: char, re: string, text: string, i: nat) returns (yes: bool)
    requires i <= |text|
    ensures yes == MatchStar(c, re, text, i)
    decreases |re|, |text| - i, 1
  {
    var k := i;
    while true
      invariant i <= k <= |text| && MatchStar(c, re, text, i) == MatchStar(c, re, text, k)
      decreases |text| - k
    {
      yes := DoMatchHere(re, text, k);
      if yes {
        return;
      }
      if k == |text| || !(text[k] == c || c == '.') {
        return false;
      }
      k := k + 1;
    }
  }

  method DoMatch(re: string, text: string) returns (yes: bool)
    ensures yes <==> Matches(re, text)
  {
    MatchIsRight(re, text);
    hide Matches;
    if re != "" && re[0] == '^' {
      yes := DoMatchHere(re[1..], text, 0);
      return;
    }
    var i := 0;
    while true
      invariant 0 <= i <= |text| && MatchFrom(re, text, 0) == MatchFrom(re, text, i)
      decreases |text| - i
    {
      yes := DoMatchHere(re, text, i);
      if yes {
        return;
      }
      if i == |text| {
        return false;
      }
      i := i + 1;
    }
  }

  // ---- lines ----

  const BUFSIZE: nat := 1024

  function FirstNewline(s: string): (q: nat)
    ensures q <= |s| && (forall i :: 0 <= i < q ==> s[i] != '\n') && (q < |s| ==> s[q] == '\n')
  {
    if s == "" || s[0] == '\n' then 0 else 1 + FirstNewline(s[1..])
  }

  /** What is printed of one line. */
  ghost function PrintedLine(re: string, line: string): string {
    if Matches(re, line) then line + "\n" else ""
  }

  /** All newline-terminated lines that match, in order. */
  ghost function MatchingLines(re: string, s: string): string
    decreases |s|
  {
    var q := FirstNewline(s);
    if q == |s| then "" else PrintedLine(re, s[..q]) + MatchingLines(re, s[q + 1..])
  }

  /** The same, but up to the first line that does not fit the buffer with its newline. */
  ghost function Printed(re: string, s: string): string
    decreases |s|
  {
    var q := FirstNewline(s);
    if q == |s| || q + 1 >= BUFSIZE then "" else PrintedLine(re, s[..q]) + Printed(re, s[q + 1..])
  }

  predicate ShortLines(s: string)
    decreases |s|
  {
    var q := FirstNewline(s);
    q == |s| || (q + 1 < BUFSIZE && ShortLines(s[q + 1..]))
  }

  /** With lines that fit, nothing is missing. */
  lemma {:induction false} ShortLinesPrinted(re: string, s: string)
    requires ShortLines(s)
    ensures Printed(re, s) == MatchingLines(re, s)
    decreases |s|
  {
    var q := FirstNewline(s);
    if q < |s| {
      ShortLinesPrinted(re, s[q + 1..]);
    }
  }

  /** The pattern "^" matches every line. */
  lemma CaretMatches(text: string)
    ensures Matches("^", text)
  {
    MatchIsRight("^", text);
    assert MatchHere("^"[1..], text, 0);
  }

  /** A line that does not fit is lost, with all that follow: the pattern that matches every line shows it. */
  lemma {:induction false} LongLineLost(s: string)
    requires !ShortLines(s)
    ensures |Printed("^", s)| < |MatchingLines("^", s)|
    decreases |s|
  {
    var q := FirstNewline(s);
    CaretMatches(s[..q]);
    if q + 1 < BUFSIZE {
      LongLineLost(s[q + 1..]);
    }
  }

  /** grep prints exactly the matching lines, for every pattern that can be given, if and only if every line fits. */
  lemma PrintedExactly(s: string)
    ensures (forall re | re != "" :: Printed(re, s) == MatchingLines(re, s)) <==> ShortLines(s)
  {
    if ShortLines(s) {
      forall re | re != "" ensures Printed(re, s) == MatchingLines(re, s) {
        ShortLinesPrinted(re, s);
      }
    } else {
      LongLineLost(s);
      assert "^" != "";
    }
  }

  /** A matching line of 1023 bytes, one too many with its newline: nothing is printed. */
  lemma LostLine(s: string)
    requires s == seq(1023, _ => 'a') + "\n"
    ensures !ShortLines(s) && Printed("a", s) == "" && MatchingLines("a", s) == s
  {
    NewlineAt(s, 1023);
    var line := s[..1023];
    MatchIsRight("a", line);
    assert MatchHere("a", line, 0) by {
      assert MatchHere("a"[1..], line, 1);
    }
    assert s[1024..] == "" && line + "\n" == s;
  }

  lemma {:induction false} NewlineAt(s: string, q: nat)
    requires q < |s| && s[q] == '\n' && forall i :: 0 <= i < q ==> s[i] != '\n'
    ensures FirstNewline(s) == q
  {
  }

  lemma {:induction false} PrintedStep(re: string, s: string, q: nat)
    requires FirstNewline(s) == q < |s| && q + 1 < BUFSIZE
    ensures Printed(re, s) == PrintedLine(re, s[..q]) + Printed(re, s[q + 1..])
  {
    hide PrintedLine, FirstNewline;
  }

  lemma {:induction false} LineSlices(d: string, rest: string, p: nat, q: nat)
    requires p <= q < |d| && d[q] == '\n' && OneLine(d[p..q])
    ensures var s := d[p..] + rest;
            FirstNewline(s) == q - p && s[..q - p] == d[p..q] && s[q - p + 1..] == d[q + 1..] + rest
  {
    var s := d[p..] + rest;
    assert forall i :: 0 <= i < q - p ==> s[i] == d[p..q][i];
    NewlineAt(s, q - p);
  }

  /** A line that lies in the buffer is printed or not, and the rest goes on as before. */
  lemma {:induction false} LineDone(re: string, d: string, rest: string, p: nat, q: nat)
    requires |d| < BUFSIZE && p <= q < |d| && d[q] == '\n' && OneLine(d[p..q])
    ensures Sofar(re, d[p..] + rest, PrintedLine(re, d[p..q]), d[q + 1..] + rest)
  {
    hide Printed, PrintedLine, FirstNewline, OneLine;
    LineSlices(d, rest, p, q);
    PrintedStep(re, d[p..] + rest, q - p);
  }

  /** Nothing more is printed when the buffer is full of one line, or the input has ended in one. */
  lemma {:induction false} NothingMore(re: string, carry: string, rest: string)
    requires OneLine(carry) && (rest == "" || |carry| + 1 == BUFSIZE)
    ensures Printed(re, carry + rest) == ""
  {
    var s := carry + rest;
    assert forall i :: 0 <= i < |carry| ==> s[i] == carry[i];
  }

  // ---- reading ----

  /** A file that is read in pieces of any sizes. */
  class Input {
    const data: string
    const sizes: seq<nat>
    var pos: nat
    var calls: nat

    constructor (data: string, sizes: seq<nat>)
      ensures this.data == data && this.sizes == sizes && pos == 0
    {
      this.data, this.sizes, pos, calls := data, sizes, 0, 0;
    }

    /** At most `max` bytes, and none only at the end or when none are asked for. */
    method Read(max: nat) returns (chunk: string)
      requires pos <= |data|
      modifies this
      ensures old(pos) <= pos <= |data| && chunk == data[old(pos)..pos] && |chunk| <= max
      ensures chunk == "" <==> max == 0 || old(pos) == |data|
    {
      var left := if max < |data| - pos then max else |data| - pos;
      var n := if calls < |sizes| then sizes[calls] else left;
      n := if left < n then left else n;
      n := if n == 0 && left > 0 then 1 else n;
      calls := calls + 1;
      chunk := data[pos..pos + n];
      pos := pos + n;
    }
  }

  predicate IsText(s: string) {
    forall i :: 0 <= i < |s| ==> s[i] != '\0'
  }

  predicate OneLine(s: string) {
    forall i :: 0 <= i < |s| ==> s[i] != '\n'
  }

  /** Of what is to be printed for `all`, `out` has been printed, and `left` is what is left to look at. */
  ghost predicate Sofar(re: string, all: string, out: string, left: string) {
    Printed(re, all) == out + Printed(re, left)
  }

  lemma {:induction false} SofarStart(re: string, all: string)
    ensures Sofar(re, all, "", all)
  {
  }

  lemma {:induction false} SofarMore(re: string, all: string, out: string, left: string, more: string, left': string)
    requires Sofar(re, all, out, left) && Sofar(re, left, more, left')
    ensures Sofar(re, all, out + more, left')
  {
    assert out + (more + Printed(re, left')) == (out + more) + Printed(re, left');
  }

  /** strchr(p, '\n') on the NUL-terminated buffer. */
  method FindNewline(buf: array<char>, p: nat, ghost m: nat) returns (q: nat)
    requires p <= m < buf.Length && buf[m] == '\0' && IsText(buf[p..m])
    ensures p <= q <= m && OneLine(buf[p..q]) && (q < m ==> buf[q] == '\n')
  {
    q := p;
    assert forall i :: p <= i < m ==> buf[i] == buf[p..m][i - p];
    while buf[q] != '\0' && buf[q] != '\n'
      invariant p <= q <= m && forall i :: p <= i < q ==> buf[i] != '\n'
      decreases m - q
    {
      q := q + 1;
    }
  }

  /** One line of the inner loop: cut it off at its newline, match it, and print it with the newline put back. */
  method PrintOne(re: string, buf: array<char>, p: nat, q: nat, ghost m: nat) returns (out: string)
    requires p <= q < m < buf.Length && buf[q] == '\n'
    modifies buf
    ensures out == PrintedLine(re, old(buf[p..q])) && buf[q + 1..m] == old(buf[q + 1..m]) && buf[m] == old(buf[m])
  {
    buf[q] := '\0';
    ghost var line := old(buf[p..q]);
    assert buf[p..q] == line;
    var yes := DoMatch(re, buf[p..q]);
    out := "";
    if yes {
      buf[q] := '\n';
      assert buf[p..q + 1] == line + "\n";
      out := buf[p..q + 1];
    }
  }

  /** A round of the inner loop; `d` is what the buffer held at first, and `rest` is still to be read. */
  method NextLine(re: string, buf: array<char>, p: nat, m: nat, ghost d: string, ghost rest: string)
    returns (done: bool, p': nat, more: string)
    requires p <= m == |d| < BUFSIZE == buf.Length && buf[m] == '\0' && buf[p..m] == d[p..] && IsText(d)
    modifies buf
    ensures p <= p' <= m && buf[m] == '\0' && buf[p'..m] == d[p'..]
    ensures if done then p' == p && OneLine(d[p..]) else p < p' && Sofar(re, d[p..] + rest, more, d[p'..] + rest)
  {
    hide Sofar, PrintedLine, IsText, OneLine, Printed;
    TextTail(d, p);
    p' := FindNewline(buf, p, m);
    done, more := p' == m, "";
    if done {
      p' := p;
    } else {
      Slices(buf[p..m], buf[p..p'], buf[p' + 1..m], d, p, p');
      LineDone(re, d, rest, p, p');
      more := PrintOne(re, buf, p, p', m);
      p' := p' + 1;
    }
  }

  lemma Slices(a: string, b: string, c: string, d: string, p: nat, q: nat)
    requires p <= q < |d| && a == d[p..] && |b| == q - p && |c| == |d| - q - 1 && b == a[..q - p] && c == a[q - p + 1..]
    ensures b == d[p..q] && a[q - p] == d[q] && c == d[q + 1..]
  {
  }

  lemma {:induction false} SofarEnd(re: string, all: string, out: string, carry: string, rest: string)
    requires Sofar(re, all, out, carry + rest) && OneLine(carry) && (rest == "" || |carry| + 1 == BUFSIZE)
    ensures out == Printed(re, all)
  {
    NothingMore(re, carry, rest);
  }

  /** The inner loop: match and print the lines in buf[..m], and return where the last, unfinished one starts. */
  method PrintLines(re: string, buf: array<char>, m: nat, ghost rest: string) returns (p: nat, out: string)
    requires buf.Length == BUFSIZE && m < BUFSIZE && buf[m] == '\0' && IsText(buf[..m])
    modifies buf
    ensures p <= m && buf[p..m] == old(buf[..m])[p..] && OneLine(buf[p..m])
    ensures Sofar(re, old(buf[..m]) + rest, out, buf[p..m] + rest)
  {
    p, out := 0, "";
    ghost var d := buf[..m];
    SofarStart(re, d + rest);
    assert d[0..] == d && buf[0..m] == d;
    hide Sofar, IsText, OneLine;
    var done := false;
    while !done
      invariant p <= m && buf[m] == '\0' && buf[p..m] == d[p..]
      invariant Sofar(re, d + rest, out, d[p..] + rest) && (done ==> OneLine(d[p..]))
      decreases !done, m - p
    {
      ghost var p0 := p;
      var more;
      done, p, more := NextLine(re, buf, p, m, d, rest);
      if !done {
        SofarMore(re, d + rest, out, d[p0..] + rest, more, d[p..] + rest);
        out := out + more;
      }
    }
  }

  /** memmove(buf, p, m). */
  method MoveDown(buf: array<char>, p: nat, m: nat)
    requires p + m <= buf.Length
    modifies buf
    ensures buf[..m] == old(buf[p..p + m])
  {
    var i := 0;
    while i < m
      invariant 0 <= i <= m && forall k :: 0 <= k < i ==> buf[k] == old(buf[p + k])
      invariant forall k :: i <= k < buf.Length ==> buf[k] == old(buf[k])
    {
      buf[i] := buf[p + i];
      i := i + 1;
    }
  }

  /** The bytes read go behind those kept. */
  method Store(buf: array<char>, m: nat, chunk: string)
    requires m + |chunk| < buf.Length
    modifies buf
    ensures buf[..m + |chunk|] == old(buf[..m]) + chunk && buf[m + |chunk|] == '\0'
  {
    var i := 0;
    while i < |chunk|
      invariant 0 <= i <= |chunk| && forall k :: 0 <= k < i ==> buf[m + k] == chunk[k]
      invariant forall k :: 0 <= k < m ==> buf[k] == old(buf[k])
    {
      buf[m + i] := chunk[i];
      i := i + 1;
    }
    buf[m + |chunk|] := '\0';
  }

  lemma TextJoined(s: string, t: string)
    requires IsText(s) && IsText(t)
    ensures IsText(s + t)
  {
  }

  lemma TextTail(s: string, p: nat)
    requires IsText(s) && p <= |s|
    ensures IsText(s[p..])
  {
  }

  /** What is done with the bytes of one read. */
  method Feed(re: string, buf: array<char>, m: nat, chunk: string, ghost rest: string) returns (m': nat, out: string)
    requires buf.Length == BUFSIZE && m + |chunk| < BUFSIZE && IsText(buf[..m]) && IsText(chunk)
    modifies buf
    ensures m' < BUFSIZE && IsText(buf[..m']) && OneLine(buf[..m'])
    ensures Sofar(re, old(buf[..m]) + chunk + rest, out, buf[..m'] + rest)
  {
    hide Sofar, OneLine, IsText;
    ghost var d := buf[..m] + chunk;
    var n := m + |chunk|;
    TextJoined(buf[..m], chunk);
    Store(buf, m, chunk);
    var p;
    p, out := PrintLines(re, buf, n, rest);
    TextTail(d, p);
    m' := n - p;
    MoveDown(buf, p, m');
  }

  /** grep: however the input is read in pieces, what is printed depends on the input alone. */
  method Grep(re: string, input: Input, buf: array<char>) returns (out: string)
    requires buf.Length == BUFSIZE && input.pos == 0 && IsText(input.data)
    modifies input, buf
    ensures out == Printed(re, input.data)
  {
    var m: nat := 0;
    out := "";
    SofarStart(re, input.data);
    assert buf[..0] + input.data[0..] == input.data;
    assert IsText(buf[..0]) && OneLine(buf[..0]);
    hide Sofar, Printed, IsText, OneLine;
    while true
      invariant m < BUFSIZE && input.pos <= |input.data| && IsText(buf[..m]) && OneLine(buf[..m])
      invariant Sofar(re, input.data, out, buf[..m] + input.data[input.pos..])
      decreases |input.data| - input.pos
    {
      ghost var carry, pos0 := buf[..m], input.pos;
      var chunk := input.Read(BUFSIZE - m - 1);
      if chunk == "" {
        SofarEnd(re, input.data, out, carry, input.data[pos0..]);
        return;
      }
      ghost var rest := input.data[input.pos..];
      Pieces(input.data, pos0, input.pos, carry);
      var more;
      m, more := Feed(re, buf, m, chunk, rest);
      SofarMore(re, input.data, out, carry + chunk + rest, more, buf[..m] + rest);
      out := out + more;
    }
  }

  lemma Pieces(data: string, i: nat, j: nat, carry: string)
    requires IsText(data) && i <= j <= |data|
    ensures IsText(data[i..j]) && carry + data[i..j] + data[j..] == carry + data[i..]
  {
    assert data[i..] == data[i..j] + data[j..];
  }
}
