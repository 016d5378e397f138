/** The recover shell's argument tokenizer, its quoting, and tab completion. Lines are strings
    of bytes. */
module Shell {
  import opened Records

  datatype Token = Token(text: string, start: nat)

  datatype Quote = NoQuote | Single | Double

  /** Where a scan stands: the finished tokens, the open one, a pending backslash, an open quote. */
  datatype State = State(toks: seq<Token>, cur: Option<Token>, esc: bool, quote: Quote)

  function Between(toks: seq<Token>): State { State(toks, None, false, NoQuote) }

  const INIT := Between([])

  function Begin(s: State, i: nat): State
  {
    if s.cur.None? then s.(cur := Some(Token("", i))) else s
  }

  function Put(s: State, c: char): State
    requires s.cur.Some?
  {
    s.(cur := Some(Token(s.cur.value.text + [c], s.cur.value.start)))
  }

  function Flush(s: State): State
  {
    match s.cur case None => s case Some(t) => s.(toks := s.toks + [t], cur := None)
  }

  /** One byte c at offset i. */
  function Step(s: State, c: char, i: nat): State
  {
    if s.esc then Put(Begin(s, if i > 0 then i - 1 else 0), c).(esc := false)
    else if s.quote == Single then
      if c == '\'' then s.(quote := NoQuote) else Put(Begin(s, i), c)
    else if s.quote == Double then
      if c == '"' then s.(quote := NoQuote) else if c == '\\' then s.(esc := true) else Put(Begin(s, i), c)
    else if c == '\\' then s.(esc := true)
    else if c == '\'' then Begin(s, i).(quote := Single)
    else if c == '"' then Begin(s, i).(quote := Double)
    else if c == ' ' || c == '\t' then Flush(s)
    else Put(Begin(s, i), c)
  }

  /** The state after the line, starting in s at offset i. */
  function Run(s: State, line: string, i: nat): State
  {
    if line == "" then s
    else Step(Run(s, line[..|line| - 1], i), line[|line| - 1], i + |line| - 1)
  }

  function Scan(line: string): State { Run(INIT, line, 0) }

  function TokensOf(line: string): seq<Token> { Flush(Scan(line)).toks }

  /** The line ends on an unquoted separator, or is empty: a fresh token would begin there. */
  predicate AtSep(line: string)
  {
    var s := Scan(line);
    s.cur.None? && s.quote == NoQuote && !s.esc
  }

  method ScanTokens(line: string) returns (toks: seq<Token>, atSep: bool)
    ensures toks == TokensOf(line) && atSep == AtSep(line)
  {
    toks := [];
    var text, inTok, esc, quote := "", false, false, NoQuote;
    var start: nat := 0;
    for i := 0 to |line|
      invariant Scan(line[..i]) == State(toks, if inTok then Some(Token(text, start)) else None, esc, quote)
      invariant (!inTok ==> text == "" && quote == NoQuote) && (esc ==> i > 0)
    {
      var c := line[i];
      assert line[..i + 1][..i] == line[..i];
      if esc {
        if !inTok { inTok, start := true, i - 1; }
        text, esc := text + [c], false;
      } else if quote == Single {
        if c == '\'' { quote := NoQuote; } else { text := text + [c]; }
      } else if quote == Double {
        if c == '"' { quote := NoQuote; } else if c == '\\' { esc := true; } else { text := text + [c]; }
      } else if c == '\\' {
        esc := true;
      } else if c == '\'' || c == '"' {
        if !inTok { inTok, start := true, i; }
        quote := if c == '\'' then Single else Double;
      } else if c == ' ' || c == '\t' {
        if inTok { toks, text, inTok := toks + [Token(text, start)], "", false; }
      } else {
        if !inTok { inTok, start := true, i; }
        text := text + [c];
      }
    }
    assert line[..|line|] == line;
    atSep := !inTok && quote == NoQuote && !esc;
    if inTok { toks := toks + [Token(text, start)]; }
  }

  /** Scanning the line from s, at offset i, ends in t. */
  ghost predicate Reaches(s: State, line: string, i: nat, t: State) { Run(s, line, i) == t }

  lemma RunOne(s: State, front: string, c: char, i: nat, t: State)
    requires Reaches(s, front, i, t)
    ensures Reaches(s, front + [c], i, Step(t, c, i + |front|))
  {
    assert (front + [c])[..|front|] == front;
  }

  lemma RunNone(s: State, i: nat)
    ensures Reaches(s, "", i, s)
  {
  }

  lemma {:induction false} RunThrough(s: State, a: string, b: string, i: nat, t: State)
    requires Reaches(s, a, i, t)
    ensures Reaches(s, a + b, i, Run(t, b, i + |a|))
  {
    if b == "" {
      RunNone(t, i + |a|);
      assert a + b == a;
    } else {
      var front, c := b[..|b| - 1], b[|b| - 1];
      RunThrough(s, a, front, i, t);
      RunOne(s, a + front, c, i, Run(t, front, i + |a|));
      assert a + b == (a + front) + [c];
    }
  }

  // ---------------------------------------------------------------- quoting

  predicate Special(c: char) { c == ' ' || c == '\t' || c == '\'' || c == '"' || c == '\\' }

  predicate HasSpecial(s: string) { exists i :: 0 <= i < |s| && Special(s[i]) }

  /** The escaped form of one byte, inside double quotes. */
  function Escaped(c: char): string { if c == '\\' || c == '"' then ['\\', c] else [c] }

  function EscapeDoubleQuoted(s: string): string
  {
    if s == "" then ""
    else
      var c := s[|s| - 1];
      EscapeDoubleQuoted(s[..|s| - 1]) + Escaped(c)
  }

  function QuoteArg(s: string): string
  {
    if s == "" then "\"\""
    else if !HasSpecial(s) then s
    else if '\'' !in s then "'" + s + "'"
    else "\"" + EscapeDoubleQuoted(s) + "\""
  }

  /** What a scan reads next is taken as it stands: it goes on with the open token, or begins one
      at offset i. */
  function TakenAsIs(s: State, text: string, i: nat): State
  {
    match s.cur
    case None => s.(cur := Some(Token(text, i)))
    case Some(t) => s.(cur := Some(Token(t.text + text, t.start)))
  }

  /** Outside single quotes a backslash takes away whatever meaning the next byte has: a space
      does not end the token, a quote does not open or close anything. */
  lemma BackslashEscapes(front: string, c: char)
    requires !Scan(front).esc && Scan(front).quote != Single
    ensures Scan(front + "\\" + [c]) == TakenAsIs(Scan(front), [c], |front|)
  {
    var s := Scan(front);
    RunOne(INIT, front, '\\', 0, s);
    RunOne(INIT, front + ['\\'], c, 0, Step(s, '\\', |front|));
    assert front + "\\" + [c] == (front + ['\\']) + [c];
    assert "" + [c] == [c];
  }

  /** Outside quotes a space or a tab ends the token, and a run of them ends nothing more. */
  lemma SeparatorEnds(front: string, c: char)
    requires !Scan(front).esc && Scan(front).quote == NoQuote && (c == ' ' || c == '\t')
    ensures Scan(front + [c]) == Between(TokensOf(front)) && TokensOf(front + [c]) == TokensOf(front)
  {
    RunOne(INIT, front, c, 0, Scan(front));
  }

  /** The token that is open after reading text from offset i. */
  function Open(toks: seq<Token>, text: string, i: nat, quote: Quote): State
  {
    State(toks, Some(Token(text, i)), false, quote)
  }

  lemma {:induction false} BareScans(toks: seq<Token>, s: string, i: nat)
    requires s != "" && !HasSpecial(s)
    ensures Reaches(Between(toks), s, i, Open(toks, s, i, NoQuote))
  {
    var front, c := s[..|s| - 1], s[|s| - 1];
    assert !Special(c) && s == front + [c];
    if front == "" {
      RunNone(Between(toks), i);
      RunOne(Between(toks), front, c, i, Between(toks));
    } else {
      PlainFront(s);
      BareScans(toks, front, i);
      RunOne(Between(toks), front, c, i, Open(toks, front, i, NoQuote));
    }
  }

  lemma PlainFront(s: string)
    requires s != "" && !HasSpecial(s)
    ensures !HasSpecial(s[..|s| - 1])
  {
    assert forall k :: 0 <= k < |s| - 1 ==> s[..|s| - 1][k] == s[k];
  }

  /** An opening quote. */
  lemma QuoteOpens(toks: seq<Token>, c: char, i: nat)
    requires c == '\'' || c == '"'
    ensures Reaches(Between(toks), [c], i, Open(toks, "", i, if c == '"' then Double else Single))
  {
    RunNone(Between(toks), i);
    RunOne(Between(toks), "", c, i, Between(toks));
    assert "" + [c] == [c];
  }

  lemma {:induction false} SingleScans(toks: seq<Token>, s: string, i: nat)
    requires '\'' !in s
    ensures Reaches(Between(toks), "'" + s, i, Open(toks, s, i, Single))
  {
    if s == "" {
      QuoteOpens(toks, '\'', i);
      assert "'" + s == ['\''];
    } else {
      var front, c := s[..|s| - 1], s[|s| - 1];
      assert c in s && s == front + [c];
      SingleScans(toks, front, i);
      RunOne(Between(toks), "'" + front, c, i, Open(toks, front, i, Single));
      assert "'" + s == ("'" + front) + [c];
    }
  }

  lemma EscapedScans(s: State, q: string, toks: seq<Token>, text: string, at: nat, c: char, i: nat)
    requires Reaches(s, q, i, Open(toks, text, at, Double))
    ensures Reaches(s, q + Escaped(c), i, Open(toks, text + [c], at, Double))
  {
    var open := Open(toks, text, at, Double);
    if c == '\\' || c == '"' {
      RunOne(s, q, '\\', i, open);
      RunOne(s, q + ['\\'], c, i, open.(esc := true));
      assert q + Escaped(c) == (q + ['\\']) + [c];
    } else {
      RunOne(s, q, c, i, open);
    }
  }

  lemma EscapeLast(front: string, c: char)
    ensures "\"" + EscapeDoubleQuoted(front + [c]) == ("\"" + EscapeDoubleQuoted(front)) + Escaped(c)
  {
    assert (front + [c])[..|front|] == front;
  }

  lemma {:induction false} DoubleScans(toks: seq<Token>, s: string, i: nat)
    ensures Reaches(Between(toks), "\"" + EscapeDoubleQuoted(s), i, Open(toks, s, i, Double))
  {
    if s == "" {
      QuoteOpens(toks, '"', i);
      assert "\"" + EscapeDoubleQuoted(s) == ['"'];
    } else {
      var front, c := s[..|s| - 1], s[|s| - 1];
      assert s == front + [c];
      DoubleScans(toks, front, i);
      EscapedScans(Between(toks), "\"" + EscapeDoubleQuoted(front), toks, front, i, c, i);
      EscapeLast(front, c);
    }
  }

  /** Scanning a quoted argument from a separator opens one token holding the argument, which
      starts where its quoted form does. */
  lemma QuotedScans(toks: seq<Token>, s: string, i: nat)
    ensures Reaches(Between(toks), QuoteArg(s), i, Open(toks, s, i, NoQuote))
  {
    if s == "" {
      QuoteOpens(toks, '"', i);
      RunOne(Between(toks), ['"'], '"', i, Open(toks, "", i, Double));
      assert ['"'] + ['"'] == "\"\"";
    } else if !HasSpecial(s) {
      BareScans(toks, s, i);
    } else if '\'' !in s {
      SingleScans(toks, s, i);
      RunOne(Between(toks), "'" + s, '\'', i, Open(toks, s, i, Single));
      assert "'" + s + "'" == ("'" + s) + ['\''];
    } else {
      var q := "\"" + EscapeDoubleQuoted(s);
      DoubleScans(toks, s, i);
      RunOne(Between(toks), q, '"', i, Open(toks, s, i, Double));
      assert q + "\"" == q + ['"'];
    }
  }

  /** The quoted forms joined by single spaces. */
  function Joined(args: seq<string>): string
  {
    if args == [] then ""
    else if |args| == 1 then QuoteArg(args[0])
    else Joined(args[..|args| - 1]) + " " + QuoteArg(args[|args| - 1])
  }

  /** Each argument at the offset of its quoted form. */
  function Laid(args: seq<string>): seq<Token>
  {
    if args == [] then []
    else
      var n := |args| - 1;
      Laid(args[..n]) + [Token(args[n], |Joined(args)| - |QuoteArg(args[n])|)]
  }

  lemma SpaceEnds(s: State, line: string, toks: seq<Token>, text: string, i: nat, at: nat)
    requires Reaches(s, line, at, Open(toks, text, i, NoQuote))
    ensures Reaches(s, line + " ", at, Between(toks + [Token(text, i)]))
  {
    RunOne(s, line, ' ', at, Open(toks, text, i, NoQuote));
    assert line + " " == line + [' '];
  }

  /** One more quoted argument after a space. */
  lemma OneMore(line: string, toks: seq<Token>, text: string, i: nat, next: string)
    requires Reaches(INIT, line, 0, Open(toks, text, i, NoQuote))
    ensures Reaches(INIT, line + " " + QuoteArg(next), 0, Open(toks + [Token(text, i)], next, |line| + 1, NoQuote))
  {
    SpaceEnds(INIT, line, toks, text, i, 0);
    RunThrough(INIT, line + " ", QuoteArg(next), 0, Between(toks + [Token(text, i)]));
    QuotedScans(toks + [Token(text, i)], next, |line| + 1);
  }

  lemma {:induction false} LaidLast(args: seq<string>)
    ensures |Laid(args)| == |args|
    ensures args != [] ==> Laid(args)[|args| - 1].text == args[|args| - 1] && Laid(args)[..|args| - 1] == Laid(args[..|args| - 1])
  {
    if args != [] { LaidLast(args[..|args| - 1]); }
  }

  lemma SliceOfFront(a: string, b: string, lo: nat, hi: nat)
    requires lo <= hi <= |a|
    ensures (a + b)[lo..hi] == a[lo..hi]
  {
  }

  /** Where the k-th token says it starts, its argument's quoted form stands. */
  ghost predicate QuotedAt(line: string, t: Token, arg: string)
  {
    t.text == arg && t.start + |QuoteArg(arg)| <= |line| && line[t.start..t.start + |QuoteArg(arg)|] == QuoteArg(arg)
  }

  lemma LastQuotedAt(args: seq<string>)
    requires args != []
    ensures |Laid(args)| == |args| && QuotedAt(Joined(args), Laid(args)[|args| - 1], args[|args| - 1])
  {
    LaidLast(args);
    var n := |args| - 1;
    if n > 0 {
      var before := Joined(args[..n]) + " ";
      assert Joined(args) == before + QuoteArg(args[n]);
    }
  }

  lemma QuotedInLonger(front: string, line: string, t: Token, arg: string)
    requires QuotedAt(front, t, arg) && front <= line
    ensures QuotedAt(line, t, arg)
  {
    assert line == front + line[|front|..];
    SliceOfFront(front, line[|front|..], t.start, t.start + |QuoteArg(arg)|);
  }

  lemma {:induction false} LaidPrefix(args: seq<string>, k: nat)
    requires 0 < k <= |args|
    ensures |Laid(args)| == |args| && |Laid(args[..k])| == k && Laid(args)[k - 1] == Laid(args[..k])[k - 1]
    ensures Joined(args[..k]) <= Joined(args)
  {
    LaidLast(args);
    if k == |args| {
      assert args[..k] == args;
    } else {
      var front := args[..|args| - 1];
      LaidPrefix(front, k);
      assert front[..k] == args[..k];
      assert Laid(args)[..|args| - 1][k - 1] == Laid(args)[k - 1];
    }
  }

  lemma LaidAt(args: seq<string>, k: nat)
    requires k < |args|
    ensures |Laid(args)| == |args| && QuotedAt(Joined(args), Laid(args)[k], args[k])
  {
    LastQuotedAt(args[..k + 1]);
    LaidPrefix(args, k + 1);
    QuotedInLonger(Joined(args[..k + 1]), Joined(args), Laid(args)[k], args[k]);
  }

  /** The joined line ends inside its last token. */
  ghost predicate EndsOpen(line: string, laid: seq<Token>)
  {
    laid != [] && var t := laid[|laid| - 1]; Reaches(INIT, line, 0, Open(laid[..|laid| - 1], t.text, t.start, NoQuote))
  }

  lemma {:induction false} JoinedScans(args: seq<string>)
    requires args != []
    ensures EndsOpen(Joined(args), Laid(args))
  {
    LaidLast(args);
    var n := |args| - 1;
    if n == 0 {
      QuotedScans([], args[0], 0);
    } else {
      JoinedScans(args[..n]);
      JoinedStep(Joined(args[..n]), Laid(args[..n]), args[n]);
      assert |Joined(args)| - |QuoteArg(args[n])| == |Joined(args[..n])| + 1;
    }
  }

  lemma JoinedStep(line: string, laid: seq<Token>, arg: string)
    requires EndsOpen(line, laid)
    ensures EndsOpen(line + " " + QuoteArg(arg), laid + [Token(arg, |line| + 1)])
  {
    var m := |laid| - 1;
    OneMore(line, laid[..m], laid[m].text, laid[m].start, arg);
    assert laid == laid[..m] + [laid[m]];
    assert (laid + [Token(arg, |line| + 1)])[..m + 1] == laid;
  }

  /** Tokenizer and quoter undo each other: any list of byte strings, quoted and joined, scans
      back to itself, each token starting at its quoted form. */
  lemma RoundTrip(args: seq<string>)
    ensures TokensOf(Joined(args)) == Laid(args)
    ensures AtSep(Joined(args)) <==> args == []
  {
    if args != [] {
      JoinedScans(args);
      LaidLast(args);
    }
  }

  // ---------------------------------------------------------------- quoting only where needed

  function TextLen(s: State): nat { SumLen(s.toks) + if s.cur.Some? then |s.cur.value.text| else 0 }

  function SumLen(toks: seq<Token>): nat
  {
    if toks == [] then 0 else SumLen(toks[..|toks| - 1]) + |toks[|toks| - 1].text|
  }

  /** Each byte read adds at most itself to the tokens, and what an unquoted scan treats
      specially adds nothing. */
  lemma StepLength(s: State, c: char, i: nat)
    ensures TextLen(s) <= TextLen(Step(s, c, i)) <= TextLen(s) + 1
    ensures !s.esc && s.quote == NoQuote && Special(c) ==> TextLen(Step(s, c, i)) == TextLen(s)
  {
    if s.cur.Some? { assert (s.toks + [s.cur.value])[..|s.toks|] == s.toks; }
  }

  lemma {:induction false} ScanLength(line: string)
    ensures TextLen(Scan(line)) <= |line|
    ensures HasSpecial(line) ==> TextLen(Scan(line)) < |line|
    ensures !HasSpecial(line) ==> !Scan(line).esc && Scan(line).quote == NoQuote
  {
    if line != "" {
      var front, c := line[..|line| - 1], line[|line| - 1];
      ScanLength(front);
      StepLength(Scan(front), c, |front|);
      assert Scan(line) == Step(Scan(front), c, |front|);
      if HasSpecial(front) {
        var i :| 0 <= i < |front| && Special(front[i]);
        assert Special(line[i]);
      } else if HasSpecial(line) {
        var i :| 0 <= i < |line| && Special(line[i]);
        assert i < |front| ==> front[i] == line[i];
      }
    }
  }

  /** An argument is left unquoted exactly when it reads back as itself that way. */
  lemma QuotedOnlyWhenNeeded(s: string)
    ensures QuoteArg(s) == s <==> TokensOf(s) == [Token(s, 0)]
  {
    ScanLength(s);
    FlushKeepsLength(Scan(s));
    if TokensOf(s) == [Token(s, 0)] { assert SumLen([Token(s, 0)]) == |s|; }
    if s != "" && !HasSpecial(s) { BareScans([], s, 0); }
    assert s != "" && HasSpecial(s) ==> |QuoteArg(s)| > |s| by { EscapedLength(s); }
  }

  lemma FlushKeepsLength(s: State)
    ensures SumLen(Flush(s).toks) == TextLen(s)
  {
    if s.cur.Some? { assert (s.toks + [s.cur.value])[..|s.toks|] == s.toks; }
  }

  lemma {:induction false} EscapedLength(s: string)
    ensures |EscapeDoubleQuoted(s)| >= |s|
  {
    if s != "" { EscapedLength(s[..|s| - 1]); }
  }
}
