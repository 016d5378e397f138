/** Tab completion in the recover shell: replacing the token under the cursor so that the line
    scans back to the earlier arguments and the completed one. */
module Completing {
  import opened Records
  import opened Shell

  // ---------------------------------------------------------------- common prefixes

  /** The longest prefix of p that is a prefix of s. */
  function Shared(p: string, s: string): string
  {
    if p <= s then p else if p == "" then "" else Shared(p[..|p| - 1], s)
  }

  function SharedByAll(ss: seq<string>): string
  {
    if ss == [] then ""
    else if |ss| == 1 then ss[0]
    else Shared(SharedByAll(ss[..|ss| - 1]), ss[|ss| - 1])
  }

  lemma {:induction false} SharedIsLongest(p: string, s: string, q: string)
    ensures Shared(p, s) <= p && Shared(p, s) <= s
    ensures q <= p && q <= s ==> q <= Shared(p, s)
  {
    if !(p <= s) && p != "" {
      SharedIsLongest(p[..|p| - 1], s, q);
      if q <= p && q <= s {
        assert q != p;
      }
    }
  }

  /** The common prefix is shared by every candidate, and no longer string is. */
  lemma {:induction false} SharedByAllIsLongest(ss: seq<string>, q: string)
    requires ss != []
    ensures forall i :: 0 <= i < |ss| ==> SharedByAll(ss) <= ss[i]
    ensures (forall i :: 0 <= i < |ss| ==> q <= ss[i]) ==> q <= SharedByAll(ss)
  {
    if |ss| > 1 {
      var front := ss[..|ss| - 1];
      SharedByAllIsLongest(front, q);
      SharedIsLongest(SharedByAll(front), ss[|ss| - 1], q);
      forall i | 0 <= i < |ss| ensures SharedByAll(ss) <= ss[i] {
        if i < |front| { assert SharedByAll(front) <= front[i] == ss[i]; }
      }
      assert (forall i :: 0 <= i < |ss| ==> q <= ss[i]) ==> forall i :: 0 <= i < |front| ==> q <= front[i];
    }
  }

  lemma {:induction false} SharedByAllEmpty(ss: seq<string>, n: nat)
    requires 0 < n <= |ss| && SharedByAll(ss[..n]) == ""
    ensures SharedByAll(ss) == ""
    decreases |ss|
  {
    if n == |ss| {
      assert ss[..n] == ss;
    } else {
      assert ss[..|ss| - 1][..n] == ss[..n];
      SharedByAllEmpty(ss[..|ss| - 1], n);
    }
  }

  method CommonPrefix(ss: seq<string>) returns (p: string)
    ensures p == SharedByAll(ss)
  {
    if |ss| == 0 {
      return "";
    }
    p := ss[0];
    assert ss[..1] == [ss[0]];
    for n := 1 to |ss|
      invariant p == SharedByAll(ss[..n])
    {
      assert ss[..n + 1][..n] == ss[..n];
      while !(p <= ss[n])
        invariant Shared(p, ss[n]) == SharedByAll(ss[..n + 1])
        decreases |p|
      {
        p := p[..|p| - 1];
        if p == "" {
          SharedByAllEmpty(ss, n + 1);
          return;
        }
      }
    }
    assert ss[..|ss|] == ss;
  }

  method PrefixMatch(list: seq<string>, prefix: string) returns (out: seq<string>)
    ensures out == Matching(list, prefix)
  {
    out := [];
    for i := 0 to |list|
      invariant out == Matching(list[..i], prefix)
    {
      assert list[..i + 1][..i] == list[..i];
      if prefix <= list[i] {
        out := out + [list[i]];
      }
    }
    assert list[..|list|] == list;
  }

  function Matching(list: seq<string>, prefix: string): seq<string>
  {
    if list == [] then []
    else
      var n := |list| - 1;
      Matching(list[..n], prefix) + if prefix <= list[n] then [list[n]] else []
  }

  lemma {:induction false} MatchingMembers(list: seq<string>, prefix: string, x: string)
    ensures x in Matching(list, prefix) <==> x in list && prefix <= x
  {
    if list != [] {
      var n := |list| - 1;
      MatchingMembers(list[..n], prefix, x);
      assert list == list[..n] + [list[n]];
    }
  }

  // ---------------------------------------------------------------- the replacement text

  /** What a completion stands for: the lone candidate, or what all candidates share. */
  function Value(cands: seq<string>): string { SharedByAll(cands) }

  predicate EndsInSlash(s: string) { s != "" && s[|s| - 1] == '/' }

  function Completion(curText: string, cands: seq<string>): Option<string>
  {
    if |cands| == 0 then None
    else if |cands| == 1 then Some(if EndsInSlash(cands[0]) then QuoteArg(cands[0]) else QuoteArg(cands[0]) + " ")
    else
      var lcp := SharedByAll(cands);
      if |lcp| <= |curText| then None
      else if HasSpecial(lcp) then Some("\"" + EscapeDoubleQuoted(lcp))
      else Some(lcp)
  }

  /** The replacement, put where a token begins, reads as exactly one token: the value. */
  lemma ReplacementScans(toks: seq<Token>, curText: string, cands: seq<string>, i: nat)
    requires Completion(curText, cands).Some?
    ensures Flush(Run(Between(toks), Completion(curText, cands).value, i)).toks == toks + [Token(Value(cands), i)]
  {
    if |cands| == 1 {
      var v := cands[0];
      QuotedScans(toks, v, i);
      SpaceEnds(Between(toks), QuoteArg(v), toks, v, i, i);
    } else if HasSpecial(SharedByAll(cands)) {
      DoubleScans(toks, SharedByAll(cands), i);
    } else {
      BareScans(toks, SharedByAll(cands), i);
    }
  }

  /** Put after a line that ends between tokens, the replacement adds just that token. */
  lemma ReplacementAdds(front: string, toks: seq<Token>, curText: string, cands: seq<string>)
    requires Scan(front) == Between(toks) && Completion(curText, cands).Some?
    ensures TokensOf(front + Completion(curText, cands).value) == toks + [Token(Value(cands), |front|)]
  {
    ReplacementScans(toks, curText, cands, |front|);
    AddsToken(front, toks, Completion(curText, cands).value, Value(cands));
  }

  lemma AddsToken(front: string, toks: seq<Token>, repl: string, v: string)
    requires Scan(front) == Between(toks)
    requires Flush(Run(Between(toks), repl, |front|)).toks == toks + [Token(v, |front|)]
    ensures TokensOf(front + repl) == toks + [Token(v, |front|)]
  {
    RunThrough(INIT, front, repl, 0, Between(toks));
  }

  // ---------------------------------------------------------------- where the open token began

  /** A backslash outside any token ends the line. */
  predicate Dangling(line: string) { Scan(line).cur.None? && Scan(line).esc }

  /** Each token begins where everything before it had been finished. */
  ghost predicate BeginsAt(line: string, t: Token, before: seq<Token>)
  {
    t.start < |line| && Scan(line[..t.start]) == Between(before)
  }

  ghost predicate Traced(line: string)
  {
    var s := Scan(line);
    && (forall k :: 0 <= k < |s.toks| ==> BeginsAt(line, s.toks[k], s.toks[..k]))
    && (s.cur.Some? ==> BeginsAt(line, s.cur.value, s.toks))
    && (s.cur.None? ==> s.quote == NoQuote)
    && (Dangling(line) ==> line != "" && Scan(line[..|line| - 1]) == Between(s.toks))
  }

  lemma BeginsInLonger(line: string, more: string, t: Token, before: seq<Token>)
    requires BeginsAt(line, t, before)
    ensures BeginsAt(line + more, t, before)
  {
    assert (line + more)[..t.start] == line[..t.start];
  }

  lemma {:induction false} LineIsTraced(line: string)
    ensures Traced(line)
  {
    if line != "" {
      var n := |line| - 1;
      LineIsTraced(line[..n]);
      TraceStep(line[..n], line[n]);
      assert line[..n] + [line[n]] == line;
    }
  }

  lemma TraceStep(front: string, c: char)
    requires Traced(front)
    ensures Traced(front + [c])
  {
    var line := front + [c];
    var s, s' := Scan(front), Scan(line);
    assert line[..|front|] == front;
    assert s' == Step(s, c, |front|);
    forall k | 0 <= k < |s.toks| ensures BeginsAt(line, s.toks[k], s.toks[..k]) { BeginsInLonger(front, [c], s.toks[k], s.toks[..k]); }
    if s.cur.Some? {
      BeginsInLonger(front, [c], s.cur.value, s.toks);
      assert s.toks + [s.cur.value] == s.toks + [s.cur.value] && (s.toks + [s.cur.value])[..|s.toks|] == s.toks;
      assert forall k :: 0 <= k < |s.toks| ==> (s.toks + [s.cur.value])[..k] == s.toks[..k];
    } else if s.esc {
      assert line[..|front| - 1] == front[..|front| - 1];
    }
  }

  // ---------------------------------------------------------------- the completed line

  /** The shell's command words, for completing the first word. */
  const RECOVER_COMMANDS: seq<string> := [
    "disks", "setdisk", "setdate", "settime", "ls", "cd", "pwd",
    "add", "delete", "list", "clear", "dest", "extract", "help", "quit"
  ]

  /** The completed line, and where the cursor goes. */
  datatype Edit = Edit(line: string, pos: nat)

  /** Where the replacement goes: at the last token, or at the cursor. */
  function CurStart(line: string): nat
  {
    var toks := TokensOf(line);
    if !AtSep(line) && toks != [] then toks[|toks| - 1].start else |line|
  }

  function CurText(line: string): string
  {
    var toks := TokensOf(line);
    if !AtSep(line) && toks != [] then toks[|toks| - 1].text else ""
  }

  /** The candidates for what the cursor is at: command words for the first word, otherwise
      what the browse tree or the DLE list (argCands) offers for the command. */
  function Candidates(line: string, argCands: (string, string) -> seq<string>): seq<string>
  {
    var toks := TokensOf(line);
    if |toks| == 0 || (|toks| == 1 && !AtSep(line)) then Matching(RECOVER_COMMANDS, CurText(line))
    else argCands(toks[0].text, CurText(line))
  }

  /** The line up to the cursor with the completion put in. */
  function Completed(line: string, cands: seq<string>): string
    requires CurStart(line) <= |line| && Completion(CurText(line), cands).Some?
  {
    line[..CurStart(line)] + Completion(CurText(line), cands).value
  }

  method AutoComplete(line: string, pos: nat, argCands: (string, string) -> seq<string>) returns (r: Option<Edit>)
    requires pos <= |line|
    ensures r.None? <==> Completion(CurText(line[..pos]), Candidates(line[..pos], argCands)).None?
    ensures r.Some? ==> CurStart(line[..pos]) <= pos && r.value.pos <= |r.value.line|
    ensures r.Some? ==> r.value.line[..r.value.pos] == Completed(line[..pos], Candidates(line[..pos], argCands))
    ensures r.Some? ==> r.value.line[r.value.pos..] == line[pos..]
  {
    hide SharedByAll;
    hide Matching;
    hide QuoteArg;
    hide EscapeDoubleQuoted;
    hide Scan;
    var toks, atSep := ScanTokens(line[..pos]);
    LineIsTraced(line[..pos]);
    var curText, curStart := "", pos;
    if !atSep && |toks| > 0 {
      var last := toks[|toks| - 1];
      curText, curStart := last.text, last.start;
    }
    StartInLine(line[..pos]);
    var cands;
    if |toks| == 0 || (|toks| == 1 && !atSep) {
      cands := PrefixMatch(RECOVER_COMMANDS, curText);
    } else {
      cands := argCands(toks[0].text, curText);
    }
    var repl := Completion(curText, cands);
    if repl.None? {
      return None;
    }
    var front := line[..curStart] + repl.value;
    r := Some(Edit(front + line[pos..], |front|));
  }

  lemma StartInLine(line: string)
    ensures CurStart(line) <= |line|
  {
    LineIsTraced(line);
    var s := Scan(line);
    if s.cur.None? && s.toks != [] {
      assert BeginsAt(line, s.toks[|s.toks| - 1], s.toks[..|s.toks| - 1]);
    }
  }

  function Texts(toks: seq<Token>): seq<string>
  {
    seq(|toks|, i requires 0 <= i < |toks| => toks[i].text)
  }

  /** The arguments finished before the cursor's own token. */
  function Earlier(line: string): seq<string> { Texts(Scan(line).toks) }

  /** Away from a dangling backslash, the completed text scans to the earlier arguments and the
      value, which starts where the completed token did. */
  lemma CleanCompletion(line: string, cands: seq<string>)
    requires !Dangling(line) && Completion(CurText(line), cands).Some?
    ensures CurStart(line) <= |line|
    ensures TokensOf(Completed(line, cands)) == Scan(line).toks + [Token(Value(cands), CurStart(line))]
  {
    StartInLine(line);
    CleanStart(line);
    ReplacementAdds(line[..CurStart(line)], Scan(line).toks, CurText(line), cands);
  }

  /** Everything before the cursor's token had been finished where that token starts. */
  lemma CleanStart(line: string)
    requires !Dangling(line)
    ensures CurStart(line) <= |line| && Scan(line[..CurStart(line)]) == Between(Scan(line).toks)
  {
    LineIsTraced(line);
    StartInLine(line);
    assert line[..|line|] == line;
  }

  /** After a dangling backslash the last finished argument is overwritten. */
  lemma DanglingLoses(line: string, cands: seq<string>)
    requires Dangling(line) && Scan(line).toks != [] && Completion(CurText(line), cands).Some?
    ensures CurStart(line) <= |line|
    ensures var toks := Scan(line).toks;
      TokensOf(Completed(line, cands)) == toks[..|toks| - 1] + [Token(Value(cands), CurStart(line))]
  {
    var toks := Scan(line).toks;
    LineIsTraced(line);
    StartInLine(line);
    assert BeginsAt(line, toks[|toks| - 1], toks[..|toks| - 1]);
    ReplacementAdds(line[..CurStart(line)], toks[..|toks| - 1], CurText(line), cands);
  }

  lemma NothingShared(p: string, a: string, b: string)
    requires p <= a && p <= b && a != "" && b != "" && a[0] != b[0]
    ensures p == ""
  {
  }

  /** The command words share no first byte, so an empty first word completes to nothing. */
  lemma NoCommandFromNothing()
    ensures Completion("", Matching(RECOVER_COMMANDS, "")) == None
  {
    var cands := Matching(RECOVER_COMMANDS, "");
    assert RECOVER_COMMANDS[0] == "disks" && RECOVER_COMMANDS[4] == "ls";
    MatchingMembers(RECOVER_COMMANDS, "", "disks");
    MatchingMembers(RECOVER_COMMANDS, "", "ls");
    assert "" <= "disks" && "" <= "ls";
    var i :| 0 <= i < |cands| && cands[i] == "disks";
    var j :| 0 <= j < |cands| && cands[j] == "ls";
    SharedByAllIsLongest(cands, "");
    NothingShared(SharedByAll(cands), cands[i], cands[j]);
    assert |cands[i]| != |cands[j]|;
  }

  /** Nor does a first word that so far is only a backslash. */
  lemma DanglingFirstWord(line: string, argCands: (string, string) -> seq<string>)
    requires Dangling(line) && Scan(line).toks == []
    ensures Completion(CurText(line), Candidates(line, argCands)) == None
  {
    LineIsTraced(line);
    assert TokensOf(line) == [] && CurText(line) == "" && Candidates(line, argCands) == Matching(RECOVER_COMMANDS, "");
    NoCommandFromNothing();
  }

  /** A completion at the cursor rescans to the earlier arguments followed by the chosen
      candidate or common prefix exactly when no unquoted backslash dangles outside any token. */
  lemma CompletionRescansIff(line: string, argCands: (string, string) -> seq<string>)
    requires Completion(CurText(line), Candidates(line, argCands)).Some?
    ensures CurStart(line) <= |line|
    ensures var cands := Candidates(line, argCands);
      Texts(TokensOf(Completed(line, cands))) == Earlier(line) + [Value(cands)] <==> !Dangling(line)
  {
    var cands := Candidates(line, argCands);
    StartInLine(line);
    var toks, t := Scan(line).toks, Token(Value(cands), CurStart(line));
    if !Dangling(line) {
      CleanCompletion(line, cands);
      assert Texts(toks + [t]) == Texts(toks) + [Value(cands)];
    } else {
      if toks == [] { DanglingFirstWord(line, argCands); }
      DanglingLoses(line, cands);
      assert |Texts(toks[..|toks| - 1] + [t])| == |toks|;
    }
  }

  /** After a lone candidate the cursor is ready for the next argument, unless the candidate is a
      directory: then it stays in the token, to go on below it. What several candidates share
      is never finished. */
  lemma CompletionEndsArgument(line: string, cands: seq<string>)
    requires !Dangling(line) && Completion(CurText(line), cands).Some?
    ensures CurStart(line) <= |line|
    ensures AtSep(Completed(line, cands)) <==>
      |cands| == 1 && (cands[0] == "" || cands[0][|cands[0]| - 1] != '/')
  {
    StartInLine(line);
    CleanStart(line);
    var front, toks, repl := line[..CurStart(line)], Scan(line).toks, Completion(CurText(line), cands).value;
    assert Completed(line, cands) == front + repl;
    RunThrough(INIT, front, repl, 0, Between(toks));
    ReplacementEnds(toks, CurText(line), cands, |front|);
  }

  lemma ReplacementEnds(toks: seq<Token>, curText: string, cands: seq<string>, i: nat)
    requires Completion(curText, cands).Some?
    ensures var s := Run(Between(toks), Completion(curText, cands).value, i);
      (s.cur.None? && s.quote == NoQuote && !s.esc) <==>
      |cands| == 1 && (cands[0] == "" || cands[0][|cands[0]| - 1] != '/')
  {
    if |cands| == 1 {
      QuotedScans(toks, cands[0], i);
      SpaceEnds(Between(toks), QuoteArg(cands[0]), toks, cands[0], i, i);
    } else if HasSpecial(SharedByAll(cands)) {
      DoubleScans(toks, SharedByAll(cands), i);
    } else {
      BareScans(toks, SharedByAll(cands), i);
    }
  }

  /** What is being completed: the text of the token the line ends in, if it ends in one. */
  lemma CompletesOpenToken(line: string)
    requires !Dangling(line)
    ensures CurText(line) == match Scan(line).cur case None => "" case Some(t) => t.text
  {
    LineIsTraced(line);
  }

  ghost predicate Begins(q: string, cands: seq<string>) { forall i :: 0 <= i < |cands| ==> q <= cands[i] }

  /** When every candidate goes on from what was typed, so does the completion; and there is none
      exactly when there is no candidate, or several that agree on nothing more. */
  lemma CompletionGoesOn(curText: string, cands: seq<string>)
    requires Begins(curText, cands)
    ensures Completion(curText, cands).Some? ==> curText <= Value(cands) && (|cands| > 1 ==> curText != Value(cands))
    ensures Completion(curText, cands).None? <==>
      cands == [] || (|cands| > 1 && forall q :: Begins(q, cands) ==> q <= curText)
  {
    if |cands| >= 1 {
      SharedByAllIsLongest(cands, curText);
      assert Begins(SharedByAll(cands), cands);
      forall q | Begins(q, cands) ensures q <= SharedByAll(cands) { SharedByAllIsLongest(cands, q); }
    }
  }

  /** With no argument finished before it the cursor's token is the command, and the candidates
      are the command words that begin with it; otherwise they are what the first argument, as a
      command, offers for it. */
  lemma CandidatesFit(line: string, argCands: (string, string) -> seq<string>)
    requires !Dangling(line)
    ensures Earlier(line) == [] ==>
      forall x :: x in Candidates(line, argCands) <==> x in RECOVER_COMMANDS && CurText(line) <= x
    ensures Earlier(line) != [] ==> Candidates(line, argCands) == argCands(Earlier(line)[0], CurText(line))
  {
    LineIsTraced(line);
    if Earlier(line) == [] {
      forall x ensures x in Matching(RECOVER_COMMANDS, CurText(line)) <==> x in RECOVER_COMMANDS && CurText(line) <= x {
        MatchingMembers(RECOVER_COMMANDS, CurText(line), x);
      }
    }
  }
}
