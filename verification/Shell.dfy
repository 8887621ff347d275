/** The shell's parser: scanning (gettoken, peek) and the recursive descent over it, against a lexer
    and a parser on tokens. */
module Shell {
  const MAXARGS := 10

  predicate Blank(c: char) { c == ' ' || c == '\t' || c == '\r' || c == '\n' || c == '\U{0B}' }

  predicate Symbol(c: char) { c == '<' || c == '|' || c == '>' }

  predicate WordChar(c: char) { !Blank(c) && !Symbol(c) && c != '\0' }

  predicate NulFree(s: string) { forall k :: 0 <= k < |s| ==> s[k] != '\0' }

  datatype Token = Word(text: string) | Sym(c: char)

  datatype Cmd = Exec(argv: seq<string>) | Redir(cmd: Cmd, file: string, mode: char) | Pipe(left: Cmd, right: Cmd)

  // How parsing can end; the last two are exits of the code that are never taken.
  datatype Outcome = Parsed(cmd: Cmd) | MissingFile | TooManyArgs | SyntaxError | Leftovers

  // ---------------------------------------------------------------- the lexer

  function WordLen(s: string): (n: nat)
    ensures n <= |s|
  {
    if s == "" || Blank(s[0]) || Symbol(s[0]) then 0 else 1 + WordLen(s[1..])
  }

  function Lex(s: string): seq<Token>
    decreases |s|
  {
    if s == "" then []
    else if Blank(s[0]) then Lex(s[1..])
    else if Symbol(s[0]) then [Sym(s[0])] + Lex(s[1..])
    else [Word(s[..WordLen(s)])] + Lex(s[WordLen(s)..])
  }

  // ---------------------------------------------------------------- scanning

  // while (s < es && strchr(whitespace, *s)) s++
  method SkipBlanks(s: string, i0: nat) returns (i: nat)
    requires i0 <= |s|
    ensures i0 <= i <= |s| && (i < |s| ==> !Blank(s[i]))
    ensures Lex(s[i..]) == Lex(s[i0..])
  {
    i := i0;
    while i < |s| && Blank(s[i])
      invariant i0 <= i <= |s| && Lex(s[i..]) == Lex(s[i0..])
    {
      assert s[i..][1..] == s[i + 1..];
      i := i + 1;
    }
  }

  // The rest of a word
  method SkipWord(s: string, i0: nat) returns (i: nat)
    requires i0 <= |s|
    ensures i0 <= i <= |s| && i - i0 == WordLen(s[i0..])
  {
    i := i0;
    while i < |s| && !Blank(s[i]) && !Symbol(s[i])
      invariant i0 <= i <= |s| && i - i0 + WordLen(s[i..]) == WordLen(s[i0..])
    {
      assert s[i..][1..] == s[i + 1..];
      i := i + 1;
    }
  }

  // What gettoken returns: NUL at the end of the line, the symbol, or 'a' for a word
  function Kind(ts: seq<Token>): char {
    if ts == [] then '\0' else if ts[0].Sym? then ts[0].c else 'a'
  }

  /** gettoken: the next token, the text between q and eq, and the position after it */
  method GetToken(s: string, ps: nat) returns (ps': nat, tok: char, q: nat, eq: nat)
    requires ps <= |s| && NulFree(s)
    ensures ps <= ps' <= |s| && q <= eq <= |s| && tok == Kind(Lex(s[ps..]))
    ensures tok == '\0' <==> Lex(s[ps..]) == []
    ensures tok == '\0' ==> ps' == |s| && Lex(s[ps'..]) == []
    ensures tok != '\0' ==> ps' > ps && Lex(s[ps'..]) == Lex(s[ps..])[1..]
    ensures tok == 'a' ==> Lex(s[ps..])[0] == Word(s[q..eq])
  {
    var i := SkipBlanks(s, ps);
    q := i;
    if i == |s| {
      assert s[i..] == "";
      tok := '\0';
    } else if Symbol(s[i]) {
      tok := s[i];
      assert s[i..][1..] == s[i + 1..];
      i := i + 1;
    } else {
      tok := 'a';
      i := SkipWord(s, i);
      assert s[q..][..i - q] == s[q..i] && s[q..][i - q..] == s[i..];
    }
    eq := i;
    ps' := SkipBlanks(s, i);
  }

  /** peek: is the next token one of the symbols in toks? */
  method Peek(s: string, ps: nat, toks: string) returns (ps': nat, hit: bool)
    requires ps <= |s| && NulFree(s) && forall k :: 0 <= k < |toks| ==> Symbol(toks[k])
    ensures ps <= ps' <= |s| && (ps' < |s| ==> !Blank(s[ps'])) && Lex(s[ps'..]) == Lex(s[ps..])
    ensures hit <==> Lex(s[ps..]) != [] && Lex(s[ps..])[0].Sym? && Lex(s[ps..])[0].c in toks
  {
    ps' := SkipBlanks(s, ps);
    hit := ps' < |s| && s[ps'] in toks;
  }

  // ---------------------------------------------------------------- the parser on tokens

  // Redirections wrap the command in the order they come.
  function Wrap(cmd: Cmd, redirs: seq<(string, char)>): Cmd
    decreases |redirs|
  {
    if redirs == [] then cmd
      else Redir(Wrap(cmd, redirs[..|redirs| - 1]), redirs[|redirs| - 1].0, redirs[|redirs| - 1].1)
  }

  datatype Step = More(argv: seq<string>, redirs: seq<(string, char)>, rest: seq<Token>) | Stop(why: Outcome)

  // The redirections at the front
  function Redirs(ts: seq<Token>, argv: seq<string>, redirs: seq<(string, char)>): (r: Step)
    ensures r.More? ==> (|r.rest| <= |ts| && r.argv == argv
      && (r.rest == [] || r.rest[0].Word? || (r.rest[0].c != '<' && r.rest[0].c != '>')))
    ensures r.More? && ts != [] && ts[0].Word? ==> r.rest == ts
    ensures r.Stop? ==> r.why == MissingFile
    decreases |ts|
  {
    if ts == [] || ts[0].Word? || (ts[0].c != '<' && ts[0].c != '>') then More(argv, redirs, ts)
    else if |ts| == 1 || ts[1].Sym? then Stop(MissingFile)
    else Redirs(ts[2..], argv, redirs + [(ts[1].text, ts[0].c)])
  }

  // parseexec's loop, after the redirections at the front
  function Args(ts: seq<Token>, argv: seq<string>, redirs: seq<(string, char)>): (r: Step)
    ensures if r.More? then |r.rest| <= |ts| else !r.why.Parsed?
    decreases |ts|
  {
    if ts == [] || ts[0] == Sym('|') then More(argv, redirs, ts)
    else if ts[0].Sym? then Stop(SyntaxError)
    else if |argv| + 1 >= MAXARGS then Stop(TooManyArgs)
    else
      match Redirs(ts[1..], argv + [ts[0].text], redirs)
      case Stop(why) => Stop(why)
      case More(argv', redirs', rest) => Args(rest, argv', redirs')
  }

  function Simple(ts: seq<Token>): (r: Step)
    ensures if r.More? then |r.rest| <= |ts| else !r.why.Parsed?
  {
    match Redirs(ts, [], [])
    case Stop(why) => Stop(why)
    case More(argv, redirs, rest) => Args(rest, argv, redirs)
  }

  // parsepipe, with the tokens it leaves
  function Pipeline(ts: seq<Token>): (Outcome, seq<Token>)
    decreases |ts|
  {
    match Simple(ts)
    case Stop(why) => (why, [])
    case More(argv, redirs, rest) =>
      var cmd := Wrap(Exec(argv), redirs);
      if rest != [] && rest[0] == Sym('|') then
        var (right, rest') := Pipeline(rest[1..]);
        (if right.Parsed? then Parsed(Pipe(cmd, right.cmd)) else right, rest')
      else (Parsed(cmd), rest)
  }

  function Parse(ts: seq<Token>): Outcome {
    var (r, rest) := Pipeline(ts);
    if r.Parsed? && rest != [] then Leftovers else r
  }

  // ---------------------------------------------------------------- recursive descent

  /** parseredirs, on the arguments and redirections gathered so far; why is set when it exits */
  method ParseRedirs(s: string, ps: nat, redirs0: seq<(string, char)>, ghost argv: seq<string>)
          returns (ps': nat, redirs: seq<(string, char)>, exits: bool)
    requires ps <= |s| && NulFree(s)
    ensures ps <= ps' <= |s|
    ensures exits <==> Redirs(Lex(s[ps..]), argv, redirs0).Stop?
    ensures !exits ==> Redirs(Lex(s[ps..]), argv, redirs0) == More(argv, redirs, Lex(s[ps'..]))
  {
    redirs := redirs0;
    var hit;
    ps', hit := Peek(s, ps, "<>");
    while hit
      invariant ps <= ps' <= |s|
      invariant hit <==> Lex(s[ps'..]) != [] && Lex(s[ps'..])[0].Sym? && Lex(s[ps'..])[0].c in "<>"
      invariant Redirs(Lex(s[ps'..]), argv, redirs) == Redirs(Lex(s[ps..]), argv, redirs0)
      decreases |s| - ps'
    {
      ghost var ts := Lex(s[ps'..]);
      var tok, q, eq, tok2;
      ps', tok, q, eq := GetToken(s, ps');
      assert Lex(s[ps'..]) == ts[1..];
      ps', tok2, q, eq := GetToken(s, ps');
      if tok2 != 'a' {
        return ps', redirs, true;
      }
      redirs := redirs + [(s[q..eq], tok)];
      assert Lex(s[ps'..]) == ts[1..][1..] == ts[2..];
      ps', hit := Peek(s, ps', "<>");
    }
    return ps', redirs, false;
  }

  /** parseexec */
  method ParseExec(s: string, ps: nat) returns (ps': nat, argv: seq<string>, redirs: seq<(string, char)>, why: Outcome)
    requires ps <= |s| && NulFree(s)
    ensures ps <= ps' <= |s|
    ensures why.Parsed? ==> (why.cmd == Wrap(Exec(argv), redirs)
      && Simple(Lex(s[ps..])) == More(argv, redirs, Lex(s[ps'..])))
    ensures !why.Parsed? ==> Simple(Lex(s[ps..])) == Stop(why)
  {
    argv := [];
    var exits, bar;
    ps', redirs, exits := ParseRedirs(s, ps, [], []);
    if exits {
      return ps', argv, redirs, MissingFile;
    }
    ps', bar := Peek(s, ps', "|");
    while !bar
      invariant ps <= ps' <= |s|
      invariant bar <==> Lex(s[ps'..]) != [] && Lex(s[ps'..])[0] == Sym('|')
      invariant Args(Lex(s[ps'..]), argv, redirs) == Simple(Lex(s[ps..]))
      decreases |s| - ps'
    {
      ghost var ts := Lex(s[ps'..]);
      var tok, q, eq;
      ps', tok, q, eq := GetToken(s, ps');
      if tok == '\0' {
        return ps', argv, redirs, Parsed(Wrap(Exec(argv), redirs));
      }
      if tok != 'a' {
        return ps', argv, redirs, SyntaxError;
      }
      argv := argv + [s[q..eq]];
      if |argv| >= MAXARGS {
        return ps', argv, redirs, TooManyArgs;
      }
      ps', redirs, exits := ParseRedirs(s, ps', redirs, argv);
      if exits {
        return ps', argv, redirs, MissingFile;
      }
      ps', bar := Peek(s, ps', "|");
    }
    why := Parsed(Wrap(Exec(argv), redirs));
  }

  /** parsepipe */
  method ParsePipe(s: string, ps: nat) returns (ps': nat, why: Outcome)
    requires ps <= |s| && NulFree(s)
    ensures ps <= ps' <= |s|
    ensures why == Pipeline(Lex(s[ps..])).0 && (why.Parsed? ==> Lex(s[ps'..]) == Pipeline(Lex(s[ps..])).1)
    decreases |s| - ps
  {
    var argv, redirs, bar;
    ps', argv, redirs, why := ParseExec(s, ps);
    if !why.Parsed? {
      return;
    }
    var cmd := why.cmd;
    ps', bar := Peek(s, ps', "|");
    if bar {
      var tok, q, eq, right;
      ps', tok, q, eq := GetToken(s, ps');
      ps', right := ParsePipe(s, ps');
      why := if right.Parsed? then Parsed(Pipe(cmd, right.cmd)) else right;
    }
  }

  /** parsecmd: what the token parser makes of the line, or the exit it takes */
  method ParseCmd(s: string) returns (why: Outcome)
    requires NulFree(s)
    ensures why == Parse(Lex(s))
    ensures why.Parsed? || why == MissingFile || why == TooManyArgs
  {
    assert s[0..] == s;
    var ps, none;
    ps, why := ParsePipe(s, 0);
    TwoExits(Lex(s));
    if !why.Parsed? {
      return;
    }
    ps, none := Peek(s, ps, "");
    if ps != |s| {
      why := Leftovers;
      LexNonempty(s[ps..]);
    } else {
      assert s[ps..] == "";
    }
  }

  lemma LexNonempty(s: string)
    requires s != "" && !Blank(s[0])
    ensures Lex(s) != []
  {
  }

  // ---------------------------------------------------------------- exits never taken

  predicate Symbols(ts: seq<Token>) {
    forall k :: 0 <= k < |ts| && ts[k].Sym? ==> Symbol(ts[k].c)
  }

  lemma SymbolsTail(ts: seq<Token>, n: nat)
    requires Symbols(ts) && n <= |ts|
    ensures Symbols(ts[n..])
  {
    forall k | 0 <= k < |ts[n..]| && ts[n..][k].Sym? ensures Symbol(ts[n..][k].c) {
      assert ts[n..][k] == ts[n + k];
    }
  }

  lemma {:induction false} ArgsExits(ts: seq<Token>, argv: seq<string>, redirs: seq<(string, char)>)
    requires ts == [] || ts[0].Word? || (ts[0].c != '<' && ts[0].c != '>')
    requires Symbols(ts)
    ensures var r := Args(ts, argv, redirs);
      && (r.Stop? ==> r.why == MissingFile || r.why == TooManyArgs)
      && (r.More? ==> (r.rest == [] || r.rest[0] == Sym('|')) && |r.rest| <= |ts| && Symbols(r.rest))
    decreases |ts|
  {
    if ts != [] && ts[0].Word? && |argv| + 1 < MAXARGS {
      var r := Redirs(ts[1..], argv + [ts[0].text], redirs);
      SymbolsTail(ts, 1);
      RedirsRest(ts[1..], argv + [ts[0].text], redirs);
      if r.More? {
        ArgsExits(r.rest, r.argv, r.redirs);
      }
    }
  }

  lemma {:induction false} RedirsRest(ts: seq<Token>, argv: seq<string>, redirs: seq<(string, char)>)
    requires Symbols(ts)
    ensures Redirs(ts, argv, redirs).More? ==> Symbols(Redirs(ts, argv, redirs).rest)
    decreases |ts|
  {
    if !(ts == [] || ts[0].Word? || (ts[0].c != '<' && ts[0].c != '>')) && |ts| > 1 && ts[1].Word? {
      SymbolsTail(ts, 2);
      RedirsRest(ts[2..], argv, redirs + [(ts[1].text, ts[0].c)]);
    }
  }

  lemma {:induction false} LexSymbols(s: string)
    ensures Symbols(Lex(s))
    decreases |s|
  {
    if s != "" {
      if Blank(s[0]) || Symbol(s[0]) {
        LexSymbols(s[1..]);
      } else {
        LexSymbols(s[WordLen(s)..]);
      }
    }
  }

  lemma {:induction false} PipelineExits(ts: seq<Token>)
    requires Symbols(ts)
    ensures var (r, rest) := Pipeline(ts); if r.Parsed? then rest == [] else r == MissingFile || r == TooManyArgs
    decreases |ts|
  {
    var r := Redirs(ts, [], []);
    RedirsRest(ts, [], []);
    if r.More? {
      ArgsExits(r.rest, r.argv, r.redirs);
      var a := Args(r.rest, r.argv, r.redirs);
      if a.More? && a.rest != [] {
        SymbolsTail(a.rest, 1);
        PipelineExits(a.rest[1..]);
      }
    }
  }

  /** The parser consumes the whole line or stops with "missing file" or "too many args"; its "syntax
      error" and "leftovers" exits are unreachable. */
  lemma TwoExits(ts: seq<Token>)
    requires exists s :: Lex(s) == ts
    ensures var r := Parse(ts); r.Parsed? || r == MissingFile || r == TooManyArgs
    ensures Pipeline(ts).0.Parsed? ==> Pipeline(ts).1 == []
  {
    var s :| Lex(s) == ts;
    LexSymbols(s);
    PipelineExits(ts);
  }
}
