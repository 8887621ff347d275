/** Printing the shell's command trees, and that parsing a printed tree gives it back. */
module ShellPrint {
  import opened Shell

  predicate GoodWord(w: string) {
    w != "" && forall k :: 0 <= k < |w| ==> WordChar(w[k])
  }

  predicate GoodRedir(r: (string, char)) {
    GoodWord(r.0) && (r.1 == '<' || r.1 == '>')
  }

  // An execcmd under any number of redirections
  predicate IsSimple(c: Cmd) {
    match c
    case Exec(argv) => |argv| < MAXARGS && forall k :: 0 <= k < |argv| ==> GoodWord(argv[k])
    case Redir(cmd, file, mode) => IsSimple(cmd) && GoodRedir((file, mode))
    case Pipe(_, _) => false
  }

  // The trees the parser builds
  predicate Buildable(c: Cmd) {
    if c.Pipe? then IsSimple(c.left) && Buildable(c.right) else IsSimple(c)
  }

  function ArgvOf(c: Cmd): seq<string> {
    match c
    case Exec(argv) => argv
    case Redir(cmd, _, _) => ArgvOf(cmd)
    case Pipe(_, _) => []
  }

  function RedirsOf(c: Cmd): seq<(string, char)> {
    match c
    case Redir(cmd, file, mode) => RedirsOf(cmd) + [(file, mode)]
    case _ => []
  }

  function WordsText(ws: seq<string>): string {
    if ws == [] then "" else ws[0] + " " + WordsText(ws[1..])
  }

  function RedirsText(rs: seq<(string, char)>): string {
    if rs == [] then "" else [rs[0].1] + " " + rs[0].0 + " " + RedirsText(rs[1..])
  }

  // The canonical line for a tree
  function Print(c: Cmd): string {
    if c.Pipe? then WordsText(ArgvOf(c.left)) + (RedirsText(RedirsOf(c.left)) + ("| " + Print(c.right)))
    else WordsText(ArgvOf(c)) + (RedirsText(RedirsOf(c)) + "")
  }

  // ---------------------------------------------------------------- the lexer on printed lines

  function WordToks(ws: seq<string>): seq<Token> {
    if ws == [] then [] else [Word(ws[0])] + WordToks(ws[1..])
  }

  function RedirToks(rs: seq<(string, char)>): seq<Token> {
    if rs == [] then [] else [Sym(rs[0].1), Word(rs[0].0)] + RedirToks(rs[1..])
  }

  lemma {:induction false} WordLenOf(w: string, rest: string)
    requires forall k :: 0 <= k < |w| ==> WordChar(w[k])
    requires rest != "" && Blank(rest[0])
    ensures WordLen(w + rest) == |w|
    decreases |w|
  {
    if w == "" {
      assert w + rest == rest;
    } else {
      assert (w + rest)[1..] == w[1..] + rest;
      WordLenOf(w[1..], rest);
    }
  }

  lemma LexWord(w: string, rest: string)
    requires GoodWord(w)
    ensures Lex(w + " " + rest) == [Word(w)] + Lex(rest)
  {
    var s := w + " " + rest;
    assert s == w + (" " + rest);
    WordLenOf(w, " " + rest);
    assert s[..|w|] == w && s[|w|..] == " " + rest;
    assert s[0] == w[0];
    assert (" " + rest)[1..] == rest;
  }

  lemma LexSym(c: char, rest: string)
    requires Symbol(c)
    ensures Lex([c] + " " + rest) == [Sym(c)] + Lex(rest)
  {
    var s := [c] + " " + rest;
    assert s[1..] == " " + rest && (" " + rest)[1..] == rest;
  }

  lemma {:induction false} LexWords(ws: seq<string>, rest: string)
    requires forall k :: 0 <= k < |ws| ==> GoodWord(ws[k])
    ensures Lex(WordsText(ws) + rest) == WordToks(ws) + Lex(rest)
    decreases |ws|
  {
    if ws == [] {
      assert WordsText(ws) + rest == rest;
    } else {
      var tail := WordsText(ws[1..]) + rest;
      assert WordsText(ws) + rest == ws[0] + " " + tail;
      LexWord(ws[0], tail);
      LexWords(ws[1..], rest);
      Cons(Word(ws[0]), WordToks(ws[1..]), Lex(rest));
    }
  }

  lemma {:induction false} LexRedirs(rs: seq<(string, char)>, rest: string)
    requires forall k :: 0 <= k < |rs| ==> GoodRedir(rs[k])
    ensures Lex(RedirsText(rs) + rest) == RedirToks(rs) + Lex(rest)
    decreases |rs|
  {
    if rs == [] {
      assert RedirsText(rs) + rest == rest;
    } else {
      var tail := RedirsText(rs[1..]) + rest;
      OneRedir(rs[0].1, rs[0].0, RedirsText(rs[1..]), rest);
      LexSym(rs[0].1, rs[0].0 + " " + tail);
      LexWord(rs[0].0, tail);
      LexRedirs(rs[1..], rest);
      ConsTwo(Sym(rs[0].1), Word(rs[0].0), RedirToks(rs[1..]), Lex(rest));
    }
  }

  lemma OneRedir(c: char, file: string, a: string, b: string)
    ensures ([c] + " " + file + " " + a) + b == [c] + " " + (file + " " + (a + b))
  {
  }

  lemma {:induction false} ConsTwo<T>(x: T, y: T, a: seq<T>, b: seq<T>)
    ensures ([x, y] + a) + b == [x] + ([y] + (a + b))
  {
  }

  // ---------------------------------------------------------------- the parser on printed tokens

  predicate Ends(rest: seq<Token>) { rest == [] || rest[0] == Sym('|') }

  lemma {:induction false} RedirsBack(rs: seq<(string, char)>, rest: seq<Token>, argv: seq<string>,
          before: seq<(string, char)>)
    requires (forall k :: 0 <= k < |rs| ==> GoodRedir(rs[k])) && Ends(rest)
    ensures Redirs(RedirToks(rs) + rest, argv, before) == More(argv, before + rs, rest)
    decreases |rs|
  {
    var ts := RedirToks(rs) + rest;
    if rs == [] {
      assert ts == rest && before + rs == before;
    } else {
      assert ts[2..] == RedirToks(rs[1..]) + rest;
      RedirsBack(rs[1..], rest, argv, before + [(rs[0].0, rs[0].1)]);
      assert before + [rs[0]] + rs[1..] == before + rs;
      assert (rs[0].0, rs[0].1) == rs[0];
    }
  }

  lemma ArgsStep(ts: seq<Token>, argv: seq<string>, more: seq<string>, redirs: seq<(string, char)>, rest: seq<Token>)
    requires ts != [] && ts[0].Word? && |argv| + 1 < MAXARGS && more == argv + [ts[0].text]
    requires Redirs(ts[1..], more, []) == More(more, redirs, rest)
    ensures Args(ts, argv, []) == Args(rest, more, redirs)
  {
  }

  // Behind the arguments come the redirections rs, then rest.
  ghost predicate ThenRedirs(tail: seq<Token>, rs: seq<(string, char)>, rest: seq<Token>) {
    forall argv {:trigger Redirs(tail, argv, [])} :: Redirs(tail, argv, []) == More(argv, rs, rest)
  }

  // The arguments left to read, then the redirections
  lemma {:induction false} ArgsBack(ws: seq<string>, rs: seq<(string, char)>, tail: seq<Token>, rest: seq<Token>,
          argv: seq<string>, ts: seq<Token>)
    requires |argv| + |ws| < MAXARGS && ws != [] && Ends(rest) && ThenRedirs(tail, rs, rest)
      && ts == WordToks(ws) + tail
    ensures Args(ts, argv, []) == More(argv + ws, rs, rest)
    decreases |ws|
  {
    var more, left := argv + [ws[0]], ws[1..];
    assert more + left == argv + ws;
    WordToksSplit(ws, tail);
    if |ws| == 1 {
      LastArg(ts, rs, tail, rest, argv, more);
    } else {
      WordToksSplit(left, tail);
      ArgsBack(left, rs, tail, rest, more, ts[1..]);
      NextArg(ts, argv, more, ts[1..]);
    }
  }

  lemma {:induction false} NextArg(ts: seq<Token>, argv: seq<string>, more: seq<string>, left: seq<Token>)
    requires ts != [] && ts[0].Word? && |argv| + 1 < MAXARGS && more == argv + [ts[0].text] && ts[1..] == left
      && left != [] && left[0].Word?
    ensures Args(ts, argv, []) == Args(left, more, [])
  {
    ArgsStep(ts, argv, more, [], left);
  }

  lemma {:induction false} Cons<T>(x: T, a: seq<T>, b: seq<T>)
    ensures ([x] + a) + b == [x] + (a + b) && (([x] + a) + b)[1..] == a + b && (([x] + a) + b)[0] == x
  {
  }

  lemma {:induction false} WordToksSplit(ws: seq<string>, tail: seq<Token>)
    requires ws != []
    ensures var ts := WordToks(ws) + tail; ts != [] && ts[0] == Word(ws[0]) && ts[1..] == WordToks(ws[1..]) + tail
    ensures |ws| == 1 ==> WordToks(ws[1..]) + tail == tail
  {
    Cons(Word(ws[0]), WordToks(ws[1..]), tail);
    if |ws| == 1 {
      assert ws[1..] == [] && [] + tail == tail;
    }
  }

  lemma {:induction false} LastArg(ts: seq<Token>, rs: seq<(string, char)>, tail: seq<Token>, rest: seq<Token>,
          argv: seq<string>, more: seq<string>)
    requires ThenRedirs(tail, rs, rest) && Ends(rest)
    requires ts != [] && ts[0].Word? && |argv| + 1 < MAXARGS && more == argv + [ts[0].text] && ts[1..] == tail
    ensures Args(ts, argv, []) == More(more, rs, rest)
  {
    ArgsStep(ts, argv, more, rs, rest);
  }

  lemma SimpleBack(ws: seq<string>, rs: seq<(string, char)>, rest: seq<Token>)
    requires (forall k :: 0 <= k < |rs| ==> GoodRedir(rs[k])) && Ends(rest) && |ws| < MAXARGS
    ensures Simple(WordToks(ws) + (RedirToks(rs) + rest)) == More(ws, rs, rest)
  {
    if ws == [] {
      assert WordToks(ws) + (RedirToks(rs) + rest) == RedirToks(rs) + rest;
      RedirsBack(rs, rest, [], []);
      assert [] + rs == rs;
    } else {
      forall argv ensures Redirs(RedirToks(rs) + rest, argv, []) == More(argv, rs, rest) {
        RedirsBack(rs, rest, argv, []);
        assert [] + rs == rs;
      }
      ArgsBack(ws, rs, RedirToks(rs) + rest, rest, [], WordToks(ws) + (RedirToks(rs) + rest));
      assert [] + ws == ws;
    }
  }

  lemma {:induction false} WrapBack(c: Cmd)
    requires IsSimple(c)
    ensures Wrap(Exec(ArgvOf(c)), RedirsOf(c)) == c && |ArgvOf(c)| < MAXARGS
    ensures forall k :: 0 <= k < |ArgvOf(c)| ==> GoodWord(ArgvOf(c)[k])
    ensures forall k :: 0 <= k < |RedirsOf(c)| ==> GoodRedir(RedirsOf(c)[k])
    decreases c
  {
    if c.Redir? {
      WrapBack(c.cmd);
      assert RedirsOf(c)[..|RedirsOf(c)| - 1] == RedirsOf(c.cmd);
    }
  }

  // The line for one item, followed by more text that ends it
  lemma {:induction false} ItemBack(c: Cmd, text: string)
    requires IsSimple(c) && Ends(Lex(text))
    ensures var ts := Lex(WordsText(ArgvOf(c)) + (RedirsText(RedirsOf(c)) + text));
      Simple(ts) == More(ArgvOf(c), RedirsOf(c), Lex(text)) && Wrap(Exec(ArgvOf(c)), RedirsOf(c)) == c
  {
    WrapBack(c);
    LexWords(ArgvOf(c), RedirsText(RedirsOf(c)) + text);
    LexRedirs(RedirsOf(c), text);
    SimpleBack(ArgvOf(c), RedirsOf(c), Lex(text));
  }

  /** Parsing the canonical line for any tree the parser can build returns that tree. */
  lemma {:induction false} PrintThenParse(c: Cmd)
    requires Buildable(c)
    ensures Pipeline(Lex(Print(c))) == (Parsed(c), []) && Parse(Lex(Print(c))) == Parsed(c)
    decreases c
  {
    if c.Pipe? {
      var text := Print(c.right);
      PrintThenParse(c.right);
      BarText(text);
      ItemBack(c.left, "| " + text);
    } else {
      ItemBack(c, "");
    }
  }

  lemma BarText(text: string)
    ensures Lex("| " + text) == [Sym('|')] + Lex(text) && Lex("| " + text)[1..] == Lex(text)
  {
    assert "| " + text == ['|'] + " " + text;
    LexSym('|', text);
  }

  // ---------------------------------------------------------------- what the parser builds

  predicate GoodToks(ts: seq<Token>) {
    forall k :: 0 <= k < |ts| ==> if ts[k].Word? then GoodWord(ts[k].text) else Symbol(ts[k].c)
  }

  lemma {:induction false} WordLenGood(s: string)
    requires NulFree(s) && s != "" && !Blank(s[0]) && !Symbol(s[0])
    ensures GoodWord(s[..WordLen(s)])
    decreases |s|
  {
    var n := WordLen(s);
    if n > 1 {
      WordLenGood(s[1..]);
      assert forall k :: 1 <= k < n ==> s[k] == s[1..][..WordLen(s[1..])][k - 1];
    }
  }

  lemma {:induction false} LexGood(s: string)
    requires NulFree(s)
    ensures GoodToks(Lex(s))
    decreases |s|
  {
    if s != "" {
      if Blank(s[0]) || Symbol(s[0]) {
        LexGood(s[1..]);
      } else {
        WordLenGood(s);
        LexGood(s[WordLen(s)..]);
      }
    }
  }

  predicate GoodStep(r: Step) {
    r.More? ==> GoodToks(r.rest) && (forall k :: 0 <= k < |r.argv| ==>
      GoodWord(r.argv[k])) && (forall k :: 0 <= k < |r.redirs| ==> GoodRedir(r.redirs[k]))
  }

  lemma {:induction false} RedirsGood(ts: seq<Token>, argv: seq<string>, redirs: seq<(string, char)>)
    requires GoodStep(More(argv, redirs, ts))
    ensures GoodStep(Redirs(ts, argv, redirs))
    decreases |ts|
  {
    if !(ts == [] || ts[0].Word? || (ts[0].c != '<' && ts[0].c != '>')) && |ts| > 1 && ts[1].Word? {
      assert forall k :: 0 <= k < |ts[2..]| ==> ts[2..][k] == ts[k + 2];
      RedirsGood(ts[2..], argv, redirs + [(ts[1].text, ts[0].c)]);
    }
  }

  lemma {:induction false} ArgsGood(ts: seq<Token>, argv: seq<string>, redirs: seq<(string, char)>)
    requires GoodStep(More(argv, redirs, ts)) && |argv| < MAXARGS
    ensures GoodStep(Args(ts, argv, redirs))
      && (Args(ts, argv, redirs).More? ==> |Args(ts, argv, redirs).argv| < MAXARGS)
    decreases |ts|
  {
    if ts != [] && ts[0].Word? && |argv| + 1 < MAXARGS {
      RedirsGood(ts[1..], argv + [ts[0].text], redirs);
      var r := Redirs(ts[1..], argv + [ts[0].text], redirs);
      if r.More? {
        ArgsGood(r.rest, r.argv, r.redirs);
      }
    }
  }

  lemma {:induction false} WrapSimple(argv: seq<string>, redirs: seq<(string, char)>)
    requires |argv| < MAXARGS && (forall k :: 0 <= k < |argv| ==>
      GoodWord(argv[k])) && (forall k :: 0 <= k < |redirs| ==> GoodRedir(redirs[k]))
    ensures IsSimple(Wrap(Exec(argv), redirs))
    decreases |redirs|
  {
    if redirs != [] {
      WrapSimple(argv, redirs[..|redirs| - 1]);
      assert GoodRedir(redirs[|redirs| - 1]);
    }
  }

  lemma {:induction false} PipelineGood(ts: seq<Token>)
    requires GoodToks(ts)
    ensures Pipeline(ts).0.Parsed? ==> Buildable(Pipeline(ts).0.cmd)
    decreases |ts|
  {
    RedirsGood(ts, [], []);
    var r := Redirs(ts, [], []);
    if r.More? {
      ArgsGood(r.rest, r.argv, r.redirs);
      var a := Args(r.rest, r.argv, r.redirs);
      if a.More? {
        WrapSimple(a.argv, a.redirs);
        if a.rest != [] && a.rest[0] == Sym('|') {
          PipelineGood(a.rest[1..]);
        }
      }
    }
  }

  /** For every NUL-free line that parses, printing the tree and parsing again returns the tree. */
  lemma ParsePrintParse(s: string)
    requires NulFree(s) && Parse(Lex(s)).Parsed?
    ensures Buildable(Parse(Lex(s)).cmd) && Parse(Lex(Print(Parse(Lex(s)).cmd))) == Parse(Lex(s))
  {
    LexGood(s);
    PipelineGood(Lex(s));
    PrintThenParse(Parse(Lex(s)).cmd);
  }
}
