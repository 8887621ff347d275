/** What the shell makes of any line: arguments and redirections in any order, too many arguments, and a
    redirection without a file. */
module ShellLines {
  import opened Shell
  import opened ShellPrint

  datatype Item = Arg(word: string) | Red(file: string, mode: char)

  function ItemToks(items: seq<Item>): seq<Token> {
    if items == [] then []
    else (match items[0] case Arg(w) => [Word(w)] case Red(f, m) => [Sym(m), Word(f)]) + ItemToks(items[1..])
  }

  function ArgsIn(items: seq<Item>): seq<string> {
    if items == [] then [] else (if items[0].Arg? then [items[0].word] else []) + ArgsIn(items[1..])
  }

  function RedsIn(items: seq<Item>): seq<(string, char)> {
    if items == [] then []
    else (if items[0].Red? then [(items[0].file, items[0].mode)] else []) + RedsIn(items[1..])
  }

  predicate IsRedirSym(t: Token) { t == Sym('<') || t == Sym('>') }

  predicate ItemsOk(items: seq<Item>) {
    forall k :: 0 <= k < |items| && items[k].Red? ==> items[k].mode == '<' || items[k].mode == '>'
  }

  // A redirection without a file
  predicate Dangling(rest: seq<Token>) {
    rest != [] && IsRedirSym(rest[0]) && (|rest| == 1 || rest[1].Sym?)
  }

  // parseexec's loop, begun with the redirections at the front
  function Continue(ts: seq<Token>, argv: seq<string>, redirs: seq<(string, char)>): Step {
    match Redirs(ts, argv, redirs)
    case Stop(why) => Stop(why)
    case More(argv', redirs', rest) => Args(rest, argv', redirs')
  }

  lemma {:induction false} ItemsSplit(items: seq<Item>, rest: seq<Token>)
    requires items != []
    ensures var ts := ItemToks(items) + rest;
      match items[0]
      case Arg(w) => ts != [] && ts[0] == Word(w) && ts[1..] == ItemToks(items[1..]) + rest
      case Red(f, m) => |ts| >= 2 && ts[0] == Sym(m) && ts[1] == Word(f) && ts[2..] == ItemToks(items[1..]) + rest
  {
    var tail := ItemToks(items[1..]);
    match items[0]
    case Arg(w) => assert ItemToks(items) + rest == [Word(w)] + (tail + rest);
    case Red(f, m) => assert ItemToks(items) + rest == [Sym(m), Word(f)] + (tail + rest);
  }

  // What parseexec comes to
  function Gathered(argv: seq<string>, redirs: seq<(string, char)>, rest: seq<Token>): Step {
    if |argv| >= MAXARGS then Stop(TooManyArgs)
    else if Dangling(rest) then Stop(MissingFile)
    else More(argv, redirs, rest)
  }

  lemma {:induction false} ItemsContinue(items: seq<Item>, rest: seq<Token>, argv: seq<string>,
          redirs: seq<(string, char)>)
    requires ItemsOk(items) && (Ends(rest) || Dangling(rest)) && |argv| < MAXARGS
    ensures Continue(ItemToks(items) + rest, argv, redirs)
         == Gathered(argv + ArgsIn(items), redirs + RedsIn(items), rest)
    decreases |items|
  {
    var ts := ItemToks(items) + rest;
    if items == [] {
      NoItems(rest, argv, redirs);
      assert ts == rest && argv + [] == argv && redirs + [] == redirs;
    } else {
      ItemsSplit(items, rest);
      match items[0]
      case Arg(w) => ArgContinue(items, rest, argv, redirs, ts, w);
      case Red(f, m) => RedContinue(items, rest, argv, redirs, ts, f, m);
    }
  }

  lemma NoItems(rest: seq<Token>, argv: seq<string>, redirs: seq<(string, char)>)
    requires (Ends(rest) || Dangling(rest)) && |argv| < MAXARGS
    ensures Continue(rest, argv, redirs) == Gathered(argv, redirs, rest)
  {
  }

  lemma {:induction false} RedContinue(items: seq<Item>, rest: seq<Token>, argv: seq<string>,
          redirs: seq<(string, char)>, ts: seq<Token>, f: string, m: char)
    requires ItemsOk(items) && (Ends(rest) || Dangling(rest)) && |argv| < MAXARGS
    requires items != [] && items[0] == Red(f, m)
    requires |ts| >= 2 && ts[0] == Sym(m) && ts[1] == Word(f) && ts[2..] == ItemToks(items[1..]) + rest
    ensures Continue(ts, argv, redirs) == Gathered(argv + ArgsIn(items), redirs + RedsIn(items), rest)
    decreases |items|, 0
  {
    var more := redirs + [(f, m)];
    ItemsCons(items, argv, redirs);
    RedTurn(ts, argv, redirs, f, m);
    ItemsContinue(items[1..], rest, argv, more);
  }

  // What the first item adds
  lemma ItemsCons(items: seq<Item>, argv: seq<string>, redirs: seq<(string, char)>)
    requires items != []
    ensures argv + ArgsIn(items) == (if items[0].Arg? then argv + [items[0].word] else argv) + ArgsIn(items[1..])
    ensures redirs + RedsIn(items)
         == (if items[0].Red? then redirs + [(items[0].file, items[0].mode)] else redirs) + RedsIn(items[1..])
  {
    match items[0]
    case Arg(w) =>
      Shift(argv, w, ArgsIn(items[1..]));
      Skip(redirs, RedsIn(items[1..]));
    case Red(f, m) =>
      Shift(redirs, (f, m), RedsIn(items[1..]));
      Skip(argv, ArgsIn(items[1..]));
  }

  lemma {:induction false} Shift<T>(a: seq<T>, x: T, b: seq<T>)
    ensures a + ([x] + b) == (a + [x]) + b
  {
  }

  lemma {:induction false} Skip<T>(a: seq<T>, b: seq<T>)
    ensures a + ([] + b) == a + b
  {
  }

  lemma RedTurn(ts: seq<Token>, argv: seq<string>, redirs: seq<(string, char)>, f: string, m: char)
    requires |ts| >= 2 && ts[0] == Sym(m) && ts[1] == Word(f) && (m == '<' || m == '>')
    ensures Continue(ts, argv, redirs) == Continue(ts[2..], argv, redirs + [(f, m)])
  {
  }

  lemma ArgTurn(ts: seq<Token>, argv: seq<string>, redirs: seq<(string, char)>, w: string)
    requires ts != [] && ts[0] == Word(w)
    ensures Continue(ts, argv, redirs)
         == if |argv| + 1 >= MAXARGS then Stop(TooManyArgs) else Continue(ts[1..], argv + [w], redirs)
  {
  }

  lemma {:induction false} ArgContinue(items: seq<Item>, rest: seq<Token>, argv: seq<string>,
          redirs: seq<(string, char)>, ts: seq<Token>, w: string)
    requires ItemsOk(items) && (Ends(rest) || Dangling(rest)) && |argv| < MAXARGS && items != [] && items[0] == Arg(w)
    requires ts != [] && ts[0] == Word(w) && ts[1..] == ItemToks(items[1..]) + rest
    ensures Continue(ts, argv, redirs) == Gathered(argv + ArgsIn(items), redirs + RedsIn(items), rest)
    decreases |items|, 0
  {
    var more := argv + [w];
    ItemsCons(items, argv, redirs);
    ArgTurn(ts, argv, redirs, w);
    if |more| < MAXARGS {
      ItemsContinue(items[1..], rest, more, redirs);
    }
  }

  /** An execcmd, for arguments and redirections in any order: the arguments in their order, and the
      redirections in theirs; too many arguments, or else a redirection without a file, end it. */
  lemma SimpleExactly(items: seq<Item>, rest: seq<Token>)
    requires ItemsOk(items) && (Ends(rest) || Dangling(rest))
    ensures Simple(ItemToks(items) + rest) == Gathered(ArgsIn(items), RedsIn(items), rest)
  {
    ItemsContinue(items, rest, [], []);
    assert [] + ArgsIn(items) == ArgsIn(items) && [] + RedsIn(items) == RedsIn(items);
  }

  /** Every sequence of tokens begins with such items, and then ends, or has a bar, or a redirection
      without a file: so SimpleExactly says what becomes of any. */
  lemma {:induction false} ItemsExist(ts: seq<Token>) returns (items: seq<Item>, rest: seq<Token>)
    requires Symbols(ts)
    ensures ItemsOk(items) && ts == ItemToks(items) + rest && (Ends(rest) || Dangling(rest)) && Symbols(rest)
    decreases |ts|
  {
    if Ends(ts) || Dangling(ts) {
      assert ItemToks([]) + ts == ts;
      return [], ts;
    }
    var n := if ts[0].Word? then 1 else 2;
    var item := if ts[0].Word? then Arg(ts[0].text) else Red(ts[1].text, ts[0].c);
    SymbolsTail(ts, n);
    var more;
    more, rest := ItemsExist(ts[n..]);
    items := [item] + more;
    assert items[1..] == more;
    ItemsSplit(items, rest);
    assert ts == ts[..n] + ts[n..];
  }

  /** A whole pipeline, one item list after the other */
  lemma PipelineExactly(items: seq<Item>, rest: seq<Token>)
    requires ItemsOk(items) && (Ends(rest) || Dangling(rest))
    ensures var cmd, (r, left) := Wrap(Exec(ArgsIn(items)), RedsIn(items)), Pipeline(ItemToks(items) + rest);
      if |ArgsIn(items)| >= MAXARGS then r == TooManyArgs
      else if Dangling(rest) then r == MissingFile
      else if rest == [] then r == Parsed(cmd) && left == []
      else (var (right, left') := Pipeline(rest[1..]);
            r == (if right.Parsed? then Parsed(Pipe(cmd, right.cmd)) else right) && left == left')
  {
    SimpleExactly(items, rest);
  }

  // ---------------------------------------------------------------- as text

  const WHITESPACE := " \t\r\n\U{0B}"
  const SYMBOLS := "<|>"

  predicate BlankText(s: string) { forall k :: 0 <= k < |s| ==> s[k] in WHITESPACE }

  predicate TokOk(t: Token) {
    match t case Word(w) => GoodWord(w) case Sym(c) => c in SYMBOLS
  }

  function TokText(t: Token): string { match t case Word(w) => w case Sym(c) => [c] }

  // Tokens with blanks in front of them; between two words there is at least one.
  predicate SpacedOk(toks: seq<Token>, gaps: seq<string>) {
    && |gaps| == |toks| && (forall k :: 0 <= k < |toks| ==> TokOk(toks[k]) && BlankText(gaps[k]))
    && forall k :: 0 < k < |toks| && toks[k - 1].Word? && toks[k].Word? ==> gaps[k] != ""
  }

  function Spaced(toks: seq<Token>, gaps: seq<string>, end: string): string
    requires |gaps| == |toks|
  {
    if toks == [] then end else gaps[0] + (TokText(toks[0]) + Spaced(toks[1..], gaps[1..], end))
  }

  lemma {:induction false} LexGap(gap: string, s: string)
    requires BlankText(gap)
    ensures Lex(gap + s) == Lex(s)
    decreases |gap|
  {
    if gap == "" {
      assert gap + s == s;
    } else {
      assert Blank(gap[0]) && (gap + s)[1..] == gap[1..] + s;
      LexGap(gap[1..], s);
    }
  }

  lemma {:induction false} WordEnds(w: string, s: string)
    requires GoodWord(w) && (s == "" || s[0] in WHITESPACE || s[0] in SYMBOLS)
    ensures WordLen(w + s) == |w|
    decreases |w|
  {
    assert (w + s)[1..] == w[1..] + s;
    if |w| > 1 {
      WordEnds(w[1..], s);
    } else {
      assert w[1..] + s == s;
    }
  }

  lemma LexTok(t: Token, s: string)
    requires TokOk(t) && (t.Word? ==> s == "" || s[0] in WHITESPACE || s[0] in SYMBOLS)
    ensures Lex(TokText(t) + s) == [t] + Lex(s)
  {
    match t
    case Word(w) =>
      WordEnds(w, s);
      assert (w + s)[..|w|] == w && (w + s)[|w|..] == s && (w + s)[0] == w[0];
    case Sym(c) =>
      assert ([c] + s)[1..] == s;
  }

  // What follows a word is no part of it.
  lemma AfterWord(toks: seq<Token>, gaps: seq<string>, end: string)
    requires SpacedOk(toks, gaps) && BlankText(end) && toks != [] && toks[0].Word?
    ensures var s := Spaced(toks[1..], gaps[1..], end); s == "" || s[0] in WHITESPACE || s[0] in SYMBOLS
  {
    if |toks| > 1 {
      assert toks[1..][0] == toks[1] && gaps[1..][0] == gaps[1];
      assert BlankText(gaps[1]) && TokOk(toks[1]);
    }
  }

  /** Blanks count for nothing but to tell two words apart: tokens written with any blanks, and with none
      around symbols, are read back. */
  lemma {:induction false} LexSpaced(toks: seq<Token>, gaps: seq<string>, end: string)
    requires SpacedOk(toks, gaps) && BlankText(end)
    ensures Lex(Spaced(toks, gaps, end)) == toks
    decreases |toks|
  {
    if toks == [] {
      LexGap(end, "");
      assert end + "" == end;
    } else {
      var rest := Spaced(toks[1..], gaps[1..], end);
      LexSpaced(toks[1..], gaps[1..], end);
      LexGap(gaps[0], TokText(toks[0]) + rest);
      if toks[0].Word? {
        AfterWord(toks, gaps, end);
      }
      LexTok(toks[0], rest);
    }
  }

  predicate ItemsWritable(items: seq<Item>) {
    forall k :: 0 <= k < |items| ==>
      match items[k] case Arg(w) => GoodWord(w) case Red(f, m) => GoodRedir((f, m))
  }

  /** A line of arguments and redirections in any order, blank as it may be, is one command with the
      arguments and the redirections in their order; with ten arguments or more it is too long. */
  lemma LineParses(items: seq<Item>, gaps: seq<string>, end: string)
    requires ItemsWritable(items) && SpacedOk(ItemToks(items), gaps) && BlankText(end)
    ensures Parse(Lex(Spaced(ItemToks(items), gaps, end))) ==
      if |ArgsIn(items)| >= MAXARGS then TooManyArgs else Parsed(Wrap(Exec(ArgsIn(items)), RedsIn(items)))
  {
    LexSpaced(ItemToks(items), gaps, end);
    assert ItemToks(items) + [] == ItemToks(items);
    PipelineExactly(items, []);
  }
}
