/** The shell's parser: it advances through the line, builds a tree of tokens by position, and then terminates
    every token in place. */
module Shell {
  import opened ShellGrammar
  import opened ShellText

  /** Where a token starts and where it ends. */
  datatype Token = Token(start: nat, end: nat)

  datatype Parsed = Done(cmd: Cmd<Token>, pos: nat) | Panic(error: Error)

  // ---------- Trees of positions ----------

  /** A maximal run of word characters of the line. */
  predicate InLine(s: string, k: Token)
  {
    && k.start < k.end <= |s| && (forall i :: k.start <= i < k.end ==> WordChar(s[i]))
    && (k.end < |s| ==> !WordChar(s[k.end]))
  }

  function Text(s: string, k: Token): (r: string)
    requires InLine(s, k)
  {
    s[k.start..k.end]
  }

  predicate Within(s: string, c: Cmd<Token>)
  {
    match c
    case Exec(argv) => forall i :: 0 <= i < |argv| ==> InLine(s, argv[i])
    case Redir(b, file, _) => Within(s, b) && InLine(s, file)
    case Pipe(l, r) => Within(s, l) && Within(s, r)
    case List(l, r) => Within(s, l) && Within(s, r)
    case Back(b) => Within(s, b)
  }

  function Texts(s: string, ks: seq<Token>): (r: seq<string>)
    requires forall i :: 0 <= i < |ks| ==> InLine(s, ks[i])
    ensures |r| == |ks|
  {
    if ks == [] then [] else Texts(s, ks[..|ks| - 1]) + [Text(s, ks[|ks| - 1])]
  }

  /** The tree with each token replaced by its text. */
  function Read(s: string, c: Cmd<Token>): (t: Tree)
    requires Within(s, c)
  {
    match c
    case Exec(argv) => Exec(Texts(s, argv))
    case Redir(b, file, out) => Redir(Read(s, b), Text(s, file), out)
    case Pipe(l, r) => Pipe(Read(s, l), Read(s, r))
    case List(l, r) => List(Read(s, l), Read(s, r))
    case Back(b) => Back(Read(s, b))
  }

  /** What a parsing method returned is what the grammar says. */
  predicate Agrees(s: string, r: Parsed, o: Outcome<Tree>)
    requires NoNul(s)
  {
    match r
    case Done(c, p) => p <= |s| && Within(s, c) && o == Ok(Read(s, c), Lex(s[p..]))
    case Panic(e) => o == Err(e)
  }

  // ---------- Tokens ----------

  /** The symbol starts with one of the characters. */
  predicate Chosen(y: Symbol, toks: string)
  {
    match y
    case Word(_) => false
    case Bar => '|' in toks
    case Open => '(' in toks
    case Close => ')' in toks
    case Semi => ';' in toks
    case Amp => '&' in toks
    case Less => '<' in toks
    case Greater => '>' in toks
    case Append => '>' in toks
  }

  /** gettoken's return value. */
  function Code(y: Symbol): (c: char)
  {
    match y
    case Word(_) => 'a'
    case Bar => '|'
    case Open => '('
    case Close => ')'
    case Semi => ';'
    case Amp => '&'
    case Less => '<'
    case Greater => '>'
    case Append => '+'
  }

  method SkipBlanks(s: string, pos: nat) returns (p: nat)
    requires NoNul(s) && pos <= |s|
    ensures pos <= p <= |s| && Lex(s[p..]) == Lex(s[pos..]) && (p < |s| ==> !White(s[p]))
  {
    hide Lex;
    p := pos;
    while p < |s| && White(s[p])
      invariant pos <= p <= |s| && forall i :: pos <= i < p ==> White(s[i])
    {
      p := p + 1;
    }
    LexSkip(s[pos..], p - pos);
    assert s[pos..][p - pos..] == s[p..];
  }

  lemma LexEnd(s: string)
    ensures s[|s|..] == "" && Lex("") == []
  {
  }

  lemma ChosenIs(t: string, toks: string)
    requires NoNul(t) && t != "" && !White(t[0]) && forall c :: c in toks ==> Special(c)
    ensures t[0] in toks <==> Chosen(First(t), toks)
  {
  }

  method Peek(s: string, pos: nat, toks: string) returns (r: bool, p: nat)
    requires NoNul(s) && pos <= |s| && forall c :: c in toks ==> Special(c)
    ensures pos <= p <= |s| && Lex(s[p..]) == Lex(s[pos..])
    ensures r <==> Lex(s[pos..]) != [] && Chosen(Lex(s[pos..])[0], toks)
    ensures p == |s| <==> Lex(s[pos..]) == []
  {
    p := SkipBlanks(s, pos);
    LexEnd(s);
    r := p < |s| && s[p] in toks;
    if p < |s| {
      LexFirst(s[p..]);
      ChosenIs(s[p..], toks);
    }
  }

  lemma FirstSpecial(t: string)
    requires NoNul(t) && t != "" && Special(t[0])
    ensures t[0] == '>' && |t| > 1 && t[1] == '>' ==> First(t) == Append && Length(t) == 2
    ensures !(t[0] == '>' && |t| > 1 && t[1] == '>') ==> Code(First(t)) == t[0] && Length(t) == 1 && !First(t).Word?
  {
  }

  lemma FirstWord(s: string, p: nat, e: nat)
    requires NoNul(s) && p < e <= |s| && InLine(s, Token(p, e))
    ensures !White(s[p..][0]) && Length(s[p..]) == e - p && First(s[p..]) == Word(Text(s, Token(p, e)))
  {
    var t := s[p..];
    assert WordChar(t[0]);
    RunIs(t, e - p);
    assert t[..e - p] == s[p..e];
  }

  /** The middle of gettoken, from the first character of a token. */
  method TakeToken(s: string, p: nat) returns (ret: char, e: nat)
    requires NoNul(s) && p < |s| && !White(s[p])
    ensures p < e <= |s| && e - p == Length(s[p..]) && ret == Code(First(s[p..]))
    ensures First(s[p..]).Word? ==> InLine(s, Token(p, e)) && First(s[p..]) == Word(Text(s, Token(p, e)))
  {
    ghost var t := s[p..];
    if Special(s[p]) {
      FirstSpecial(t);
      hide First, Length;
      ret, e := s[p], p + 1;
      if s[p] == '>' && e < |s| && s[e] == '>' {
        ret, e := '+', e + 1;
      }
    } else {
      hide First, Length;
      e := p;
      while e < |s| && !White(s[e]) && !Special(s[e])
        invariant p <= e <= |s| && forall i :: p <= i < e ==> WordChar(s[i])
      {
        e := e + 1;
      }
      ret := 'a';
      FirstWord(s, p, e);
    }
  }

  lemma LexPast(s: string, p: nat, e: nat)
    requires NoNul(s) && p < e <= |s| && !White(s[p]) && e - p == Length(s[p..])
    ensures Lex(s[p..]) == [First(s[p..])] + Lex(s[e..])
  {
    hide Lex, First, Length;
    LexFirst(s[p..]);
    assert s[p..][e - p..] == s[e..];
  }

  method GetToken(s: string, pos: nat) returns (ret: char, k: Token, p: nat)
    requires NoNul(s) && pos <= |s|
    ensures pos <= p <= |s| && (p < |s| ==> s[p] !in {' ', '\t', '\r', '\n', '\U{B}'})
    ensures Lex(s[pos..]) == [] ==> ret == '\0' && Lex(s[p..]) == []
    ensures Lex(s[pos..]) != [] ==> ret == Code(Lex(s[pos..])[0]) && Lex(s[p..]) == Lex(s[pos..])[1..]
    ensures Lex(s[pos..]) != [] && Lex(s[pos..])[0].Word? ==> InLine(s, k) && Lex(s[pos..])[0] == Word(Text(s, k))
  {
    hide First, Length, InLine, Lex, Text, Code;
    p := SkipBlanks(s, pos);
    LexEnd(s);
    if p == |s| {
      ret, k := '\0', Token(p, p);
      return;
    }
    var e;
    ret, e := TakeToken(s, p);
    k := Token(p, e);
    LexPast(s, p, e);
    p := SkipBlanks(s, e);
  }

  // ---------- Redirections ----------

  function WrapAll(t: Tree, o: Outcome<seq<Redirection<string>>>): (r: Outcome<Tree>)
  {
    if o.Ok? then Ok(Wrap(t, o.value), o.rest) else Err(o.error)
  }

  lemma {:induction false} WrapFront(t: Tree, r: Redirection<string>, rs: seq<Redirection<string>>)
    ensures Wrap(t, [r] + rs) == Wrap(Redir(t, r.file, r.out), rs)
    decreases |rs|
  {
    var all, n := [r] + rs, |rs|;
    if n == 0 {
      assert all[..0] == [];
    } else {
      assert all[..n] == [r] + rs[..n - 1];
      WrapFront(t, r, rs[..n - 1]);
    }
  }

  lemma {:induction false} RedirsStep(t: Tree, ts: Symbols)
    requires |ts| > 1 && Redirects(ts[0]) && ts[1].Word?
    ensures WrapAll(t, Redirs(ts)) == WrapAll(Redir(t, ts[1].text, ts[0] != Less), Redirs(ts[2..]))
  {
    var r := Redirs(ts[2..]);
    if r.Ok? {
      WrapFront(t, Redirection(ts[1].text, ts[0] != Less), r.value);
    }
    hide Wrap;
  }

  lemma {:induction false} RedirsFails(t: Tree, ts: Symbols)
    requires ts != [] && Redirects(ts[0]) && !(|ts| > 1 && ts[1].Word?)
    ensures WrapAll(t, Redirs(ts)) == Err(MissingFile)
  {
  }

  lemma {:induction false} RedirsNone(t: Tree, ts: Symbols)
    requires ts != [] ==> !Redirects(ts[0])
    ensures WrapAll(t, Redirs(ts)) == Ok(t, ts)
  {
  }

  lemma {:induction false} ChosenRedirects(y: Symbol)
    ensures Chosen(y, "<>") <==> Redirects(y)
    ensures Chosen(y, "|)&;") <==> Stops(y)
    ensures (Chosen(y, "(") <==> y == Open) && (Chosen(y, ")") <==> y == Close) && (Chosen(y, "|") <==> y == Bar)
    ensures (Chosen(y, "&") <==> y == Amp) && (Chosen(y, ";") <==> y == Semi)
    ensures Code(y) == 'a' <==> y.Word?
    ensures Code(y) != '\0' && (Code(y) == '<' <==> y == Less)
  {
  }

  method ParseRedirs(s: string, c0: Cmd<Token>, pos: nat) returns (r: Parsed)
    requires NoNul(s) && pos <= |s| && Within(s, c0)
    ensures Agrees(s, r, WrapAll(Read(s, c0), Redirs(Lex(s[pos..])))) && (r.Done? ==> Core(r.cmd) == Core(c0))
  {
    hide Lex, InLine, Text, Chosen, Code, Redirs, WrapAll;
    var c, p: nat := c0, pos;
    while true
      invariant p <= |s| && Within(s, c) && Core(c) == Core(c0)
      invariant WrapAll(Read(s, c), Redirs(Lex(s[p..]))) == WrapAll(Read(s, c0), Redirs(Lex(s[pos..])))
      decreases |Lex(s[p..])|
    {
      ghost var ts := Lex(s[p..]);
      var more, tok, ret, k;
      more, p := Peek(s, p, "<>");
      if ts != [] {
        ChosenRedirects(ts[0]);
      }
      if !more {
        RedirsNone(Read(s, c), ts);
        break;
      }
      tok, k, p := GetToken(s, p);
      ret, k, p := GetToken(s, p);
      if |ts| > 1 {
        ChosenRedirects(ts[1]);
      }
      if ret != 'a' {
        RedirsFails(Read(s, c), ts);
        return Panic(MissingFile);
      }
      RedirsStep(Read(s, c), ts);
      c := Redir(c, k, tok != '<');
    }
    r := Done(c, p);
  }

  // ---------- Commands ----------

  /** Writes argv through the pointer that parseexec keeps to the innermost command. */
  function Refit<T>(c: Cmd<T>, argv: seq<T>): (r: Cmd<T>)
  {
    if c.Redir? then Redir(Refit(c.cmd, argv), c.file, c.out) else Exec(argv)
  }

  lemma {:induction false} RefitWrap(c: Tree, rs: seq<Redirection<string>>, ws: seq<string>)
    ensures Refit(Wrap(c, rs), ws) == Wrap(Refit(c, ws), rs)
    decreases |rs|
  {
    if rs != [] {
      RefitWrap(c, rs[..|rs| - 1], ws);
    }
  }

  lemma {:induction false} RefitAgain(c: Tree, ws: seq<string>, vs: seq<string>)
    ensures Refit(Refit(c, ws), vs) == Refit(c, vs)
  {
    if c.Redir? {
      RefitAgain(c.cmd, ws, vs);
    }
  }

  lemma {:induction false} WrapWrap(c: Tree, a: seq<Redirection<string>>, b: seq<Redirection<string>>)
    ensures Wrap(Wrap(c, a), b) == Wrap(c, a + b)
    decreases |b|
  {
    if b == [] {
      assert a + b == a;
    } else {
      var n := |b| - 1;
      assert (a + b)[..|a + b| - 1] == a + b[..n];
      WrapWrap(c, a, b[..n]);
    }
  }

  /** The outcome of the argument loop from a tree t that holds the words ws already. */
  function FitAll(t: Tree, ws: seq<string>, q: Outcome<(seq<string>, seq<Redirection<string>>)>): (r: Outcome<Tree>)
  {
    if q.Err? then Err(q.error) else Ok(Wrap(Refit(t, ws + q.value.0), q.value.1), q.rest)
  }

  lemma {:induction false} ArgErrs(ts: Symbols, n: nat, a: Outcome<seq<Redirection<string>>>)
    requires ts != [] && ts[0].Word? && n + 1 < MAXARGS && a == Redirs(ts[1..])
    ensures a.Err? ==> Args(ts, n) == Err(a.error)
    ensures a.Ok? && Args(a.rest, n + 1).Err? ==> Args(ts, n) == Args(a.rest, n + 1)
  {
    hide Redirs;
  }

  lemma {:induction false} FitMore(t: Tree, ws: seq<string>, w: string, rs: seq<Redirection<string>>, vs: seq<string>,
                                   qs: seq<Redirection<string>>)
    ensures Wrap(Refit(t, ws + ([w] + vs)), rs + qs) == Wrap(Refit(Wrap(Refit(t, ws + [w]), rs), (ws + [w]) + vs), qs)
  {
    hide Wrap, Refit;
    var all := (ws + [w]) + vs;
    assert ws + ([w] + vs) == all;
    RefitWrap(Refit(t, ws + [w]), rs, all);
    RefitAgain(t, ws + [w], all);
    WrapWrap(Refit(t, all), rs, qs);
  }

  lemma {:induction false} ArgsStep(t: Tree, ws: seq<string>, ts: Symbols, a: Outcome<seq<Redirection<string>>>)
    requires ts != [] && ts[0].Word? && |ws| + 1 < MAXARGS && a == Redirs(ts[1..])
    ensures var ws' := ws + [ts[0].text];
      FitAll(t, ws, Args(ts, |ws|)) ==
      if a.Err? then Err(a.error) else FitAll(Wrap(Refit(t, ws'), a.value), ws', Args(a.rest, |ws'|))
  {
    hide Args, Redirs, Wrap, Refit;
    ArgErrs(ts, |ws|, a);
    if a.Ok? {
      var q := Args(a.rest, |ws| + 1);
      if q.Ok? {
        ArgStep(ts, |ws|, a, q);
        FitMore(t, ws, ts[0].text, a.value, q.value.0, q.value.1);
      }
    }
  }

  lemma {:induction false} ArgsDone(t: Tree, ws: seq<string>, ts: Symbols)
    requires (ts == [] || Stops(ts[0])) && Refit(t, ws) == t
    ensures FitAll(t, ws, Args(ts, |ws|)) == Ok(t, ts)
  {
    assert ws + [] == ws;
  }

  lemma {:induction false} ArgsFails(t: Tree, ws: seq<string>, ts: Symbols)
    requires ts != [] && !Stops(ts[0])
    ensures !ts[0].Word? ==> FitAll(t, ws, Args(ts, |ws|)) == Err(Syntax)
    ensures ts[0].Word? && |ws| + 1 >= MAXARGS ==> FitAll(t, ws, Args(ts, |ws|)) == Err(TooManyArgs)
  {
    hide Redirs;
  }

  lemma {:induction false} RefitRead(s: string, c: Cmd<Token>, ks: seq<Token>)
    requires Within(s, c) && forall i :: 0 <= i < |ks| ==> InLine(s, ks[i])
    ensures Within(s, Refit(c, ks)) && Read(s, Refit(c, ks)) == Refit(Read(s, c), Texts(s, ks))
  {
    if c.Redir? {
      RefitRead(s, c.cmd, ks);
    }
  }

  lemma {:induction false} TextsPush(s: string, ks: seq<Token>, k: Token)
    requires InLine(s, k) && forall i :: 0 <= i < |ks| ==> InLine(s, ks[i])
    ensures Texts(s, ks + [k]) == Texts(s, ks) + [Text(s, k)]
  {
    assert (ks + [k])[..|ks|] == ks;
  }

  lemma {:induction false} ExecUnfolds(ts: Symbols)
    requires !Starts(ts, Open)
    ensures var a := Redirs(ts);
      ParseExec(ts) == if a.Err? then Err(a.error) else FitAll(Wrap(Exec([]), a.value), [], Args(a.rest, 0))
  {
    var a := Redirs(ts);
    if a.Ok? {
      var q := Args(a.rest, 0);
      if q.Ok? {
        hide Args, Redirs, Wrap;
        assert [] + q.value.0 == q.value.0;
        RefitWrap(Exec([]), a.value, q.value.0);
        WrapWrap(Exec(q.value.0), a.value, q.value.1);
      }
    }
  }

  lemma {:induction false} ReadWrap(s: string, c: Cmd<Token>, argv: seq<Token>)
    requires Within(s, c) && Core(c) == Exec(argv)
    ensures Refit(c, argv) == c && (forall i :: 0 <= i < |argv| ==> InLine(s, argv[i]))
    ensures Refit(Read(s, c), Texts(s, argv)) == Read(s, c)
  {
    if c.Redir? {
      ReadWrap(s, c.cmd, argv);
    }
  }

  lemma {:induction false} CoreRefit(c: Cmd<Token>, argv: seq<Token>)
    ensures Core(Refit(c, argv)) == Exec(argv)
  {
    if c.Redir? {
      CoreRefit(c.cmd, argv);
    }
  }

  /** The end of parseexec, with what the redirections before the first word made. */
  method ParseArgs(s: string, c0: Cmd<Token>, pos: nat) returns (r: Parsed)
    requires NoNul(s) && pos <= |s| && Within(s, c0) && Core(c0) == Exec([])
    ensures Agrees(s, r, FitAll(Read(s, c0), [], Args(Lex(s[pos..]), 0)))
  {
    hide Lex, InLine, Text, Chosen, Code, Redirs, Args, FitAll, Wrap, Refit, Texts, Read, Within;
    var c, p: nat, argv := c0, pos, [];
    ghost var goal := FitAll(Read(s, c0), [], Args(Lex(s[pos..]), 0));
    NoTexts(s);
    while true
      invariant p <= |s| && Within(s, c) && Core(c) == Exec(argv) && |argv| < MAXARGS
      invariant forall i :: 0 <= i < |argv| ==> InLine(s, argv[i])
      invariant FitAll(Read(s, c), Texts(s, argv), Args(Lex(s[p..]), |argv|)) == goal
      decreases |Lex(s[p..])|
    {
      ghost var ts := Lex(s[p..]);
      var stop, ret, k;
      stop, p := Peek(s, p, "|)&;");
      if ts != [] {
        ChosenRedirects(ts[0]);
      }
      ReadWrap(s, c, argv);
      if stop {
        ArgsDone(Read(s, c), Texts(s, argv), ts);
        break;
      }
      ret, k, p := GetToken(s, p);
      if ret == '\0' {
        ArgsDone(Read(s, c), Texts(s, argv), ts);
        break;
      }
      ArgsFails(Read(s, c), Texts(s, argv), ts);
      if ret != 'a' {
        return Panic(Syntax);
      }
      if |argv| + 1 >= MAXARGS {
        return Panic(TooManyArgs);
      }
      ArgsStep(Read(s, c), Texts(s, argv), ts, Redirs(ts[1..]));
      TextsPush(s, argv, k);
      argv := argv + [k];
      RefitRead(s, c, argv);
      CoreRefit(c, argv);
      c := Refit(c, argv);
      r := ParseRedirs(s, c, p);
      if r.Panic? {
        return;
      }
      c, p := r.cmd, r.pos;
    }
    r := Done(c, p);
  }

  lemma {:induction false} NoTexts(s: string)
    ensures Texts(s, []) == []
  {
  }

  /** parseexec. */
  method ExecAt(s: string, pos: nat) returns (r: Parsed)
    requires NoNul(s) && pos <= |s|
    ensures Agrees(s, r, ParseExec(Lex(s[pos..])))
    decreases |Lex(s[pos..])|, 1
  {
    hide Lex, Chosen, Code, Redirs, Args, FitAll, Wrap, ParseExec;
    ghost var ts := Lex(s[pos..]);
    var block, p := Peek(s, pos, "(");
    if ts != [] {
      ChosenRedirects(ts[0]);
    }
    if block {
      r := BlockAt(s, p);
      return;
    }
    ExecUnfolds(ts);
    NoTexts(s);
    r := ParseRedirs(s, Exec([]), p);
    if r.Done? {
      r := ParseArgs(s, r.cmd, r.pos);
    }
  }

  lemma {:induction false} BlockUnfolds(ts: Symbols)
    requires Starts(ts, Open)
    ensures var c := ParseLine(ts[1..]);
      ParseExec(ts) ==
      if c.Err? then c else if !Starts(c.rest, Close) then Err(MissingClose) else WrapAll(c.value, Redirs(c.rest[1..]))
  {
    hide ParseLine, Redirs, Wrap;
  }

  /** parseblock, at a parenthesis. */
  method BlockAt(s: string, pos: nat) returns (r: Parsed)
    requires NoNul(s) && pos <= |s| && Starts(Lex(s[pos..]), Open)
    ensures Agrees(s, r, ParseExec(Lex(s[pos..])))
    decreases |Lex(s[pos..])|, 0
  {
    hide Lex, Chosen, Code, Redirs, WrapAll, ParseExec, ParseLine, Read, Within;
    ghost var ts := Lex(s[pos..]);
    BlockUnfolds(ts);
    var ret, k, p := GetToken(s, pos);
    r := LineAt(s, p);
    if r.Panic? {
      return;
    }
    ghost var rest := Lex(s[r.pos..]);
    var c, close := r.cmd, false;
    close, p := Peek(s, r.pos, ")");
    if rest != [] {
      ChosenRedirects(rest[0]);
    }
    if !close {
      return Panic(MissingClose);
    }
    ret, k, p := GetToken(s, p);
    r := ParseRedirs(s, c, p);
  }

  lemma {:induction false} PipeUnfolds(ts: Symbols)
    ensures var c := ParseExec(ts);
      ParsePipe(ts) ==
      if c.Err? || !Starts(c.rest, Bar) then c
      else
        var r := ParsePipe(c.rest[1..]);
        if r.Err? then r else Ok(Pipe(c.value, r.value), r.rest)
  {
    hide ParseExec;
  }

  /** parsepipe. */
  method PipeAt(s: string, pos: nat) returns (r: Parsed)
    requires NoNul(s) && pos <= |s|
    ensures Agrees(s, r, ParsePipe(Lex(s[pos..])))
    decreases |Lex(s[pos..])|, 2
  {
    hide Lex, Chosen, Code, ParseExec, ParsePipe;
    PipeUnfolds(Lex(s[pos..]));
    r := ExecAt(s, pos);
    if r.Panic? {
      return;
    }
    var left := r.cmd;
    ghost var rest := Lex(s[r.pos..]);
    var bar, p := Peek(s, r.pos, "|");
    if rest != [] {
      ChosenRedirects(rest[0]);
    }
    r := Done(left, p);
    if bar {
      var ret, k;
      ret, k, p := GetToken(s, p);
      r := PipeAt(s, p);
      if r.Done? {
        r := Done(Pipe(left, r.cmd), r.pos);
      }
    }
  }

  lemma {:induction false} LineUnfolds(ts: Symbols)
    ensures var c := ParsePipe(ts);
      ParseLine(ts) ==
      if c.Err? then c
      else
        var n := Ampersands(c.rest);
        AfterAmps(Backed(c.value, n), c.rest[n..])
  {
    hide ParsePipe, Ampersands, Backed;
  }

  function AfterAmps(left: Tree, rest: Symbols): (r: Outcome<Tree>)
  {
    if !Starts(rest, Semi) then Ok(left, rest)
    else
      var r := ParseLine(rest[1..]);
      if r.Err? then r else Ok(List(left, r.value), r.rest)
  }

  lemma {:induction false} BackedMore(c: Tree, n: nat)
    ensures Backed(Back(c), n) == Backed(c, n + 1)
  {
    if n > 0 {
      BackedMore(c, n - 1);
    }
  }

  lemma {:induction false} AmpStep(c: Tree, ts: Symbols)
    requires Starts(ts, Amp)
    ensures var n, m := Ampersands(ts), Ampersands(ts[1..]);
      Backed(c, n) == Backed(Back(c), m) && ts[n..] == ts[1..][m..]
  {
    BackedMore(c, Ampersands(ts[1..]));
  }

  /** The loop of parseline that takes ampersands. */
  method BacksAt(s: string, c0: Cmd<Token>, pos: nat) returns (c: Cmd<Token>, p: nat)
    requires NoNul(s) && pos <= |s| && Within(s, c0)
    ensures p <= |s| && Within(s, c)
    ensures var ts := Lex(s[pos..]);
      Read(s, c) == Backed(Read(s, c0), Ampersands(ts)) && Lex(s[p..]) == ts[Ampersands(ts)..]
  {
    hide Lex, Chosen, Code, Ampersands, Backed;
    c, p := c0, pos;
    ghost var ts := Lex(s[pos..]);
    while true
      invariant p <= |s| && Within(s, c)
      invariant var us := Lex(s[p..]);
        Backed(Read(s, c), Ampersands(us)) == Backed(Read(s, c0), Ampersands(ts)) &&
        us[Ampersands(us)..] == ts[Ampersands(ts)..]
      decreases |Lex(s[p..])|
    {
      ghost var us := Lex(s[p..]);
      var amp, ret, k;
      amp, p := Peek(s, p, "&");
      if us != [] {
        ChosenRedirects(us[0]);
      }
      if !amp {
        NoAmp(Read(s, c), us);
        break;
      }
      AmpStep(Read(s, c), us);
      ret, k, p := GetToken(s, p);
      c := Back(c);
    }
  }

  lemma {:induction false} NoAmp(c: Tree, ts: Symbols)
    requires !Starts(ts, Amp)
    ensures Ampersands(ts) == 0 && Backed(c, 0) == c && ts[0..] == ts
  {
  }

  /** parseline. */
  method LineAt(s: string, pos: nat) returns (r: Parsed)
    requires NoNul(s) && pos <= |s|
    ensures Agrees(s, r, ParseLine(Lex(s[pos..])))
    decreases |Lex(s[pos..])|, 3
  {
    hide Lex, Chosen, Code, ParsePipe, ParseLine, Backed, Ampersands;
    LineUnfolds(Lex(s[pos..]));
    r := PipeAt(s, pos);
    if r.Panic? {
      return;
    }
    var c, p := BacksAt(s, r.cmd, r.pos);
    ghost var rest := Lex(s[p..]);
    var semi;
    semi, p := Peek(s, p, ";");
    if rest != [] {
      ChosenRedirects(rest[0]);
    }
    r := Done(c, p);
    if semi {
      var ret, k;
      ret, k, p := GetToken(s, p);
      r := LineAt(s, p);
      if r.Done? {
        r := Done(List(c, r.cmd), r.pos);
      }
    }
  }

  // ---------- Terminating the tokens ----------

  /** The position is the end of some token of the tree. */
  predicate IsEnd(c: Cmd<Token>, i: nat)
  {
    match c
    case Exec(argv) => exists j :: 0 <= j < |argv| && argv[j].end == i
    case Redir(b, file, _) => IsEnd(b, i) || file.end == i
    case Pipe(l, r) => IsEnd(l, i) || IsEnd(r, i)
    case List(l, r) => IsEnd(l, i) || IsEnd(r, i)
    case Back(b) => IsEnd(b, i)
  }

  /** nulterminate: a NUL goes to the end of each token and nowhere else. */
  method NulTerminate(buf: array<char>, s: string, c: Cmd<Token>)
    requires |s| < buf.Length && Within(s, c)
    modifies buf
    ensures forall i :: 0 <= i < buf.Length ==> buf[i] == if IsEnd(c, i) then '\0' else old(buf[i])
    decreases c
  {
    match c
    case Exec(argv) =>
      var n := 0;
      while n < |argv|
        invariant n <= |argv|
        invariant forall i :: 0 <= i < buf.Length ==>
          buf[i] == if exists j :: 0 <= j < n && argv[j].end == i then '\0' else old(buf[i])
      {
        buf[argv[n].end] := '\0';
        n := n + 1;
      }
    case Redir(b, file, _) =>
      NulTerminate(buf, s, b);
      buf[file.end] := '\0';
    case Pipe(l, r) =>
      NulTerminate(buf, s, l);
      NulTerminate(buf, s, r);
    case List(l, r) =>
      NulTerminate(buf, s, l);
      NulTerminate(buf, s, r);
    case Back(b) =>
      NulTerminate(buf, s, b);
  }

  /** The string that starts at i: up to the next NUL. */
  function CString(b: seq<char>, i: nat): (r: string)
    requires i <= |b|
    decreases |b| - i
  {
    if i == |b| || b[i] == '\0' then "" else [b[i]] + CString(b, i + 1)
  }

  predicate StartsIn(b: seq<char>, c: Cmd<Token>)
  {
    match c
    case Exec(argv) => forall j :: 0 <= j < |argv| ==> argv[j].start <= |b|
    case Redir(d, file, _) => StartsIn(b, d) && file.start <= |b|
    case Pipe(l, r) => StartsIn(b, l) && StartsIn(b, r)
    case List(l, r) => StartsIn(b, l) && StartsIn(b, r)
    case Back(d) => StartsIn(b, d)
  }

  function CStrings(b: seq<char>, ks: seq<Token>): (r: seq<string>)
    requires forall j :: 0 <= j < |ks| ==> ks[j].start <= |b|
  {
    if ks == [] then [] else CStrings(b, ks[..|ks| - 1]) + [CString(b, ks[|ks| - 1].start)]
  }

  /** The tree as the program that is run sees it: each string from its start to the next NUL. */
  function Seen(b: seq<char>, c: Cmd<Token>): (t: Tree)
    requires StartsIn(b, c)
  {
    match c
    case Exec(argv) => Exec(CStrings(b, argv))
    case Redir(d, file, out) => Redir(Seen(b, d), CString(b, file.start), out)
    case Pipe(l, r) => Pipe(Seen(b, l), Seen(b, r))
    case List(l, r) => List(Seen(b, l), Seen(b, r))
    case Back(d) => Back(Seen(b, d))
  }

  /** Word characters are as in the line, and the end of the token is NUL. */
  predicate Cut(s: string, b: seq<char>, k: Token)
  {
    && |s| < |b| && k.end < |b| && b[k.end] == '\0'
    && forall i :: 0 <= i < |s| && WordChar(s[i]) ==> b[i] == s[i]
  }

  lemma {:induction false} CStringIs(s: string, b: seq<char>, k: Token, i: nat)
    requires InLine(s, k) && Cut(s, b, k) && k.start <= i <= k.end
    ensures CString(b, i) == s[i..k.end]
    decreases k.end - i
  {
    if i < k.end {
      CStringIs(s, b, k, i + 1);
      assert s[i..k.end] == [s[i]] + s[i + 1..k.end];
    }
  }

  /** Every token of the tree is cut. */
  predicate AllCut(s: string, b: seq<char>, c: Cmd<Token>)
  {
    match c
    case Exec(argv) => forall j :: 0 <= j < |argv| ==> Cut(s, b, argv[j])
    case Redir(d, file, _) => AllCut(s, b, d) && Cut(s, b, file)
    case Pipe(l, r) => AllCut(s, b, l) && AllCut(s, b, r)
    case List(l, r) => AllCut(s, b, l) && AllCut(s, b, r)
    case Back(d) => AllCut(s, b, d)
  }

  lemma {:induction false} CStringsAre(s: string, b: seq<char>, ks: seq<Token>)
    requires forall j :: 0 <= j < |ks| ==> InLine(s, ks[j]) && Cut(s, b, ks[j])
    ensures (forall j :: 0 <= j < |ks| ==> ks[j].start <= |b|) && CStrings(b, ks) == Texts(s, ks)
  {
    if ks != [] {
      var k := ks[|ks| - 1];
      CStringsAre(s, b, ks[..|ks| - 1]);
      CStringIs(s, b, k, k.start);
    }
  }

  lemma {:induction false} SeenIsRead(s: string, b: seq<char>, c: Cmd<Token>)
    requires Within(s, c) && AllCut(s, b, c)
    ensures StartsIn(b, c) && Seen(b, c) == Read(s, c)
  {
    match c
    case Exec(argv) => CStringsAre(s, b, argv);
    case Redir(d, file, _) => SeenIsRead(s, b, d); CStringIs(s, b, file, file.start);
    case Pipe(l, r) => SeenIsRead(s, b, l); SeenIsRead(s, b, r);
    case List(l, r) => SeenIsRead(s, b, l); SeenIsRead(s, b, r);
    case Back(d) => SeenIsRead(s, b, d);
  }

  /** b is the line with a NUL at the end of each token of the whole tree c. */
  predicate Terminated(s: string, b: seq<char>, c: Cmd<Token>)
  {
    |s| < |b| && forall i :: 0 <= i <= |s| ==> b[i] == if i == |s| || IsEnd(c, i) then '\0' else s[i]
  }

  /** An end never falls on a word character. */
  lemma {:induction false} EndOutside(s: string, c: Cmd<Token>, i: nat)
    requires Within(s, c) && IsEnd(c, i)
    ensures i <= |s| && (i < |s| ==> !WordChar(s[i]))
  {
    match c
    case Exec(_) =>
    case Redir(d, file, _) => if IsEnd(d, i) { EndOutside(s, d, i); }
    case Pipe(l, r) => if IsEnd(l, i) { EndOutside(s, l, i); } else { EndOutside(s, r, i); }
    case List(l, r) => if IsEnd(l, i) { EndOutside(s, l, i); } else { EndOutside(s, r, i); }
    case Back(d) => EndOutside(s, d, i);
  }

  lemma {:induction false} TokenCut(s: string, b: seq<char>, whole: Cmd<Token>, k: Token)
    requires Within(s, whole) && Terminated(s, b, whole) && InLine(s, k) && IsEnd(whole, k.end)
    ensures Cut(s, b, k)
  {
    forall i | 0 <= i < |s| && WordChar(s[i])
      ensures b[i] == s[i]
    {
      if IsEnd(whole, i) {
        EndOutside(s, whole, i);
      }
    }
  }

  lemma {:induction false} PartCut(s: string, b: seq<char>, whole: Cmd<Token>, c: Cmd<Token>)
    requires Within(s, whole) && Terminated(s, b, whole) && Within(s, c)
    requires forall i: nat :: IsEnd(c, i) ==> IsEnd(whole, i)
    ensures AllCut(s, b, c)
  {
    match c
    case Exec(argv) =>
      forall j | 0 <= j < |argv|
        ensures Cut(s, b, argv[j])
      {
        assert IsEnd(c, argv[j].end);
        TokenCut(s, b, whole, argv[j]);
      }
    case Redir(d, file, _) =>
      PartCut(s, b, whole, d);
      assert IsEnd(c, file.end);
      TokenCut(s, b, whole, file);
    case Pipe(l, r) => PartCut(s, b, whole, l); PartCut(s, b, whole, r);
    case List(l, r) => PartCut(s, b, whole, l); PartCut(s, b, whole, r);
    case Back(d) => PartCut(s, b, whole, d);
  }

  /** strlen. */
  method Strlen(buf: array<char>) returns (n: nat)
    requires exists i :: 0 <= i < buf.Length && buf[i] == '\0'
    ensures n < buf.Length && buf[n] == '\0' && NoNul(buf[..n])
  {
    n := 0;
    while buf[n] != '\0'
      invariant n < buf.Length && forall i :: 0 <= i < n ==> buf[i] != '\0'
      invariant exists i :: n <= i < buf.Length && buf[i] == '\0'
      decreases buf.Length - n
    {
      n := n + 1;
    }
  }

  /** parsecmd. A panic is what the grammar says; otherwise the strings of the tree, read up to their NULs, are exactly
      the words of the line. */
  method ParseBuffer(buf: array<char>) returns (r: Parsed, ghost s: string)
    requires exists i :: 0 <= i < buf.Length && buf[i] == '\0'
    modifies buf
    ensures |s| < buf.Length && s == old(buf[..])[..|s|] && old(buf[|s|]) == '\0' && NoNul(s)
    ensures r.Panic? ==> ParseCmd(Lex(s)) == Err(r.error) && buf[..] == old(buf[..])
    ensures r.Done? ==> StartsIn(buf[..], r.cmd) && ParseCmd(Lex(s)) == Ok(Seen(buf[..], r.cmd), [])
  {
    hide Lex, ParseLine, Chosen;
    var n := Strlen(buf);
    var line := buf[..n];
    s := line;
    assert line[0..] == line;
    r := LineAt(line, 0);
    if r.Panic? {
      return;
    }
    var c, more, p := r.cmd, false, 0;
    more, p := Peek(line, r.pos, "");
    if p != n {
      return Panic(Syntax), s;
    }
    NulTerminate(buf, line, c);
    assert Terminated(s, buf[..], c);
    hide Terminated;
    PartCut(s, buf[..], c, c);
    SeenIsRead(s, buf[..], c);
    r := Done(c, p);
  }

  lemma SameLine(b: seq<char>, s: string, t: string)
    requires |s| < |b| && |t| < |b| && s == b[..|s|] && t == b[..|t|] && b[|s|] == '\0' && b[|t|] == '\0'
    requires NoNul(s) && NoNul(t)
    ensures s == t
  {
  }

  /** parsecmd on a buffer that holds the text of a well-formed tree, in any layout: it gives that tree. */
  method ParseLayout(buf: array<char>, ghost t: Tree, ghost lead: string, ghost seps: seq<string>) returns (r: Parsed)
    requires WellFormed(t) && Spaces(lead) && Spaced(PrintLine(t), seps)
    requires var s := lead + Layout(PrintLine(t), seps); |s| < buf.Length && buf[..|s|] == s && buf[|s|] == '\0'
    modifies buf
    ensures r.Done? && StartsIn(buf[..], r.cmd) && Seen(buf[..], r.cmd) == t
  {
    hide Lex, Layout, PrintLine, ParseCmd, WellFormed, Seen, StartsIn;
    ghost var s, b := lead + Layout(PrintLine(t), seps), buf[..];
    RoundTrip(t, lead, seps);
    ghost var line;
    r, line := ParseBuffer(buf);
    SameLine(b, s, line);
  }
}
