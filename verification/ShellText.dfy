/** From the characters of a line to symbols and back. */
module ShellText {
  import opened ShellGrammar

  /** Space, tab, carriage return, newline, vertical tab. */
  predicate White(c: char)
  {
    c == ' ' || c == '\t' || c == '\r' || c == '\n' || c == '\U{B}'
  }

  predicate Special(c: char)
  {
    c == '<' || c == '|' || c == '>' || c == '&' || c == ';' || c == '(' || c == ')'
  }

  predicate WordChar(c: char)
  {
    !White(c) && !Special(c) && c != '\0'
  }

  /** The characters before the terminating NUL. */
  predicate NoNul(s: string)
  {
    forall i :: 0 <= i < |s| ==> s[i] != '\0'
  }

  /** White space as a text may be laid out with. */
  predicate Spaces(s: string)
  {
    forall i :: 0 <= i < |s| ==> s[i] in {' ', '\t', '\r', '\n', '\U{B}'}
  }

  /** A word that needs no care: it has a character, and no space or symbol in it. */
  predicate GoodWord(w: string)
  {
    w != "" && forall i :: 0 <= i < |w| ==>
      w[i] !in {' ', '\t', '\r', '\n', '\U{B}', '<', '|', '>', '&', ';', '(', ')', '\0'}
  }

  /** The characters that the code tells apart are those. */
  lemma Characters(s: string)
    ensures Spaces(s) <==> forall i :: 0 <= i < |s| ==> White(s[i])
    ensures GoodWord(s) <==> s != "" && forall i :: 0 <= i < |s| ==> WordChar(s[i])
  {
  }

  // ---------- Symbols of a text ----------

  /** Length of the leading white space. */
  function Blank(s: string): (n: nat)
    ensures n <= |s| && (n < |s| ==> !White(s[n])) && forall i :: 0 <= i < n ==> White(s[i])
  {
    if s != "" && White(s[0]) then 1 + Blank(s[1..]) else 0
  }

  /** Length of the leading word. */
  function Run(s: string): (n: nat)
    ensures n <= |s| && (n < |s| ==> !WordChar(s[n])) && forall i :: 0 <= i < n ==> WordChar(s[i])
  {
    if s != "" && WordChar(s[0]) then 1 + Run(s[1..]) else 0
  }

  /** The symbol that one character is. */
  function Sign(c: char): (r: Symbol)
  {
    match c
    case '|' => Bar
    case '(' => Open
    case ')' => Close
    case ';' => Semi
    case '&' => Amp
    case '<' => Less
    case _ => Greater
  }

  /** Length of the first symbol. */
  function Length(s: string): (n: nat)
    requires s != "" && !White(s[0]) && NoNul(s)
    ensures 0 < n <= |s|
  {
    if !Special(s[0]) then assert WordChar(s[0]); Run(s)
    else if s[0] == '>' && |s| > 1 && s[1] == '>' then 2
    else 1
  }

  function First(s: string): (r: Symbol)
    requires s != "" && !White(s[0]) && NoNul(s)
  {
    if !Special(s[0]) then Word(s[..Length(s)]) else if Length(s) == 2 then Append else Sign(s[0])
  }

  function Lex(s: string): (r: Symbols)
    requires NoNul(s)
  {
    var t := s[Blank(s)..];
    if t == "" then [] else [First(t)] + Lex(t[Length(t)..])
  }

  lemma BlankIs(s: string, n: nat)
    requires n <= |s| && (n < |s| ==> !White(s[n])) && forall i :: 0 <= i < n ==> White(s[i])
    ensures Blank(s) == n
  {
  }

  lemma RunIs(s: string, n: nat)
    requires n <= |s| && (n < |s| ==> !WordChar(s[n])) && forall i :: 0 <= i < n ==> WordChar(s[i])
    ensures Run(s) == n
  {
  }

  function LexTrimmed(t: string): (r: Symbols)
    requires NoNul(t) && (t != "" ==> !White(t[0]))
  {
    if t == "" then [] else [First(t)] + Lex(t[Length(t)..])
  }

  lemma LexAfter(s: string)
    requires NoNul(s)
    ensures Lex(s) == LexTrimmed(s[Blank(s)..])
  {
    hide First, Length, Blank;
  }

  /** White space in front changes nothing. */
  lemma LexSkip(s: string, n: nat)
    requires NoNul(s) && n <= |s| && forall i :: 0 <= i < n ==> White(s[i])
    ensures Lex(s) == Lex(s[n..])
  {
    hide Lex, LexTrimmed, White, Blank;
    var k := Blank(s);
    LexAfter(s);
    LexAfter(s[n..]);
    BlankIs(s[n..], k - n);
    assert s[k..] == s[n..][k - n..];
  }

  lemma LexFirst(s: string)
    requires NoNul(s) && s != "" && !White(s[0])
    ensures Lex(s) == [First(s)] + Lex(s[Length(s)..])
  {
    hide Lex, First, Length;
    LexAfter(s);
    BlankIs(s, 0);
    assert s[0..] == s;
  }

  // ---------- A text for symbols ----------

  function Spelled(y: Symbol): (s: string)
  {
    match y
    case Word(text) => text
    case Bar => "|"
    case Open => "("
    case Close => ")"
    case Semi => ";"
    case Amp => "&"
    case Less => "<"
    case Greater => ">"
    case Append => ">>"
  }

  /** The symbols as a text, each followed by white space. */
  function Layout(ts: Symbols, seps: seq<string>): (s: string)
    requires |seps| == |ts|
  {
    if ts == [] then "" else Spelled(ts[0]) + seps[0] + Layout(ts[1..], seps[1..])
  }

  /** Two words, or > and what starts with >, would become one symbol without a space between them. */
  predicate Merges(y: Symbol, z: Symbol)
  {
    (y.Word? && z.Word?) || (y == Greater && (z == Greater || z == Append))
  }

  predicate Spaced(ts: Symbols, seps: seq<string>)
  {
    && |seps| == |ts| && (forall i :: 0 <= i < |seps| ==> Spaces(seps[i]))
    && forall i :: 0 <= i < |ts| - 1 && seps[i] == "" ==> !Merges(ts[i], ts[i + 1])
  }

  predicate GoodSymbols(ts: Symbols)
  {
    forall i :: 0 <= i < |ts| && ts[i].Word? ==> GoodWord(ts[i].text)
  }

  /** The symbol y ends before tail. */
  predicate Ends(y: Symbol, tail: string)
  {
    tail != "" ==> (y.Word? ==> !WordChar(tail[0])) && (y == Greater ==> tail[0] != '>')
  }

  lemma SpelledFirst(y: Symbol, tail: string)
    requires y.Word? ==> GoodWord(y.text)
    requires Ends(y, tail) && NoNul(tail)
    ensures var s := Spelled(y) + tail; NoNul(s) && s != "" && !White(s[0]) && First(s) == y && s[Length(s)..] == tail
  {
    var s := Spelled(y) + tail;
    assert s[|Spelled(y)|..] == tail;
    if y.Word? {
      WordFirst(y.text, tail);
    } else {
      hide Run;
    }
  }

  lemma WordFirst(w: string, tail: string)
    requires GoodWord(w) && Ends(Word(w), tail) && NoNul(tail)
    ensures var s := w + tail;
      NoNul(s) && s != "" && !White(s[0]) && !Special(s[0]) && First(s) == Word(w) && Length(s) == |w|
  {
    var s := w + tail;
    Characters(w);
    hide GoodWord, White, Special, Run;
    assert WordChar(s[0]);
    RunIs(s, |w|);
    assert s[..|w|] == w;
  }

  /** A nonempty run of white space, of any of the five kinds, separates a symbol from what follows. */
  lemma LexSymbol(y: Symbol, sep: string, rest: string)
    requires y.Word? ==> GoodWord(y.text)
    requires Spaces(sep) && NoNul(rest) && (sep == "" ==> Ends(y, rest))
    ensures var s := Spelled(y) + sep + rest; NoNul(s) && Lex(s) == [y] + Lex(rest)
  {
    hide Lex, First, Length, Spelled, GoodWord;
    var tail := sep + rest;
    var s := Spelled(y) + tail;
    assert Spelled(y) + sep + rest == s;
    Characters(sep);
    SpelledFirst(y, tail);
    LexFirst(s);
    assert tail[|sep|..] == rest;
    LexSkip(tail, |sep|);
  }

  lemma LayoutStart(ts: Symbols, seps: seq<string>, y: Symbol)
    requires GoodSymbols(ts) && |seps| == |ts| && (ts != [] ==> !Merges(y, ts[0]))
    ensures Ends(y, Layout(ts, seps))
  {
    if ts != [] {
      var z := ts[0];
      assert z.Word? ==> GoodWord(z.text);
      assert Spelled(z) != "" && Layout(ts, seps)[0] == Spelled(z)[0];
    }
  }

  lemma LexNothing()
    ensures NoNul("") && Lex("") == []
  {
  }

  lemma SpacedParts(ts: Symbols, seps: seq<string>)
    requires GoodSymbols(ts) && Spaced(ts, seps) && ts != []
    ensures GoodSymbols(ts[1..]) && Spaced(ts[1..], seps[1..]) && (ts[0].Word? ==> GoodWord(ts[0].text))
    ensures Spaces(seps[0]) && (seps[0] == "" && |ts| > 1 ==> !Merges(ts[0], ts[1..][0]))
  {
    hide GoodWord, Spaces, Merges;
  }

  /** However symbols are laid out, reading the text gives them back. */
  lemma {:induction false} LexLayout(ts: Symbols, seps: seq<string>)
    requires GoodSymbols(ts) && Spaced(ts, seps)
    ensures NoNul(Layout(ts, seps)) && Lex(Layout(ts, seps)) == ts
  {
    hide Lex, Spelled, GoodWord, NoNul, Spaces, Ends, Merges, GoodSymbols;
    if ts == [] {
      LexNothing();
    } else {
      SpacedParts(ts, seps);
      hide Spaced;
      var us, vs := ts[1..], seps[1..];
      LexLayout(us, vs);
      if seps[0] == "" {
        LayoutStart(us, vs, ts[0]);
      }
      LexSymbol(ts[0], seps[0], Layout(us, vs));
      assert [ts[0]] + us == ts;
    }
  }

  lemma LexAfterBlanks(lead: string, rest: string)
    requires NoNul(rest) && forall i :: 0 <= i < |lead| ==> White(lead[i])
    ensures NoNul(lead + rest) && Lex(lead + rest) == Lex(rest)
  {
    hide Lex;
    assert (lead + rest)[|lead|..] == rest;
    LexSkip(lead + rest, |lead|);
  }

  /** Also after leading white space. */
  lemma LexIndented(lead: string, ts: Symbols, seps: seq<string>)
    requires Spaces(lead) && GoodSymbols(ts) && Spaced(ts, seps)
    ensures NoNul(lead + Layout(ts, seps)) && Lex(lead + Layout(ts, seps)) == ts
  {
    LexLayout(ts, seps);
    Characters(lead);
    LexAfterBlanks(lead, Layout(ts, seps));
    hide Lex, Layout, GoodSymbols, Spaced, White, NoNul;
  }

  // ---------- The words of a tree ----------

  /** Words without special characters, and few enough of them. */
  predicate WellFormed(t: Tree)
  {
    match t
    case Exec(argv) => |argv| < MAXARGS && forall i :: 0 <= i < |argv| ==> GoodWord(argv[i])
    case Redir(c, file, _) => WellFormed(c) && GoodWord(file)
    case Pipe(l, r) => WellFormed(l) && WellFormed(r)
    case List(l, r) => WellFormed(l) && WellFormed(r)
    case Back(c) => WellFormed(c)
  }

  lemma {:induction false} WellFormedSmall(t: Tree)
    requires WellFormed(t)
    ensures Small(t)
  {
    match t
    case Exec(_) =>
    case Redir(c, _, _) => WellFormedSmall(c);
    case Pipe(l, r) => WellFormedSmall(l); WellFormedSmall(r);
    case List(l, r) => WellFormedSmall(l); WellFormedSmall(r);
    case Back(c) => WellFormedSmall(c);
  }

  predicate GoodRedirs(rs: seq<Redirection<string>>)
  {
    forall i :: 0 <= i < |rs| ==> GoodWord(rs[i].file)
  }

  lemma {:induction false} CoreGood(t: Tree)
    requires WellFormed(t)
    ensures WellFormed(Core(t)) && GoodRedirs(Outer(t))
  {
    if t.Redir? {
      CoreGood(t.cmd);
    }
  }

  lemma {:induction false} UnderGood(t: Tree)
    requires WellFormed(t)
    ensures WellFormed(Under(t))
  {
    if t.Back? {
      UnderGood(t.cmd);
    }
  }

  lemma {:induction false} PrintRedirsGood(rs: seq<Redirection<string>>)
    requires GoodRedirs(rs)
    ensures GoodSymbols(PrintRedirs(rs))
  {
    if rs != [] {
      PrintRedirsGood(rs[1..]);
    }
  }

  lemma {:induction false} PrintWordsGood(ws: seq<string>)
    requires forall i :: 0 <= i < |ws| ==> GoodWord(ws[i])
    ensures GoodSymbols(PrintWords(ws))
  {
    if ws != [] {
      PrintWordsGood(ws[1..]);
    }
  }

  lemma {:induction false} PrintItemGood(t: Tree)
    requires WellFormed(t)
    ensures GoodSymbols(PrintItem(t))
    decreases t, if t.Exec? || t.Redir? then 0 else 4
  {
    var core := Core(t);
    CoreGood(t);
    PrintRedirsGood(Outer(t));
    if core.Exec? {
      PrintWordsGood(core.argv);
    } else {
      PrintLineGood(core);
    }
    hide PrintLine, PrintWords, PrintRedirs, GoodWord;
  }

  lemma {:induction false} PrintPipeGood(t: Tree)
    requires WellFormed(t) && !t.List? && !t.Back?
    ensures GoodSymbols(PrintPipe(t))
    decreases t, 1
  {
    if t.Pipe? {
      PrintItemGood(t.left);
      if t.right.List? || t.right.Back? {
        PrintItemGood(t.right);
      } else {
        PrintPipeGood(t.right);
      }
    } else {
      PrintItemGood(t);
    }
    hide PrintItem, GoodWord;
  }

  lemma {:induction false} PrintBackGood(t: Tree)
    requires WellFormed(t) && !t.List?
    ensures GoodSymbols(PrintBack(t))
    decreases t, 2
  {
    var u := Under(t);
    UnderGood(t);
    if u.List? {
      PrintItemGood(u);
    } else {
      PrintPipeGood(u);
    }
    hide PrintItem, PrintPipe, GoodWord;
  }

  lemma {:induction false} PrintLineGood(t: Tree)
    requires WellFormed(t)
    ensures GoodSymbols(PrintLine(t))
    decreases t, 3
  {
    if t.List? {
      PrintLineGood(t.right);
      if t.left.List? {
        PrintItemGood(t.left);
      } else {
        PrintBackGood(t.left);
      }
    } else {
      PrintBackGood(t);
    }
    hide PrintItem, PrintBack, GoodWord;
  }

  /** Parsing the text printed for a tree gives the tree back, however it is laid out. */
  lemma RoundTrip(t: Tree, lead: string, seps: seq<string>)
    requires WellFormed(t) && Spaces(lead) && Spaced(PrintLine(t), seps)
    ensures var s := lead + Layout(PrintLine(t), seps); NoNul(s) && ParseCmd(Lex(s)) == Ok(t, [])
  {
    WellFormedSmall(t);
    PrintLineGood(t);
    LexIndented(lead, PrintLine(t), seps);
    ParsePrint(t);
  }
}
