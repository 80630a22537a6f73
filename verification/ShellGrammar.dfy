/** The shell's grammar over symbols: the parser as functions, and a printer that the parser undoes. */
module ShellGrammar {
  const MAXARGS: nat := 10

  datatype Symbol = Word(text: string) | Bar | Open | Close | Semi | Amp | Less | Greater | Append

  /** A command tree. T is what a token is known by: its text, or where it lies in the line. A redirection opens its
      file for reading on descriptor 0 or, if out, for writing on descriptor 1. */
  datatype Cmd<T> =
    | Exec(argv: seq<T>)
    | Redir(cmd: Cmd<T>, file: T, out: bool)
    | Pipe(left: Cmd<T>, right: Cmd<T>)
    | List(left: Cmd<T>, right: Cmd<T>)
    | Back(cmd: Cmd<T>)

  datatype Redirection<T> = Redirection(file: T, out: bool)

  /** The calls of panic that a line can reach. */
  datatype Error = Syntax | MissingFile | MissingClose | TooManyArgs

  datatype Outcome<T> = Ok(value: T, rest: seq<Symbol>) | Err(error: Error)

  type Tree = Cmd<string>
  type Symbols = seq<Symbol>

  function Wrap<T>(c: Cmd<T>, rs: seq<Redirection<T>>): (r: Cmd<T>)
    decreases |rs|
  {
    if rs == [] then c else Redir(Wrap(c, rs[..|rs| - 1]), rs[|rs| - 1].file, rs[|rs| - 1].out)
  }

  predicate Starts(ts: Symbols, s: Symbol)
  {
    ts != [] && ts[0] == s
  }

  predicate Redirects(s: Symbol)
  {
    s == Less || s == Greater || s == Append
  }

  predicate Stops(s: Symbol)
  {
    s == Bar || s == Close || s == Amp || s == Semi
  }

  // ---------- The parser ----------

  function Redirs(ts: Symbols): (r: Outcome<seq<Redirection<string>>>)
    ensures r.Ok? ==> |r.rest| <= |ts| && (r.rest != [] ==> !Redirects(r.rest[0]))
  {
    if ts != [] && Redirects(ts[0]) then
      if |ts| > 1 && ts[1].Word? then
        var r := Redirs(ts[2..]);
        if r.Ok? then Ok([Redirection(ts[1].text, ts[0] != Less)] + r.value, r.rest) else r
      else Err(MissingFile)
    else Ok([], ts)
  }

  /** The loop of parseexec, after n words. */
  function Args(ts: Symbols, n: nat): (r: Outcome<(seq<string>, seq<Redirection<string>>)>)
    ensures r.Ok? ==> |r.rest| <= |ts| && (r.rest != [] ==> Stops(r.rest[0]))
    decreases |ts|
  {
    if ts == [] || Stops(ts[0]) then Ok(([], []), ts)
    else if !ts[0].Word? then Err(Syntax)
    else if n + 1 >= MAXARGS then Err(TooManyArgs)
    else
      var r := Redirs(ts[1..]);
      if r.Err? then Err(r.error)
      else
        var q := Args(r.rest, n + 1);
        if q.Err? then q else Ok(([ts[0].text] + q.value.0, r.value + q.value.1), q.rest)
  }

  function ParseExec(ts: Symbols): (r: Outcome<Tree>)
    ensures r.Ok? ==> |r.rest| <= |ts|
    decreases |ts|, 1
  {
    if Starts(ts, Open) then ParseBlock(ts)
    else
      var first := Redirs(ts);
      if first.Err? then Err(first.error)
      else
        var r := Args(first.rest, 0);
        if r.Err? then Err(r.error) else Ok(Wrap(Exec(r.value.0), first.value + r.value.1), r.rest)
  }

  function ParseBlock(ts: Symbols): (r: Outcome<Tree>)
    requires Starts(ts, Open)
    ensures r.Ok? ==> |r.rest| < |ts|
    decreases |ts|, 0
  {
    var c := ParseLine(ts[1..]);
    if c.Err? then c
    else if !Starts(c.rest, Close) then Err(MissingClose)
    else
      var r := Redirs(c.rest[1..]);
      if r.Err? then Err(r.error) else Ok(Wrap(c.value, r.value), r.rest)
  }

  function ParsePipe(ts: Symbols): (r: Outcome<Tree>)
    ensures r.Ok? ==> |r.rest| <= |ts|
    decreases |ts|, 2
  {
    var c := ParseExec(ts);
    if c.Err? || !Starts(c.rest, Bar) then c
    else
      var r := ParsePipe(c.rest[1..]);
      if r.Err? then r else Ok(Pipe(c.value, r.value), r.rest)
  }

  function Ampersands(ts: Symbols): (n: nat)
    ensures n <= |ts|
  {
    if Starts(ts, Amp) then 1 + Ampersands(ts[1..]) else 0
  }

  function Backed<T>(c: Cmd<T>, n: nat): (r: Cmd<T>)
    decreases n
  {
    if n == 0 then c else Back(Backed(c, n - 1))
  }

  function ParseLine(ts: Symbols): (r: Outcome<Tree>)
    ensures r.Ok? ==> |r.rest| <= |ts|
    decreases |ts|, 3
  {
    var c := ParsePipe(ts);
    if c.Err? then c
    else
      var n := Ampersands(c.rest);
      var left, rest := Backed(c.value, n), c.rest[n..];
      if !Starts(rest, Semi) then Ok(left, rest)
      else
        var r := ParseLine(rest[1..]);
        if r.Err? then r else Ok(List(left, r.value), r.rest)
  }

  /** parsecmd: the whole line must be taken. */
  function ParseCmd(ts: Symbols): (r: Outcome<Tree>)
  {
    var c := ParseLine(ts);
    if c.Err? then c else if c.rest != [] then Err(Syntax) else c
  }

  // ---------- The printer ----------

  function Core<T>(c: Cmd<T>): (r: Cmd<T>)
    ensures !r.Redir? && (c.Redir? ==> r < c) && (!c.Redir? ==> r == c)
  {
    if c.Redir? then Core(c.cmd) else c
  }

  function Outer<T>(c: Cmd<T>): (r: seq<Redirection<T>>)
    ensures Wrap(Core(c), r) == c
  {
    if c.Redir? then
      var rs := Outer(c.cmd);
      assert (rs + [Redirection(c.file, c.out)])[..|rs|] == rs;
      rs + [Redirection(c.file, c.out)]
    else []
  }

  function PrintRedirs(rs: seq<Redirection<string>>): (r: Symbols)
  {
    if rs == [] then [] else [if rs[0].out then Greater else Less, Word(rs[0].file)] + PrintRedirs(rs[1..])
  }

  function PrintWords(ws: seq<string>): (r: Symbols)
  {
    if ws == [] then [] else [Word(ws[0])] + PrintWords(ws[1..])
  }

  function PrintItem(t: Tree): (r: Symbols)
    decreases t, if t.Exec? || t.Redir? then 0 else 4
  {
    var core := Core(t);
    (if core.Exec? then PrintWords(core.argv) else [Open] + PrintLine(core) + [Close]) + PrintRedirs(Outer(t))
  }

  function PrintPipe(t: Tree): (r: Symbols)
    requires !t.List? && !t.Back?
    decreases t, 1
  {
    if t.Pipe? then PrintItem(t.left) + [Bar] + PrintRight(t.right) else PrintItem(t)
  }

  /** The right end of a pipeline, in parentheses unless it is a pipeline or an item. */
  function PrintRight(t: Tree): (r: Symbols)
    decreases t, 5
  {
    if t.List? || t.Back? then PrintItem(t) else PrintPipe(t)
  }

  function Under<T>(c: Cmd<T>): (r: Cmd<T>)
    ensures !r.Back? && (c.Back? ==> r < c) && (!c.Back? ==> r == c)
  {
    if c.Back? then Under(c.cmd) else c
  }

  function Depth<T>(c: Cmd<T>): (n: nat)
    ensures Backed(Under(c), n) == c
  {
    if c.Back? then 1 + Depth(c.cmd) else 0
  }

  function Amps(n: nat): (r: Symbols)
    ensures |r| == n && forall i :: 0 <= i < n ==> r[i] == Amp
  {
    seq(n, _ => Amp)
  }

  /** A command that may end in ampersands. */
  function PrintBack(t: Tree): (r: Symbols)
    requires !t.List?
    decreases t, 2
  {
    var u := Under(t);
    (if u.List? then PrintItem(u) else PrintPipe(u)) + Amps(Depth(t))
  }

  function PrintLine(t: Tree): (r: Symbols)
    decreases t, 3
  {
    if t.List? then (if t.left.List? then PrintItem(t.left) else PrintBack(t.left)) + [Semi] + PrintLine(t.right)
    else PrintBack(t)
  }

  // ---------- Parsing what was printed ----------

  predicate Small(t: Tree)
  {
    match t
    case Exec(argv) => |argv| < MAXARGS
    case Redir(c, _, _) => Small(c)
    case Pipe(l, r) => Small(l) && Small(r)
    case List(l, r) => Small(l) && Small(r)
    case Back(c) => Small(c)
  }

  predicate Ends(ts: Symbols)
  {
    ts != [] ==> Stops(ts[0])
  }

  // One step of each parsing function, when its parts succeed.

  lemma ArgStep(ts: Symbols, n: nat, a: Outcome<seq<Redirection<string>>>,
                r: Outcome<(seq<string>, seq<Redirection<string>>)>)
    requires ts != [] && ts[0].Word? && n + 1 < MAXARGS && a == Redirs(ts[1..]) && a.Ok? && r == Args(a.rest, n + 1)
    requires r.Ok?
    ensures Args(ts, n) == Ok(([ts[0].text] + r.value.0, a.value + r.value.1), r.rest)
  {
    hide Redirs;
  }

  lemma ExecStep(ts: Symbols, a: Outcome<seq<Redirection<string>>>, r: Outcome<(seq<string>, seq<Redirection<string>>)>)
    requires !Starts(ts, Open) && a == Redirs(ts) && a.Ok? && r == Args(a.rest, 0) && r.Ok?
    ensures ParseExec(ts) == Ok(Wrap(Exec(r.value.0), a.value + r.value.1), r.rest)
  {
    hide Redirs, Args, Wrap;
  }

  lemma BlockStep(ts: Symbols, c: Outcome<Tree>, r: Outcome<seq<Redirection<string>>>)
    requires Starts(ts, Open) && c == ParseLine(ts[1..]) && c.Ok? && Starts(c.rest, Close)
    requires r == Redirs(c.rest[1..]) && r.Ok?
    ensures ParseExec(ts) == Ok(Wrap(c.value, r.value), r.rest)
  {
    hide Redirs, ParseLine, Wrap;
  }

  lemma PipeStep(ts: Symbols, c: Outcome<Tree>, r: Outcome<Tree>)
    requires c == ParseExec(ts) && c.Ok? && Starts(c.rest, Bar) && r == ParsePipe(c.rest[1..]) && r.Ok?
    ensures ParsePipe(ts) == Ok(Pipe(c.value, r.value), r.rest)
  {
    hide ParseExec;
  }

  lemma LineStep(ts: Symbols, c: Outcome<Tree>, n: nat, rest: Symbols)
    requires c == ParsePipe(ts) && c.Ok? && n == Ampersands(c.rest) && rest == c.rest[n..]
    ensures !Starts(rest, Semi) ==> ParseLine(ts) == Ok(Backed(c.value, n), rest)
    ensures Starts(rest, Semi) && ParseLine(rest[1..]).Ok? ==>
      ParseLine(ts) == Ok(List(Backed(c.value, n), ParseLine(rest[1..]).value), ParseLine(rest[1..]).rest)
  {
    hide ParsePipe, Ampersands, Backed;
  }

  lemma {:induction false} RedirsBack(rs: seq<Redirection<string>>, rest: Symbols)
    requires rest != [] ==> !Redirects(rest[0])
    ensures Redirs(PrintRedirs(rs) + rest) == Ok(rs, rest)
  {
    var ts := PrintRedirs(rs) + rest;
    if rs == [] {
      assert ts == rest;
    } else {
      assert ts[2..] == PrintRedirs(rs[1..]) + rest;
      RedirsBack(rs[1..], rest);
      assert [Redirection(rs[0].file, rs[0].out)] + rs[1..] == rs;
    }
  }

  lemma NoRedirs(ts: Symbols)
    requires ts != [] ==> !Redirects(ts[0])
    ensures Redirs(ts) == Ok([], ts)
  {
  }

  lemma {:induction false} FirstWord(ws: seq<string>, tail: Symbols)
    requires ws != []
    ensures var ts := PrintWords(ws) + tail; ts[0] == Word(ws[0]) && ts[1..] == PrintWords(ws[1..]) + tail
  {
    var more := PrintWords(ws[1..]);
    assert PrintWords(ws) == [Word(ws[0])] + more;
    hide PrintWords;
    assert ([Word(ws[0])] + more + tail)[1..] == more + tail;
  }

  lemma NoArgs(ts: Symbols, n: nat)
    requires Ends(ts)
    ensures Args(ts, n) == Ok(([], []), ts)
  {
  }

  lemma {:induction false} ArgsBack(ws: seq<string>, rs: seq<Redirection<string>>, rest: Symbols, n: nat)
    requires ws != [] && n + |ws| < MAXARGS && Ends(rest)
    ensures Args(PrintWords(ws) + (PrintRedirs(rs) + rest), n) == Ok((ws, rs), rest)
    decreases |ws|
  {
    hide Args, Redirs;
    var tail := PrintRedirs(rs) + rest;
    var ts, more := PrintWords(ws) + tail, PrintWords(ws[1..]) + tail;
    FirstWord(ws, tail);
    assert [ws[0]] + ws[1..] == ws && rs + [] == rs && [] + rs == rs;
    if |ws| == 1 {
      assert more == tail;
      RedirsBack(rs, rest);
      NoArgs(rest, n + 1);
      ArgStep(ts, n, Ok(rs, rest), Ok(([], []), rest));
    } else {
      FirstWord(ws[1..], tail);
      NoRedirs(more);
      ArgsBack(ws[1..], rs, rest, n + 1);
      ArgStep(ts, n, Ok([], more), Ok((ws[1..], rs), rest));
    }
  }

  lemma RedirsFirst(rs: seq<Redirection<string>>, rest: Symbols)
    requires Ends(rest)
    ensures !Starts(PrintRedirs(rs) + rest, Open)
  {
  }

  lemma ExecBack(ws: seq<string>, rs: seq<Redirection<string>>, rest: Symbols)
    requires |ws| < MAXARGS && Ends(rest)
    ensures ParseExec(PrintWords(ws) + (PrintRedirs(rs) + rest)) == Ok(Wrap(Exec(ws), rs), rest)
  {
    hide Args, Redirs, ParseExec, Wrap;
    var tail := PrintRedirs(rs) + rest;
    var ts := PrintWords(ws) + tail;
    if ws == [] {
      assert ts == tail && rs + [] == rs;
      RedirsFirst(rs, rest);
      RedirsBack(rs, rest);
      NoArgs(rest, 0);
      ExecStep(ts, Ok(rs, rest), Ok(([], []), rest));
    } else {
      FirstWord(ws, tail);
      NoRedirs(ts);
      ArgsBack(ws, rs, rest, 0);
      assert [] + rs == rs;
      ExecStep(ts, Ok([], ts), Ok((ws, rs), rest));
    }
  }

  lemma {:induction false} SmallCore(t: Tree)
    requires Small(t)
    ensures Small(Core(t))
  {
    if t.Redir? {
      SmallCore(t.cmd);
    }
  }

  lemma {:induction false} SmallUnder(t: Tree)
    requires Small(t)
    ensures Small(Under(t))
  {
    if t.Back? {
      SmallUnder(t.cmd);
    }
  }

  lemma {:induction false} ItemBack(t: Tree, rest: Symbols)
    requires Small(t) && Ends(rest)
    ensures ParseExec(PrintItem(t) + rest) == Ok(t, rest)
    decreases t, if t.Exec? || t.Redir? then 0 else 4
  {
    hide ParseExec, ParseLine, Redirs, Wrap, PrintLine, PrintWords, PrintRedirs;
    var core, rs := Core(t), Outer(t);
    var tail := PrintRedirs(rs) + rest;
    SmallCore(t);
    if core.Exec? {
      assert PrintItem(t) + rest == PrintWords(core.argv) + tail;
      ExecBack(core.argv, rs, rest);
    } else {
      var after := [Close] + tail;
      var ts := PrintItem(t) + rest;
      assert ts == [Open] + PrintLine(core) + after;
      assert ts[1..] == PrintLine(core) + after;
      LineBack(core, after);
      RedirsBack(rs, rest);
      assert after[1..] == tail;
      BlockStep(ts, Ok(core, after), Ok(rs, rest));
    }
  }

  lemma PipeIsItem(ts: Symbols)
    requires ParseExec(ts).Ok? && !Starts(ParseExec(ts).rest, Bar)
    ensures ParsePipe(ts) == ParseExec(ts)
  {
  }

  lemma {:induction false} PipeBack(t: Tree, rest: Symbols)
    requires Small(t) && !t.List? && !t.Back? && Ends(rest) && !Starts(rest, Bar)
    ensures ParsePipe(PrintPipe(t) + rest) == Ok(t, rest)
    decreases t, 1
  {
    hide ParseExec, ParsePipe, PrintItem, PrintRight;
    var ts := PrintPipe(t) + rest;
    if t.Pipe? {
      var after := [Bar] + PrintRight(t.right) + rest;
      assert ts == PrintItem(t.left) + after;
      ItemBack(t.left, after);
      assert after[1..] == PrintRight(t.right) + rest;
      RightBack(t.right, rest);
      PipeStep(ts, Ok(t.left, after), Ok(t.right, rest));
    } else {
      ItemBack(t, rest);
      PipeIsItem(ts);
    }
  }

  lemma {:induction false} RightBack(t: Tree, rest: Symbols)
    requires Small(t) && Ends(rest) && !Starts(rest, Bar)
    ensures ParsePipe(PrintRight(t) + rest) == Ok(t, rest)
    decreases t, 5
  {
    hide ParseExec, ParsePipe, PrintItem, PrintPipe;
    if t.List? || t.Back? {
      ItemBack(t, rest);
      PipeIsItem(PrintItem(t) + rest);
    } else {
      PipeBack(t, rest);
    }
  }

  lemma {:induction false} AmpsBack(n: nat, rest: Symbols)
    requires !Starts(rest, Amp)
    ensures Ampersands(Amps(n) + rest) == n && (Amps(n) + rest)[n..] == rest
  {
    if n > 0 {
      assert (Amps(n) + rest)[1..] == Amps(n - 1) + rest;
      AmpsBack(n - 1, rest);
    } else {
      assert Amps(n) + rest == rest;
    }
  }

  predicate EndsLine(ts: Symbols)
  {
    ts != [] ==> ts[0] == Close || ts[0] == Semi
  }

  /** What precedes a semicolon or the end of the line. */
  lemma {:induction false} LeftBack(t: Tree, rest: Symbols)
    requires Small(t) && EndsLine(rest) && !t.List?
    ensures ParsePipe(PrintBack(t) + rest) == Ok(Under(t), Amps(Depth(t)) + rest)
    decreases t, 2
  {
    hide ParseExec, ParsePipe, PrintItem, PrintPipe;
    var u, after := Under(t), Amps(Depth(t)) + rest;
    SmallUnder(t);
    if u.List? {
      assert PrintBack(t) + rest == PrintItem(u) + after;
      ItemBack(u, after);
      PipeIsItem(PrintItem(u) + after);
    } else {
      assert PrintBack(t) + rest == PrintPipe(u) + after;
      PipeBack(u, after);
    }
  }

  /** The first command of a line that is no list, with its ampersands. */
  lemma {:induction false} BackStep(t: Tree, rest: Symbols)
    requires Small(t) && EndsLine(rest) && !t.List?
    ensures !Starts(rest, Semi) ==> ParseLine(PrintBack(t) + rest) == Ok(t, rest)
    ensures Starts(rest, Semi) && ParseLine(rest[1..]).Ok? ==>
      ParseLine(PrintBack(t) + rest) == Ok(List(t, ParseLine(rest[1..]).value), ParseLine(rest[1..]).rest)
    decreases t, 3, 0
  {
    LeftBack(t, rest);
    hide ParseLine, ParsePipe, PrintBack, Ampersands, Small;
    AmpsBack(Depth(t), rest);
    LineStep(PrintBack(t) + rest, Ok(Under(t), Amps(Depth(t)) + rest), Depth(t), rest);
  }

  /** A list in parentheses as the first command of a line. */
  lemma {:induction false} ItemStep(t: Tree, rest: Symbols)
    requires Small(t) && t.List? && Starts(rest, Semi) && ParseLine(rest[1..]).Ok?
    ensures ParseLine(PrintItem(t) + rest) == Ok(List(t, ParseLine(rest[1..]).value), ParseLine(rest[1..]).rest)
    decreases t, 5
  {
    ItemBack(t, rest);
    hide ParseExec, ParseLine, PrintItem, Small;
    PipeIsItem(PrintItem(t) + rest);
    AmpsBack(0, rest);
    assert Amps(0) + rest == rest;
    hide ParsePipe, Ampersands;
    LineStep(PrintItem(t) + rest, Ok(t, rest), 0, rest);
  }

  lemma {:induction false} LineBack(t: Tree, rest: Symbols)
    requires Small(t) && EndsLine(rest) && !Starts(rest, Semi)
    ensures ParseLine(PrintLine(t) + rest) == Ok(t, rest)
    decreases t, 3, 1
  {
    hide ParseLine, PrintItem, PrintBack;
    if t.List? {
      var left, after := t.left, [Semi] + PrintLine(t.right) + rest;
      assert after[1..] == PrintLine(t.right) + rest;
      LineBack(t.right, rest);
      if left.List? {
        assert PrintLine(t) + rest == PrintItem(left) + after;
        ItemStep(left, after);
      } else {
        assert PrintLine(t) + rest == PrintBack(left) + after;
        BackStep(left, after);
      }
    } else {
      BackStep(t, rest);
    }
  }

  /** Parsing undoes printing, for every tree whose commands have fewer than MAXARGS words. */
  lemma ParsePrint(t: Tree)
    requires Small(t)
    ensures ParseCmd(PrintLine(t)) == Ok(t, [])
  {
    LineBack(t, []);
    assert PrintLine(t) + [] == PrintLine(t);
  }

  // ---------- The trees the parser builds ----------

  lemma {:induction false} ArgsFew(ts: Symbols, n: nat)
    requires n < MAXARGS && Args(ts, n).Ok?
    ensures n + |Args(ts, n).value.0| < MAXARGS
    decreases |ts|
  {
    hide Redirs;
    if ts != [] && !Stops(ts[0]) {
      ArgsFew(Redirs(ts[1..]).rest, n + 1);
    }
  }

  lemma {:induction false} WrapSmall(c: Tree, rs: seq<Redirection<string>>)
    requires Small(c)
    ensures Small(Wrap(c, rs))
    decreases |rs|
  {
    if rs != [] {
      WrapSmall(c, rs[..|rs| - 1]);
    }
  }

  lemma {:induction false} BackedSmall(c: Tree, n: nat)
    requires Small(c)
    ensures Small(Backed(c, n))
  {
    if n > 0 {
      BackedSmall(c, n - 1);
    }
  }

  lemma {:induction false} ExecSmall(ts: Symbols)
    requires ParseExec(ts).Ok?
    ensures Small(ParseExec(ts).value)
    decreases |ts|, 1
  {
    hide Redirs, Args, Wrap, ParseLine;
    if Starts(ts, Open) {
      var c := ParseLine(ts[1..]);
      LineSmall(ts[1..]);
      WrapSmall(c.value, Redirs(c.rest[1..]).value);
    } else {
      var first := Redirs(ts);
      var r := Args(first.rest, 0);
      ArgsFew(first.rest, 0);
      WrapSmall(Exec(r.value.0), first.value + r.value.1);
    }
  }

  lemma {:induction false} PipeSmall(ts: Symbols)
    requires ParsePipe(ts).Ok?
    ensures Small(ParsePipe(ts).value)
    decreases |ts|, 2
  {
    hide ParseExec;
    var c := ParseExec(ts);
    ExecSmall(ts);
    if Starts(c.rest, Bar) {
      PipeSmall(c.rest[1..]);
    }
  }

  lemma {:induction false} LineSmall(ts: Symbols)
    requires ParseLine(ts).Ok?
    ensures Small(ParseLine(ts).value)
    decreases |ts|, 3
  {
    hide ParsePipe, Backed, Ampersands;
    var c := ParsePipe(ts);
    PipeSmall(ts);
    var n := Ampersands(c.rest);
    BackedSmall(c.value, n);
    var rest := c.rest[n..];
    if Starts(rest, Semi) {
      LineSmall(rest[1..]);
    }
  }

  /** The trees that some line parses to are exactly those whose commands have fewer than MAXARGS words. */
  lemma Buildable(t: Tree)
    ensures (exists ts :: ParseCmd(ts) == Ok(t, [])) <==> Small(t)
  {
    if ts :| ParseCmd(ts) == Ok(t, []) {
      LineSmall(ts);
    }
    if Small(t) {
      ParsePrint(t);
    }
  }
}
