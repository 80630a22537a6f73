/** The pattern matcher of grep: the search is sound and complete for a language of patterns defined without it. */
module Regex {
  // Text and patterns are the characters before the terminating NUL.

  // ---------- The language of a pattern ----------

  /** One pattern element: a character, or a starred character. A '.' stands for any character in both. */
  datatype Item = One(c: char) | Star(c: char)

  predicate Accepts(c: char, x: char)
  {
    c == '.' || c == x
  }

  /** The elements of a pattern without its leading '^'. A star makes the character before it starred, whatever that
      character is; a '$' that ends the pattern is an anchor; every other character stands for itself. */
  function Items(re: string): (r: seq<Item>)
  {
    if re == "" then []
    else if |re| > 1 && re[1] == '*' then [Star(re[0])] + Items(re[2..])
    else if re == "$" then []
    else [One(re[0])] + Items(re[1..])
  }

  /** The pattern ends with an anchor. */
  predicate Anchored(re: string)
  {
    if re == "" then false
    else if |re| > 1 && re[1] == '*' then Anchored(re[2..])
    else if re == "$" then true
    else Anchored(re[1..])
  }

  predicate Fits(item: Item, w: string)
  {
    match item
    case One(c) => |w| == 1 && Accepts(c, w[0])
    case Star(c) => forall k :: 0 <= k < |w| ==> Accepts(c, w[k])
  }

  function Joined(parts: seq<string>): (w: string)
  {
    if parts == [] then "" else parts[0] + Joined(parts[1..])
  }

  predicate Splits(items: seq<Item>, w: string, parts: seq<string>)
  {
    |parts| == |items| && Joined(parts) == w && forall k :: 0 <= k < |items| ==> Fits(items[k], parts[k])
  }

  /** w is one piece per element, each fitting its element. */
  ghost predicate InLanguage(items: seq<Item>, w: string)
  {
    exists parts :: Splits(items, w, parts)
  }

  /** The prefix of length j of the text is in the language of re, at the text's end if re is anchored. */
  ghost predicate PrefixMatch(re: string, text: string, j: nat)
  {
    j <= |text| && (Anchored(re) ==> j == |text|) && InLanguage(Items(re), text[..j])
  }

  ghost predicate SomePrefix(re: string, text: string)
  {
    exists j: nat :: PrefixMatch(re, text, j)
  }

  /** A leading '^' ties the match to the start of the text. */
  predicate Tied(re: string)
  {
    re != "" && re[0] == '^'
  }

  function Body(re: string): (r: string)
  {
    if Tied(re) then re[1..] else re
  }

  ghost predicate SubstringMatch(re: string, text: string, i: nat, j: nat)
  {
    && i <= j <= |text| && (Tied(re) ==> i == 0) && (Anchored(Body(re)) ==> j == |text|)
    && InLanguage(Items(Body(re)), text[i..j])
  }

  ghost predicate SomeSubstring(re: string, text: string)
  {
    exists i: nat, j: nat :: SubstringMatch(re, text, i, j)
  }

  // ---------- How the language unfolds ----------

  lemma Unsplit(items: seq<Item>, w: string, parts: seq<string>)
    requires items != [] && Splits(items, w, parts)
    ensures |parts[0]| <= |w| && parts[0] == w[..|parts[0]|] && Splits(items[1..], w[|parts[0]|..], parts[1..])
  {
  }

  lemma Resplit(items: seq<Item>, w: string, n: nat, parts: seq<string>)
    requires items != [] && n <= |w| && Fits(items[0], w[..n]) && Splits(items[1..], w[n..], parts)
    ensures Splits(items, w, [w[..n]] + parts)
  {
    assert ([w[..n]] + parts)[1..] == parts;
    assert w == w[..n] + w[n..];
  }

  /** The first element takes some prefix and the rest takes what follows. */
  lemma FirstTakes(items: seq<Item>, w: string)
    requires items != []
    ensures InLanguage(items, w) <==>
      exists n: nat :: n <= |w| && Fits(items[0], w[..n]) && InLanguage(items[1..], w[n..])
  {
    if InLanguage(items, w) {
      var parts :| Splits(items, w, parts);
      Unsplit(items, w, parts);
    }
    if n: nat :| n <= |w| && Fits(items[0], w[..n]) && InLanguage(items[1..], w[n..]) {
      var parts :| Splits(items[1..], w[n..], parts);
      Resplit(items, w, n, parts);
    }
  }

  lemma NothingFits(w: string)
    ensures InLanguage([], w) <==> w == ""
  {
    assert w == "" ==> Splits([], w, []);
  }

  /** Of the prefixes of a text: the first element takes n characters and the rest of the pattern matches after them. */
  lemma PrefixAfter(re: string, rest: string, text: string, j: nat, n: nat)
    requires Items(re) != [] && Items(rest) == Items(re)[1..] && Anchored(re) == Anchored(rest)
    requires n <= j <= |text|
    ensures Fits(Items(re)[0], text[..n]) && PrefixMatch(rest, text[n..], j - n) ==> PrefixMatch(re, text, j)
  {
    assert text[..j][..n] == text[..n] && text[..j][n..] == text[n..][..j - n];
    FirstTakes(Items(re), text[..j]);
  }

  lemma PrefixBefore(re: string, rest: string, text: string, j: nat) returns (n: nat)
    requires Items(re) != [] && Items(rest) == Items(re)[1..] && Anchored(re) == Anchored(rest)
    requires PrefixMatch(re, text, j)
    ensures n <= j <= |text| && Fits(Items(re)[0], text[..n]) && PrefixMatch(rest, text[n..], j - n)
  {
    var w := text[..j];
    FirstTakes(Items(re), w);
    n :| n <= |w| && Fits(Items(re)[0], w[..n]) && InLanguage(Items(re)[1..], w[n..]);
    assert w[..n] == text[..n] && w[n..] == text[n..][..j - n];
  }

  /** c*rest matches a prefix iff rest matches one after some run of characters that c accepts. */
  ghost predicate AfterRun(c: char, rest: string, text: string, n: nat)
  {
    n <= |text| && Fits(Star(c), text[..n]) && SomePrefix(rest, text[n..])
  }

  ghost predicate SomeRun(c: char, rest: string, text: string)
  {
    exists n: nat :: AfterRun(c, rest, text, n)
  }

  lemma StarUnfolds(c: char, rest: string, text: string)
    ensures SomePrefix([c, '*'] + rest, text) <==> SomeRun(c, rest, text)
  {
    var re := [c, '*'] + rest;
    assert re[2..] == rest;
    assert Items(re) == [Star(c)] + Items(rest);
    if SomePrefix(re, text) {
      var j: nat :| PrefixMatch(re, text, j);
      var n := PrefixBefore(re, rest, text, j);
      assert AfterRun(c, rest, text, n);
    }
    if n: nat :| AfterRun(c, rest, text, n) {
      var j: nat :| PrefixMatch(rest, text[n..], j);
      PrefixAfter(re, rest, text, n + j, n);
    }
  }

  /** A character that is neither starred nor an anchor matches one character. */
  lemma OneUnfolds(re: string, text: string)
    requires re != "" && re != "$" && !(|re| > 1 && re[1] == '*')
    ensures SomePrefix(re, text) <==> text != "" && Accepts(re[0], text[0]) && SomePrefix(re[1..], text[1..])
  {
    var rest := re[1..];
    assert Items(re) == [One(re[0])] + Items(rest);
    if SomePrefix(re, text) {
      var j: nat :| PrefixMatch(re, text, j);
      var n := PrefixBefore(re, rest, text, j);
      assert n == 1;
      assert text[..n][0] == text[0];
    }
    if text != "" && Accepts(re[0], text[0]) && SomePrefix(rest, text[1..]) {
      var j: nat :| PrefixMatch(rest, text[1..], j);
      PrefixAfter(re, rest, text, 1 + j, 1);
    }
  }

  lemma EndUnfolds(text: string)
    ensures SomePrefix("", text)
    ensures SomePrefix("$", text) <==> text == ""
  {
    NothingFits(text[..0]);
    assert PrefixMatch("", text, 0);
    NothingFits(text);
    assert text[..|text|] == text;
    assert text == "" ==> PrefixMatch("$", text, 0);
  }

  // ---------- The matcher ----------

  /** matchhere. */
  method MatchHere(re: string, text: string) returns (r: bool)
    ensures r <==> SomePrefix(re, text)
    decreases |re|
  {
    EndUnfolds(text);
    if re == "" {
      return true;
    }
    if |re| > 1 && re[1] == '*' {
      assert re == [re[0], '*'] + re[2..];
      StarUnfolds(re[0], re[2..], text);
      r := MatchStar(re[0], re[2..], text);
      return;
    }
    if re == "$" {
      return text == "";
    }
    OneUnfolds(re, text);
    if text != "" && (re[0] == '.' || re[0] == text[0]) {
      r := MatchHere(re[1..], text[1..]);
      return;
    }
    return false;
  }

  /** matchstar: tries the rest of the pattern after each run of accepted characters, the shortest first. */
  method MatchStar(c: char, re: string, text: string) returns (r: bool)
    ensures r <==> SomeRun(c, re, text)
    decreases |re| + 1
  {
    var n := 0;
    while true
      invariant n <= |text| && Fits(Star(c), text[..n])
      invariant forall m: nat :: m < n ==> !AfterRun(c, re, text, m)
      decreases |text| - n
    {
      r := MatchHere(re, text[n..]);
      if r {
        assert AfterRun(c, re, text, n);
        return;
      }
      if !(n < |text| && (text[n] == c || c == '.')) {
        break;
      }
      n := n + 1;
    }
    forall m: nat
      ensures !AfterRun(c, re, text, m)
    {
      assert n < m <= |text| ==> text[..m][n] == text[n];
    }
  }

  lemma TiedMatch(re: string, text: string)
    requires Tied(re)
    ensures SomeSubstring(re, text) <==> SomePrefix(re[1..], text)
  {
    if i: nat, j: nat :| SubstringMatch(re, text, i, j) {
      assert text[i..j] == text[..j];
      assert PrefixMatch(re[1..], text, j);
    }
    if j: nat :| PrefixMatch(re[1..], text, j) {
      assert text[0..j] == text[..j];
      assert SubstringMatch(re, text, 0, j);
    }
  }

  lemma FreeMatch(re: string, text: string, i: nat, j: nat)
    requires !Tied(re) && i <= |text|
    ensures SubstringMatch(re, text, i, j) ==> PrefixMatch(re, text[i..], j - i)
    ensures PrefixMatch(re, text[i..], j) ==> SubstringMatch(re, text, i, i + j)
  {
    if i <= j <= |text| {
      assert text[i..j] == text[i..][..j - i];
    }
    if j <= |text| - i {
      assert text[i..i + j] == text[i..][..j];
    }
  }

  /** match: true exactly when some substring is in the language of the pattern, at the start of the text after a
      leading '^' and at its end before a final '$'. */
  method Match(re: string, text: string) returns (r: bool)
    ensures r <==> SomeSubstring(re, text)
  {
    if Tied(re) {
      TiedMatch(re, text);
      r := MatchHere(re[1..], text);
      return;
    }
    var i := 0;
    while true
      invariant i <= |text|
      invariant forall x: nat, j: nat :: x < i ==> !SubstringMatch(re, text, x, j)
      decreases |text| - i
    {
      r := MatchHere(re, text[i..]);
      forall j: nat
        ensures SubstringMatch(re, text, i, j) ==> r
      {
        FreeMatch(re, text, i, j);
      }
      if r {
        ghost var j: nat :| PrefixMatch(re, text[i..], j);
        FreeMatch(re, text, i, j);
        return;
      }
      if i == |text| {
        break;
      }
      i := i + 1;
    }
  }
}
