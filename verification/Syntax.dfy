// What the reader makes of a text, what the printer makes of an expression, and the
// theorem that the one undoes the other.
module Syntax {
  import opened Sexprs

  const MAX_LONG: nat := 0x7FFF_FFFF_FFFF_FFFF

  predicate Delimiter(c: char) { c == ' ' || c == '\t' || c == '\n' || c == '(' || c == ')' }

  predicate Blank(c: char) { c == ' ' || c == '\t' || c == '\n' }

  predicate Digit(c: char) { '0' <= c <= '9' }

  // The outcomes of reading. The reader never leaves a comment that the text ends in.
  datatype Outcome = Got(expr: Sexpr, rest: string) | Eof | Failed | Hangs
  datatype Skip = At(rest: string) | Forever

  function AfterComment(s: string): (r: Skip)
    ensures r.At? ==> |r.rest| < |s|
  {
    if s == "" then Forever else if s[0] == '\n' then At(s[1..]) else AfterComment(s[1..])
  }

  function SkipBlanks(s: string): (r: Skip)
    ensures r.At? ==> |r.rest| <= |s| && (r.rest == "" || (!Blank(r.rest[0]) && r.rest[0] != ';'))
    decreases |s|
  {
    if s == "" then At(s)
    else if Blank(s[0]) then SkipBlanks(s[1..])
    else if s[0] != ';' then At(s)
    else match AfterComment(s[1..]) case At(t) => SkipBlanks(t) case Forever => Forever
  }

  // A comment is never left exactly if no newline ends it.
  lemma {:induction false} CommentHangs(s: string)
    ensures AfterComment(s) == Forever <==> '\n' !in s
  {
    if s != "" && s[0] != '\n' {
      CommentHangs(s[1..]);
      assert s == [s[0]] + s[1..];
    }
  }

  // A comment starts at k and no newline follows.
  predicate OpenAt(s: string, k: nat) { k < |s| && s[k] == ';' && '\n' !in s[k..] }

  // Skipping hangs exactly if such a comment comes after nothing but blanks and
  // complete comments.
  lemma {:induction false} SkipHangs(s: string)
    ensures SkipBlanks(s) == Forever <==> exists k: nat :: OpenAt(s, k) && SkipBlanks(s[..k]) == At("")
    decreases |s|
  {
    if s != "" && Blank(s[0]) {
      SkipHangs(s[1..]);
      SkipLater(s, 1);
    } else if s != "" && s[0] == ';' {
      CommentHangs(s[1..]);
      if '\n' !in s[1..] {
        assert s == [s[0]] + s[1..] && OpenAt(s, 0) && s[..0] == "";
      } else {
        var m := FirstNewline(s[1..]);
        assert s[1..m + 1] == s[1..][..m];
        SkipHangs(s[m + 2..]);
        SkipLater(s, m + 2);
      }
    } else if s != "" {
      forall k: nat | OpenAt(s, k) ensures SkipBlanks(s[..k]) != At("") { assert s[..k][0] == s[0]; }
    }
  }

  lemma {:induction false} FirstNewline(s: string) returns (m: nat)
    requires '\n' in s
    ensures m < |s| && s[m] == '\n' && '\n' !in s[..m]
  {
    if s[0] == '\n' {
      m := 0;
    } else {
      assert s == [s[0]] + s[1..];
      var k := FirstNewline(s[1..]);
      m := k + 1;
      assert s[..m] == [s[0]] + s[1..][..k];
    }
  }

  lemma {:induction false} CommentEnds(s: string, m: nat)
    requires m < |s| && s[m] == '\n' && '\n' !in s[..m]
    ensures AfterComment(s) == At(s[m + 1..])
  {
    if m > 0 {
      assert s[..m][0] == s[0] && s[..m] == [s[0]] + s[1..][..m - 1];
      CommentEnds(s[1..], m - 1);
      assert s[1..][m..] == s[m + 1..];
    }
  }

  // The first n characters of s are a blank, or a comment and the newline that ends it.
  predicate Skipped(s: string, n: nat) {
    && 0 < n <= |s|
    && if Blank(s[0]) then n == 1 else s[0] == ';' && n > 1 && s[n - 1] == '\n' && '\n' !in s[1..n - 1]
  }

  lemma SkippedRest(s: string, n: nat)
    requires Skipped(s, n)
    ensures SkipBlanks(s) == SkipBlanks(s[n..])
  {
    if s[0] == ';' {
      assert s[1..][..n - 2] == s[1..n - 1] && s[1..][n - 1..] == s[n..];
      CommentEnds(s[1..], n - 2);
    }
  }

  // They are skipped whatever part of the rest is looked at.
  lemma SkipLater(s: string, n: nat)
    requires Skipped(s, n)
    ensures SkipBlanks(s) == SkipBlanks(s[n..])
    ensures (exists k: nat :: OpenAt(s, k) && SkipBlanks(s[..k]) == At(""))
            <==> exists k: nat :: OpenAt(s[n..], k) && SkipBlanks(s[n..][..k]) == At("")
  {
    SkippedRest(s, n);
    forall k: nat | n <= k <= |s| ensures SkipBlanks(s[..k]) == SkipBlanks(s[n..][..k - n]) { SkippedPart(s, n, k); }
    forall k: nat | k < n ensures !OpenAt(s, k) { assert k < n - 1 ==> s[k..][n - 1 - k] == s[n - 1]; }
    if k: nat :| OpenAt(s, k) && SkipBlanks(s[..k]) == At("") {
      assert s[n..][k - n..] == s[k..] && s[n..][k - n] == s[k];
      assert OpenAt(s[n..], k - n);
    }
    if k: nat :| OpenAt(s[n..], k) && SkipBlanks(s[n..][..k]) == At("") {
      assert s[n..][k..] == s[n + k..];
      assert OpenAt(s, n + k);
    }
  }

  lemma SkippedPart(s: string, n: nat, k: nat)
    requires Skipped(s, n) && n <= k <= |s|
    ensures SkipBlanks(s[..k]) == SkipBlanks(s[n..][..k - n])
  {
    if n > 1 { assert s[..k][1..n - 1] == s[1..n - 1]; }
    SkippedRest(s[..k], n);
    assert s[..k][n..] == s[n..][..k - n];
  }

  // No comment is left open by the text: in particular a text that ends with a newline,
  // or that has no semicolon, has none.
  ghost predicate Closed(s: string) { forall k: nat :: !OpenAt(s, k) }

  lemma ClosedTexts(s: string)
    requires ';' !in s || s[|s| - 1] == '\n'
    ensures Closed(s)
  {
    forall k: nat ensures !OpenAt(s, k) {
      if k < |s| { assert s[k..][|s| - 1 - k] == s[|s| - 1]; }
    }
  }

  lemma ClosedRest(s: string, n: nat)
    requires Closed(s) && n <= |s|
    ensures Closed(s[n..])
  {
    forall k: nat ensures !OpenAt(s[n..], k) {
      if k < |s| - n { assert s[n..][k..] == s[n + k..] && !OpenAt(s, n + k); }
    }
  }

  lemma {:induction false} SkipClosed(s: string)
    requires Closed(s)
    ensures SkipBlanks(s).At? && Closed(SkipBlanks(s).rest)
    decreases |s|
  {
    if s != "" && Blank(s[0]) {
      ClosedRest(s, 1);
      SkipClosed(s[1..]);
    } else if s != "" && s[0] == ';' {
      assert !OpenAt(s, 0) && s == [s[0]] + s[1..] && s[0..] == s;
      var m := FirstNewline(s[1..]);
      assert s[1..m + 1] == s[1..][..m];
      SkippedRest(s, m + 2);
      ClosedRest(s, m + 2);
      SkipClosed(s[m + 2..]);
    }
  }

  // The length of the text before the next delimiter.
  function Token(s: string): (n: nat)
    ensures n <= |s| && (forall i :: 0 <= i < n ==> !Delimiter(s[i])) && (n < |s| ==> Delimiter(s[n]))
  {
    if s == "" || Delimiter(s[0]) then 0 else 1 + Token(s[1..])
  }

  // Underscores in numbers are ignored.
  function Strip(t: string): string {
    if t == "" then "" else Strip(t[..|t| - 1]) + if t[|t| - 1] == '_' then "" else [t[|t| - 1]]
  }

  function Val(t: string): nat {
    if t == "" then 0 else 10 * Val(t[..|t| - 1]) + if Digit(t[|t| - 1]) then (t[|t| - 1] as int) - ('0' as int) else 0
  }

  predicate Digits(t: string) { forall i :: 0 <= i < |t| ==> Digit(t[i]) || t[i] == '_' }

  lemma Snoc(t: string, c: char)
    ensures Strip(t + [c]) == Strip(t) + if c == '_' then "" else [c]
    ensures Digits(t + [c]) <==> Digits(t) && (Digit(c) || c == '_')
  {
    assert (t + [c])[..|t|] == t;
    if Digits(t + [c]) {
      forall i | 0 <= i < |t| ensures Digit(t[i]) || t[i] == '_' { assert (t + [c])[i] == t[i]; }
      assert (t + [c])[|t|] == c;
    }
  }

  predicate PointAt(t: string, k: nat) { k < |t| && t[k] == '.' && Digits(t[..k]) && Digits(t[k + 1..]) }

  predicate Fraction(t: string) { exists k: nat | k < |t| :: PointAt(t, k) }

  function NumberOf(t: string, rest: string): Outcome {
    if Digits(t) then Got(Int(if Val(Strip(t)) <= MAX_LONG then Val(Strip(t)) else MAX_LONG), rest)
    else if Fraction(t) then Got(Real(Strip(t)), rest)
    else Failed
  }

  function Number(s: string): Outcome { NumberOf(s[..Token(s)], s[Token(s)..]) }

  function CharOf(t: string, rest: string): Outcome {
    if |t| == 1 then Got(Char(t[0]), rest)
    else if t == "tab" then Got(Char('\t'), rest)
    else if t == "newline" then Got(Char('\n'), rest)
    else Failed
  }

  function Character(s: string): Outcome { CharOf(s[..Token(s)], s[Token(s)..]) }

  function SymbolOf(t: string, rest: string): Outcome {
    if t == "" || '\'' in t[1..] || '\\' in t[1..] then Failed else Got(Sym(t), rest)
  }

  function ParseString(s: string, done: string): (r: Outcome)
    ensures r != Hangs && (r.Got? ==> |r.rest| < |s|)
    decreases |s|
  {
    if s == "" then Failed else if s[0] == '"' then Got(Str(done), s[1..]) else ParseString(s[1..], done + [s[0]])
  }

  // Numbers, characters, strings and symbols.
  function Atom(t: string): (r: Outcome)
    requires t != ""
    ensures r != Hangs && (r.Got? ==> |r.rest| < |t|)
  {
    var c, n := t[0], Token(t);
    if c == '.' || Digit(c) then Number(t)
    else if c == '\\' then Character(t[1..])
    else if c == '"' then ParseString(t[1..], "")
    else SymbolOf(t[..n], t[n..])
  }

  function Parse(s: string): (r: Outcome)
    ensures r.Got? ==> |r.rest| < |s|
    decreases |s|, 1
  {
    match SkipBlanks(s)
    case Forever => Hangs
    case At(t) => if t == "" then Eof else Dispatch(t)
  }

  // Reading from a character that is not blank.
  function Dispatch(t: string): (r: Outcome)
    requires t != ""
    ensures r.Got? ==> |r.rest| < |t|
    decreases |t|, 0
  {
    var c := t[0];
    if c == '(' then ParseItems(t[1..], [])
    else if c == ')' then Failed
    else if c == '\'' then (
      match Parse(t[1..])
      case Got(e, rest) => Got(List([Sym("quote"), e]), rest)
      case Eof => Failed
      case r => r)
    else Atom(t)
  }

  function ParseItems(s: string, done: seq<Sexpr>): (r: Outcome)
    ensures r.Got? ==> |r.rest| < |s|
    decreases |s|, 2
  {
    match SkipBlanks(s)
    case Forever => Hangs
    case At(t) =>
      if t == "" then Failed
      else if t[0] == ')' then Got(List(done), t[1..])
      else match Parse(t)
           case Got(e, rest) => ParseItems(rest, done + [e])
           case r => r
  }

  // In a text that leaves no comment open the reader always comes back.
  lemma {:induction false} NeverHangs(s: string)
    requires Closed(s)
    ensures Parse(s) != Hangs && (Parse(s).Got? ==> Closed(Parse(s).rest))
    decreases |s|, 1
  {
    SkipClosed(s);
    var t := SkipBlanks(s).rest;
    if t != "" {
      ClosedRest(t, 1);
      ClosedRest(t, Token(t));
      if t[0] == '(' { ItemsNeverHang(t[1..], []); }
      else if t[0] == '\\' { ClosedRest(t[1..], Token(t[1..])); }
      else if t[0] == '\'' { NeverHangs(t[1..]); }
      else if t[0] == '"' { StringClosed(t[1..], ""); }
    }
  }

  lemma {:induction false} ItemsNeverHang(s: string, done: seq<Sexpr>)
    requires Closed(s)
    ensures var r := ParseItems(s, done); r != Hangs && (r.Got? ==> Closed(r.rest))
    decreases |s|, 2
  {
    SkipClosed(s);
    var t := SkipBlanks(s).rest;
    if t != "" {
      ClosedRest(t, 1);
      if t[0] != ')' {
        NeverHangs(t);
        var r := Parse(t);
        if r.Got? { ItemsNeverHang(r.rest, done + [r.expr]); }
      }
    }
  }

  lemma {:induction false} StringClosed(s: string, done: string)
    requires Closed(s)
    ensures var r := ParseString(s, done); r != Hangs && (r.Got? ==> Closed(r.rest))
    decreases |s|
  {
    if s != "" {
      ClosedRest(s, 1);
      if s[0] != '"' { StringClosed(s[1..], done + [s[0]]); }
    }
  }

  // A pass over the text that keeps no more than how many lists are open and whether a
  // quote waits for its expression: does it come to an open comment before the
  // expression is complete?
  predicate OpenAhead(s: string, depth: nat, quoted: bool)
    decreases |s|
  {
    match SkipBlanks(s)
    case Forever => true
    case At(t) =>
      t != "" &&
      if t[0] == '(' then OpenAhead(t[1..], depth + 1, false)
      else if t[0] == ')' then depth > 1 && !quoted && OpenAhead(t[1..], depth - 1, false)
      else if t[0] == '\'' then OpenAhead(t[1..], depth, true)
      else Atom(t).Got? && depth > 0 && OpenAhead(Atom(t).rest, depth, false)
  }

  // The reader hangs on exactly the texts in which that pass does.
  lemma HangsExactly(s: string)
    ensures Parse(s) == Hangs <==> OpenAhead(s, 0, false)
  {
    ParseOpen(s, 0, false);
  }

  // The pass goes on behind what was read if that was inside of a list.
  predicate GoesOn(r: Outcome, depth: nat) {
    r == Hangs || (r.Got? && depth > 0 && OpenAhead(r.rest, depth, false))
  }

  lemma {:induction false} ParseOpen(s: string, depth: nat, quoted: bool)
    requires depth > 0 && !quoted && SkipBlanks(s).At? ==> SkipBlanks(s).rest == "" || SkipBlanks(s).rest[0] != ')'
    ensures OpenAhead(s, depth, quoted) <==> GoesOn(Parse(s), depth)
    decreases |s|, 1
  {
    if SkipBlanks(s).At? {
      var t := SkipBlanks(s).rest;
      if t != "" && t[0] == '(' { ItemsOpen(t[1..], [], depth); }
      else if t != "" && t[0] == '\'' { ParseOpen(t[1..], depth, true); }
    }
  }

  lemma {:induction false} ItemsOpen(s: string, done: seq<Sexpr>, depth: nat)
    ensures OpenAhead(s, depth + 1, false) <==> GoesOn(ParseItems(s, done), depth)
    decreases |s|, 2
  {
    if SkipBlanks(s).At? {
      var t := SkipBlanks(s).rest;
      if t != "" && t[0] != ')' {
        assert SkipBlanks(t) == At(t);
        ParseOpen(t, depth + 1, false);
        var r := Parse(t);
        if r.Got? { ItemsOpen(r.rest, done + [r.expr], depth); }
      }
    }
  }

  // A semicolon does no harm where it is part of a symbol.
  lemma SemicolonInside()
    ensures !Closed("a;b") && Parse("a;b") == Got(Sym("a;b"), "")
  {
    var s := "a;b";
    assert OpenAt(s, 1);
    assert SkipBlanks(s) == At(s) && s[3..] == "" && s[2..][1..] == "" && s[1..][1..] == s[2..];
    assert Token(s[3..]) == 0 && Token(s[2..]) == 1 && Token(s[1..]) == 2 && Token(s) == 3;
    assert s[..3] == s && Parse(s) == Dispatch(s) && Atom(s) == SymbolOf(s, "");
  }

  // The shortest text that hangs, and one in which the comment is inside a list.
  lemma OpenCommentHangs()
    ensures Parse(";") == Hangs && Parse("(;") == Hangs
  {
    assert ";"[1..] == "" && SkipBlanks(";") == Forever;
    assert "(;"[1..] == ";" && ParseItems(";", []) == Hangs;
    assert SkipBlanks("(;") == At("(;");
  }

  // ---------------------------------------------------------------------
  // Printing.

  function Dec(n: nat): string {
    if n < 10 then [('0' as int + n) as char] else Dec(n / 10) + [('0' as int + n % 10) as char]
  }

  // A real number is taken to print as it was read.
  function Print(e: Sexpr): string
    decreases e, 0
  {
    match e
    case Int(n) => if n >= 0 then Dec(n) else "-" + Dec(-n)
    case Real(t) => t
    case Char(c) => if c == '\t' then "\\tab" else if c == '\n' then "\\newline" else ['\\', c]
    case Str(s) => "\"" + s + "\""
    case Sym(id) => id
    case List(items) => "(" + (if items == [] then "" else Print(items[0]) + PrintTail(items[1..])) + ")"
  }

  function PrintTail(items: seq<Sexpr>): string
    decreases items, 0
  {
    if items == [] then "" else " " + Print(items[0]) + PrintTail(items[1..])
  }

  // What can be read back: numbers of a long's non-negative range, strings without a
  // quote, characters and symbols that are one token of the right kind.
  predicate Printable(e: Sexpr)
    decreases e
  {
    match e
    case Int(n) => 0 <= n <= MAX_LONG
    case Real(_) => true
    case Char(c) => c == '\t' || c == '\n' || !Delimiter(c)
    case Str(s) => '"' !in s
    case Sym(id) =>
      && (forall i :: 0 <= i < |id| ==> !Delimiter(id[i]))
      && (forall i :: 1 <= i < |id| ==> id[i] != '\'' && id[i] != '\\')
      && id[0] != ';' && id[0] != '.' && !Digit(id[0]) && id[0] != '\\' && id[0] != '\'' && id[0] != '"'
    case List(items) => forall i :: 0 <= i < |items| ==> Printable(items[i])
  }

  predicate NoReals(e: Sexpr)
    decreases e
  {
    match e
    case Real(_) => false
    case List(items) => forall i :: 0 <= i < |items| ==> NoReals(items[i])
    case _ => true
  }

  predicate Ends(s: string) { s == "" || Delimiter(s[0]) }

  lemma {:induction false} DecIsNumber(n: nat)
    ensures Dec(n) != "" && (forall i :: 0 <= i < |Dec(n)| ==> Digit(Dec(n)[i]))
    ensures Strip(Dec(n)) == Dec(n) && Val(Dec(n)) == n
  {
    if n >= 10 {
      DecIsNumber(n / 10);
      assert Dec(n)[..|Dec(n)| - 1] == Dec(n / 10);
    } else {
      assert Dec(n)[..0] == "";
    }
  }

  predicate NoDelimiter(t: string) { forall i :: 0 <= i < |t| ==> !Delimiter(t[i]) }

  lemma {:induction false} TokenOf(t: string, rest: string)
    requires NoDelimiter(t) && Ends(rest)
    ensures Token(t + rest) == |t| && (t + rest)[..|t|] == t && (t + rest)[|t|..] == rest
  {
    if t == "" {
      assert t + rest == rest;
    } else {
      TokenOf(t[1..], rest);
      assert (t + rest)[1..] == t[1..] + rest;
    }
  }

  lemma {:induction false} StringBack(s: string, done: string, rest: string)
    requires '"' !in s
    ensures ParseString(s + "\"" + rest, done) == Got(Str(done + s), rest)
    decreases |s|
  {
    var t := s + "\"" + rest;
    if s == "" {
      assert t[1..] == rest && done + s == done;
    } else {
      StringBack(s[1..], done + [s[0]], rest);
      assert t[1..] == s[1..] + "\"" + rest && done + [s[0]] + s[1..] == done + s;
    }
  }

  // A printed expression starts with a character that is not skipped and closes no list.
  lemma PrintHead(e: Sexpr)
    requires Printable(e) && NoReals(e)
    ensures var p := Print(e); p != "" && !Blank(p[0]) && p[0] != ';' && p[0] != ')'
  {
    if e.Int? { DecIsNumber(e.n); }
  }

  lemma {:induction false} ReadBack(e: Sexpr, rest: string)
    requires Printable(e) && NoReals(e) && Ends(rest)
    ensures Print(e) != "" && Parse(Print(e) + rest) == Dispatch(Print(e) + rest) == Got(e, rest)
    decreases e, 0
  {
    var s := Print(e) + rest;
    PrintHead(e);
    assert SkipBlanks(s) == At(s);
    match e
    case List(items) => ListBack(items, rest);
    case _ => AtomBack(e, rest);
  }

  lemma {:induction false} ListBack(items: seq<Sexpr>, rest: string)
    requires Printable(List(items)) && NoReals(List(items)) && Ends(rest)
    ensures Print(List(items)) != "" && Dispatch(Print(List(items)) + rest) == Got(List(items), rest)
    decreases List(items), 0, 0
  {
    var s := Print(List(items)) + rest;
    if items == [] {
      assert s[1..] == ")" + rest && SkipBlanks(s[1..]) == At(s[1..]) && s[1..][1..] == rest;
    } else {
      assert s[1..] == Print(items[0]) + (PrintTail(items[1..]) + ")" + rest);
      ItemBack(items, [], rest);
      assert [] + items == items;
    }
  }

  lemma AtomBack(e: Sexpr, rest: string)
    requires Printable(e) && !e.Real? && !e.List? && Ends(rest)
    ensures Print(e) != "" && Dispatch(Print(e) + rest) == Got(e, rest)
  {
    match e
    case Int(n) => IntBack(n, rest);
    case Char(c) => CharBack(c, rest);
    case Str(t) => StrBack(t, rest);
    case Sym(id) => SymBack(id, rest);
  }

  lemma IntBack(n: nat, rest: string)
    requires n <= MAX_LONG && Ends(rest)
    ensures Dec(n) != "" && Dispatch(Dec(n) + rest) == Got(Int(n), rest)
  {
    var p := Dec(n);
    DecIsNumber(n);
    GoodNumber(p, rest);
    assert (p + rest)[0] == p[0];
  }

  lemma StrBack(t: string, rest: string)
    requires '"' !in t
    ensures Dispatch("\"" + t + "\"" + rest) == Got(Str(t), rest)
  {
    var s := "\"" + t + "\"" + rest;
    StringBack(t, "", rest);
    assert s[0] == '"' && s[1..] == t + "\"" + rest && "" + t == t;
  }

  lemma SymBack(id: Symbol, rest: string)
    requires Printable(Sym(id)) && Ends(rest)
    ensures Dispatch(id + rest) == Got(Sym(id), rest)
  {
    TokenOf(id, rest);
    var s := id + rest;
    assert s[0] == id[0] && Dispatch(s) == SymbolOf(id, rest);
  }

  lemma CharBack(c: char, rest: string)
    requires Printable(Char(c)) && Ends(rest)
    ensures Dispatch(Print(Char(c)) + rest) == Got(Char(c), rest)
  {
    var p := Print(Char(c));
    var s, t := p + rest, p[1..];
    assert NoDelimiter(t);
    TokenOf(t, rest);
    assert s[1..] == t + rest && s[0] == '\\' && Dispatch(s) == CharOf(t, rest);
    if c != '\t' && c != '\n' { assert t == [c]; }
  }

  lemma {:induction false} ItemBack(items: seq<Sexpr>, done: seq<Sexpr>, rest: string)
    requires items != [] && forall i :: 0 <= i < |items| ==> Printable(items[i]) && NoReals(items[i])
    ensures ParseItems(Print(items[0]) + (PrintTail(items[1..]) + ")" + rest), done) == Got(List(done + items), rest)
    decreases items, 1
  {
    var e, more := items[0], PrintTail(items[1..]) + ")" + rest;
    PrintHead(e);
    assert SkipBlanks(Print(e) + more) == At(Print(e) + more);
    ReadBack(e, more);
    TailBack(items[1..], done + [e], rest);
    assert done + [e] + items[1..] == done + items;
  }

  lemma {:induction false} TailBack(items: seq<Sexpr>, done: seq<Sexpr>, rest: string)
    requires forall i :: 0 <= i < |items| ==> Printable(items[i]) && NoReals(items[i])
    ensures ParseItems(PrintTail(items) + ")" + rest, done) == Got(List(done + items), rest)
    decreases items, 2
  {
    var s := PrintTail(items) + ")" + rest;
    if items == [] {
      assert s[1..] == rest && done + items == done && SkipBlanks(s) == At(s);
    } else {
      ItemBack(items, done, rest);
      assert s[1..] == Print(items[0]) + (PrintTail(items[1..]) + ")" + rest);
      assert SkipBlanks(s) == SkipBlanks(s[1..]);
    }
  }

  // The reader returns only what the printer can print.
  lemma {:induction false} ReadIsPrintable(s: string)
    ensures Parse(s).Got? ==> Printable(Parse(s).expr)
    decreases |s|, 0
  {
    var k := SkipBlanks(s);
    if k.At? && k.rest != "" {
      var t := k.rest;
      var c, n := t[0], Token(t);
      if c == '(' { ItemsPrintable(t[1..], []); }
      else if c == '\'' { ReadIsPrintable(t[1..]); }
      else if c == '"' { StringPrintable(t[1..], ""); }
    }
  }

  lemma {:induction false} ItemsPrintable(s: string, done: seq<Sexpr>)
    requires forall i :: 0 <= i < |done| ==> Printable(done[i])
    ensures var r := ParseItems(s, done); r.Got? ==> Printable(r.expr)
    decreases |s|, 1
  {
    var k := SkipBlanks(s);
    if k.At? && k.rest != "" && k.rest[0] != ')' {
      ReadIsPrintable(k.rest);
      var r := Parse(k.rest);
      if r.Got? { ItemsPrintable(r.rest, done + [r.expr]); }
    }
  }

  lemma {:induction false} StringPrintable(s: string, done: string)
    requires '"' !in done
    ensures var r := ParseString(s, done); r.Got? ==> Printable(r.expr)
    decreases |s|
  {
    if s != "" && s[0] != '"' { StringPrintable(s[1..], done + [s[0]]); }
  }

  // The reader undoes the printer exactly on the printable expressions, and leaves what
  // follows.
  lemma ReaderUndoesPrinter(e: Sexpr, rest: string)
    requires NoReals(e) && Ends(rest)
    ensures Parse(Print(e) + rest) == Got(e, rest) <==> Printable(e)
  {
    if Printable(e) { ReadBack(e, rest); } else { ReadIsPrintable(Print(e) + rest); }
  }

  // Whatever was read prints as a text that reads the same.
  lemma ReadPrintRead(s: string)
    requires Parse(s).Got? && NoReals(Parse(s).expr)
    ensures Parse(Print(Parse(s).expr)) == Got(Parse(s).expr, "")
  {
    ReadIsPrintable(s);
    var p := Print(Parse(s).expr);
    ReadBack(Parse(s).expr, "");
    assert p + "" == p;
  }

  // A quote before a text: it reads as (quote e) where the text reads as e, and hangs or
  // fails where the text does, or where it has no expression.
  lemma QuoteReads(s: string)
    ensures Parse("'" + s) == match Parse(s)
                              case Got(e, rest) => Got(List([Sym("quote"), e]), rest)
                              case Eof => Failed
                              case r => r
  {
    var t := "'" + s;
    assert t[0] == '\'' && t[1..] == s && SkipBlanks(t) == At(t);
  }

  // So the short form and the long one read the same.
  lemma QuoteIsShort(e: Sexpr, rest: string)
    requires Printable(e) && NoReals(e) && Ends(rest)
    ensures Parse("'" + (Print(e) + rest)) == Parse("(quote " + Print(e) + ")" + rest)
                == Got(List([Sym("quote"), e]), rest)
  {
    QuoteReads(Print(e) + rest);
    ReadBack(e, rest);
    ReadBack(List([Sym("quote"), e]), rest);
    PrintQuote(e);
  }

  lemma PrintQuote(e: Sexpr)
    ensures Print(List([Sym("quote"), e])) == "(quote " + Print(e) + ")"
  {
    var items := [Sym("quote"), e];
    assert PrintTail(items[1..]) == " " + Print(e) + PrintTail([]) by { assert items[1..] == [e] && [e][1..] == []; }
    assert Print(List(items)) == "(" + ("quote" + (" " + Print(e) + "")) + ")";
  }

  // Blanks and comments before an expression, or before an item of a list, are ignored.
  lemma LayoutIgnored(s: string, n: nat, done: seq<Sexpr>)
    requires Skipped(s, n)
    ensures Parse(s) == Parse(s[n..]) && ParseItems(s, done) == ParseItems(s[n..], done)
  {
    SkippedRest(s, n);
  }

  // Only a text without an expression is one that has come to its end.
  lemma EndsExactly(s: string)
    ensures Parse(s) == Eof <==> SkipBlanks(s) == At("")
  {
    if SkipBlanks(s).At? && SkipBlanks(s).rest != "" { NeverEnds(SkipBlanks(s).rest); }
  }

  lemma {:induction false} NeverEnds(t: string)
    requires t != ""
    ensures Dispatch(t) != Eof
  {
    if t[0] == '(' {
      ItemsNeverEnd(t[1..], []);
    } else if t[0] == '"' {
      StringNeverEnds(t[1..], "");
    }
  }

  lemma {:induction false} ItemsNeverEnd(s: string, done: seq<Sexpr>)
    ensures ParseItems(s, done) != Eof
    decreases |s|
  {
    if SkipBlanks(s).At? && SkipBlanks(s).rest != "" && SkipBlanks(s).rest[0] != ')' {
      var t := SkipBlanks(s).rest;
      SkipTwice(s);
      assert Parse(t) == Dispatch(t);
      if t[0] == '(' {
        ItemsNeverEnd(t[1..], []);
      } else if t[0] == '"' {
        StringNeverEnds(t[1..], "");
      }
      if Parse(t).Got? { ItemsNeverEnd(Parse(t).rest, done + [Parse(t).expr]); }
    }
  }

  lemma {:induction false} StringNeverEnds(s: string, done: string)
    ensures ParseString(s, done) != Eof
    decreases |s|
  {
    if s != "" && s[0] != '"' { StringNeverEnds(s[1..], done + [s[0]]); }
  }

  lemma SkipTwice(s: string)
    requires SkipBlanks(s).At?
    ensures SkipBlanks(SkipBlanks(s).rest) == SkipBlanks(s)
  {
  }

  // A number reads as itself, or as the largest long if it is larger.
  lemma NumberSaturates(n: nat, rest: string)
    requires Ends(rest)
    ensures Parse(Dec(n) + rest) == Got(Int(if n <= MAX_LONG then n else MAX_LONG), rest)
  {
    var p := Dec(n);
    DecIsNumber(n);
    GoodNumber(p, rest);
    assert (p + rest)[0] == p[0] && SkipBlanks(p + rest) == At(p + rest);
  }

  lemma {:induction false} StripParts(a: string, b: string)
    ensures Strip(a + b) == Strip(a) + Strip(b)
  {
    if b == "" {
      assert a + b == a && Strip(a) + "" == Strip(a);
    } else {
      var init := b[..|b| - 1];
      StripParts(a, init);
      assert (a + b)[..|a + b| - 1] == a + init;
    }
  }

  lemma DigitsParts(a: string, b: string)
    ensures Digits(a + b) <==> Digits(a) && Digits(b)
  {
    if Digits(a + b) {
      forall i | 0 <= i < |a| ensures Digit(a[i]) || a[i] == '_' { assert (a + b)[i] == a[i]; }
      forall i | 0 <= i < |b| ensures Digit(b[i]) || b[i] == '_' { assert (a + b)[|a| + i] == b[i]; }
    }
  }

  // The first n characters of t with an underscore after them, and what follows them.
  function Underscored(t: string, n: nat): string
    requires n <= |t|
  {
    t[..n] + "_" + t[n..]
  }

  lemma UnderscoredPoint(t: string, n: nat, k: nat)
    requires n <= |t| && k < |t|
    ensures PointAt(t, k) <==> PointAt(Underscored(t, n), if k < n then k else k + 1)
  {
    var u := Underscored(t, n);
    if k < n {
      assert u[..k] == t[..k] && u[k + 1..] == t[k + 1..n] + "_" + t[n..] && t[k + 1..] == t[k + 1..n] + t[n..];
      DigitsParts(t[k + 1..n], t[n..]);
      DigitsParts(t[k + 1..n] + "_", t[n..]);
      DigitsParts(t[k + 1..n], "_");
    } else {
      assert u[k + 2..] == t[k + 1..] && u[..k + 1] == t[..n] + "_" + t[n..k] && t[..k] == t[..n] + t[n..k];
      DigitsParts(t[..n], t[n..k]);
      DigitsParts(t[..n] + "_", t[n..k]);
      DigitsParts(t[..n], "_");
    }
  }

  lemma UnderscoredNoPoint(t: string, n: nat, j: nat)
    requires n <= |t| && PointAt(Underscored(t, n), j)
    ensures j != n && j <= |t|
  {
    assert Underscored(t, n)[n] == '_';
  }

  lemma FractionMore(t: string, n: nat)
    requires n <= |t| && Fraction(t)
    ensures Fraction(Underscored(t, n))
  {
    var k: nat :| k < |t| && PointAt(t, k);
    UnderscoredPoint(t, n, k);
    assert PointAt(Underscored(t, n), if k < n then k else k + 1);
  }

  lemma FractionLess(t: string, n: nat)
    requires n <= |t| && Fraction(Underscored(t, n))
    ensures Fraction(t)
  {
    var j: nat :| j < |Underscored(t, n)| && PointAt(Underscored(t, n), j);
    UnderscoredNoPoint(t, n, j);
    var k := if j < n then j else j - 1;
    UnderscoredPoint(t, n, k);
    assert PointAt(t, k);
  }

  lemma UnderscoredDigits(t: string, n: nat)
    requires n <= |t|
    ensures Digits(Underscored(t, n)) <==> Digits(t)
  {
    assert t == t[..n] + t[n..];
    DigitsParts(t[..n], t[n..]);
    DigitsParts(t[..n] + "_", t[n..]);
    DigitsParts(t[..n], "_");
  }

  lemma UnderscoredStrip(t: string, n: nat)
    requires n <= |t|
    ensures Strip(Underscored(t, n)) == Strip(t)
  {
    assert t == t[..n] + t[n..] && Strip("_") == "" by { assert "_"[..0] == ""; }
    StripParts(t[..n], t[n..]);
    StripParts(t[..n] + "_", t[n..]);
    StripParts(t[..n], "_");
  }

  lemma UnderscoredNumber(t: string, n: nat, rest: string)
    requires n <= |t|
    ensures NumberOf(Underscored(t, n), rest) == NumberOf(t, rest)
  {
    UnderscoredDigits(t, n);
    UnderscoredStrip(t, n);
    if Fraction(t) { FractionMore(t, n); }
    if Fraction(Underscored(t, n)) { FractionLess(t, n); }
  }

  // Underscores inside a number are ignored.
  lemma UnderscoreIgnored(t: string, n: nat, rest: string)
    requires NoDelimiter(t) && 0 < n <= |t| && (Digit(t[0]) || t[0] == '.') && Ends(rest)
    ensures Parse(Underscored(t, n) + rest) == Parse(t + rest)
  {
    var u := Underscored(t, n);
    assert u[0] == t[0] && NoDelimiter(u);
    GoodNumber(t, rest);
    GoodNumber(u, rest);
    UnderscoredNumber(t, n, rest);
    assert (u + rest)[0] == u[0] && (t + rest)[0] == t[0];
    assert SkipBlanks(u + rest) == At(u + rest) && SkipBlanks(t + rest) == At(t + rest);
  }

  lemma Shift(t: string, s: string)
    requires s != ""
    ensures t + s == t + [s[0]] + s[1..]
  {
  }

  lemma FractionFacts(t: string, c: char)
    requires Fraction(t)
    ensures NoDelimiter(t) && '.' in t && !Digits(t)
    ensures Digit(c) || c == '_' ==> Fraction(t + [c])
  {
    var k: nat :| k < |t| && PointAt(t, k);
    forall i | 0 <= i < |t| ensures !Delimiter(t[i]) {
      if i < k { assert t[..k][i] == t[i]; }
      if k < i { assert t[k + 1..][i - k - 1] == t[i]; }
    }
    if Digit(c) || c == '_' {
      assert (t + [c])[..k] == t[..k] && (t + [c])[k + 1..] == t[k + 1..] + [c];
      Snoc(t[k + 1..], c);
      assert PointAt(t + [c], k);
    }
  }

  lemma FirstPoint(t: string)
    requires Digits(t)
    ensures Fraction(t + ['.'])
  {
    assert (t + ['.'])[..|t|] == t && (t + ['.'])[|t| + 1..] == "";
    assert PointAt(t + ['.'], |t|);
  }

  // A character that no number has there, and what follows it.
  lemma BadNumber(t: string, s: string)
    requires NoDelimiter(t) && s != "" && !Delimiter(s[0]) && !Digit(s[0]) && s[0] != '_'
    requires s[0] == '.' ==> '.' in t
    ensures Number(t + s) == Failed
  {
    var u := (t + s)[..Token(t + s)];
    assert (t + s)[|t|] == s[0];
    assert u[|t|] == s[0] && u[..|t|] == t;
    forall k: nat | k < |u| ensures !PointAt(u, k) {
      if |t| < k { assert u[..k][|t|] == u[|t|]; }
      if k < |t| { assert u[k + 1..][|t| - k - 1] == u[|t|]; }
      if k == |t| && s[0] == '.' {
        var m: nat :| m < |t| && t[m] == '.';
        assert u[..k][m] == '.';
      }
    }
  }

  lemma GoodNumber(t: string, rest: string)
    requires NoDelimiter(t) && Ends(rest)
    ensures Number(t + rest) == NumberOf(t, rest)
  {
    TokenOf(t, rest);
  }
}
