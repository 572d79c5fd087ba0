// The reader: one character of lookahead over a text.
module Reading {
  import opened Sexprs
  import opened Syntax

  datatype Reply = Expr(expr: Sexpr) | EndOfText | Failure | NoReply

  // r is what o says, with rest still to be read.
  predicate Is(r: Reply, rest: string, o: Outcome) {
    match o
    case Got(e, t) => r == Expr(e) && rest == t
    case Eof => r == EndOfText
    case Failed => r == Failure
    case Hangs => r == NoReply
  }

  class Reader {
    const text: string
    var pos: nat

    constructor (source: string)
      ensures Valid() && text == source && Rest() == source
    {
      text := source;
      pos := 0;
    }

    predicate Valid()
      reads this
    {
      pos <= |text|
    }

    // The lookahead and what follows it; nothing at the end of the text.
    function Rest(): string
      requires Valid()
      reads this
    {
      text[pos..]
    }

    // The next character becomes the lookahead.
    method Next()
      requires Valid() && pos < |text|
      modifies this`pos
      ensures Valid() && pos == old(pos) + 1 && old(Rest()) == [text[old(pos)]] + Rest()
    {
      pos := pos + 1;
    }

    // Whether the text has an end after the comment.
    method SkipComment() returns (ends: bool)
      requires Valid() && Rest() != "" && Rest()[0] == ';'
      modifies this`pos
      ensures Valid()
      ensures var k := AfterComment(old(Rest())[1..]);
              ends == k.At? && (ends ==> Rest() != "" && Rest()[0] == '\n' && Rest()[1..] == k.rest)
    {
      ghost var goal := AfterComment(Rest()[1..]);
      Next();
      while pos < |text| && text[pos] != '\n'
        invariant Valid() && AfterComment(Rest()) == goal
      {
        Next();
      }
      ends := pos < |text|;
    }

    method SkipWhitespace() returns (ends: bool)
      requires Valid()
      modifies this`pos
      ensures Valid()
      ensures var k := SkipBlanks(old(Rest())); ends == k.At? && (ends ==> Rest() == k.rest)
      ensures ends <==> !exists k: nat :: OpenAt(old(Rest()), k) && SkipBlanks(old(Rest())[..k]) == At("")
    {
      SkipHangs(Rest());
      ends := true;
      while pos < |text| && (Blank(text[pos]) || text[pos] == ';')
        invariant Valid() && SkipBlanks(Rest()) == SkipBlanks(old(Rest()))
        decreases |text| - pos
      {
        if text[pos] == ';' {
          ends := SkipComment();
          if !ends { return; }
        }
        Next();
      }
    }

    method Read() returns (r: Reply)
      requires Valid()
      modifies this`pos
      ensures Valid() && Is(r, Rest(), Parse(old(Rest())))
      ensures Closed(old(Rest())) ==> r != NoReply
      decreases |Rest()|, 1
    {
      ghost var goal, skip := Parse(Rest()), SkipBlanks(Rest());
      if Closed(Rest()) { NeverHangs(Rest()); }
      var ends := SkipWhitespace();
      if !ends {
        assert goal == Hangs;
        return NoReply;
      }
      if pos == |text| {
        assert skip == At("") && goal == Eof;
        return EndOfText;
      }
      assert skip == At(Rest()) && goal == Dispatch(Rest());
      var c := text[pos];
      if c == '(' { r := ReadList(); }
      else if c == ')' { r := Failure; }
      else if c == '.' || Digit(c) { r := ReadNumber(); }
      else if c == '\\' { r := ReadChar(); }
      else if c == '\'' { r := ReadQuote(); }
      else if c == '"' { r := ReadString(); }
      else { r := ReadSymbol(); }
    }

    method ReadList() returns (r: Reply)
      requires Valid() && Rest() != "" && Rest()[0] == '('
      modifies this`pos
      ensures Valid() && Is(r, Rest(), Dispatch(old(Rest())))
      decreases |Rest()|, 0
    {
      ghost var goal := Dispatch(Rest());
      Next();
      var exprs: seq<Sexpr> := [];
      while true
        invariant Valid() && old(pos) < pos && ParseItems(Rest(), exprs) == goal
        decreases |text| - pos
      {
        ghost var was := Rest();
        var ends := SkipWhitespace();
        if !ends { return NoReply; }
        if pos == |text| { return Failure; }
        if text[pos] == ')' {
          Next();
          return Expr(List(exprs));
        }
        ghost var t := Rest();
        assert ParseItems(was, exprs) == match Parse(t) case Got(e, rest) => ParseItems(rest, exprs + [e]) case o => o;
        r := Read();
        if !r.Expr? { return; }
        exprs := exprs + [r.expr];
      }
    }

    method ReadQuote() returns (r: Reply)
      requires Valid() && Rest() != "" && Rest()[0] == '\''
      modifies this`pos
      ensures Valid() && Is(r, Rest(), Dispatch(old(Rest())))
      decreases |Rest()|, 0
    {
      Next();
      r := Read();
      if r.EndOfText? { r := Failure; }
      else if r.Expr? { r := Expr(List([Sym("quote"), r.expr])); }
    }

    method ReadNumber() returns (r: Reply)
      requires Valid() && Rest() != "" && (Rest()[0] == '.' || Digit(Rest()[0]))
      modifies this`pos
      ensures Valid() && Is(r, Rest(), Number(old(Rest())))
    {
      ghost var s, t := Rest(), "";
      var str := "";
      while pos < |text| && !Delimiter(text[pos]) && text[pos] != '.'
        invariant Valid() && s == t + Rest() && Digits(t) && str == Strip(t)
      {
        if text[pos] != '_' {
          if !Digit(text[pos]) {
            BadNumber(t, Rest());
            return Failure;
          }
          str := str + [text[pos]];
        }
        Snoc(t, text[pos]);
        Shift(t, Rest());
        t := t + [text[pos]];
        Next();
      }
      if pos == |text| || Delimiter(text[pos]) {
        GoodNumber(t, Rest());
        return Expr(Int(if Val(str) <= MAX_LONG then Val(str) else MAX_LONG));
      }
      r := ReadReal(str, t);
    }

    // The rest of a number from its decimal point on; t is what precedes it.
    method ReadReal(digits: string, ghost t: string) returns (r: Reply)
      requires Valid() && Rest() != "" && Rest()[0] == '.' && Digits(t) && digits == Strip(t)
      modifies this`pos
      ensures Valid() && Is(r, Rest(), Number(t + old(Rest())))
    {
      Snoc(t, '.');
      FirstPoint(t);
      Shift(t, Rest());
      ghost var s, u := t + Rest(), t + ['.'];
      var str := digits + ['.'];
      Next();
      while pos < |text| && !Delimiter(text[pos])
        invariant Valid() && s == u + Rest() && Fraction(u) && str == Strip(u)
      {
        FractionFacts(u, text[pos]);
        if text[pos] != '_' {
          if !Digit(text[pos]) {
            BadNumber(u, Rest());
            return Failure;
          }
          str := str + [text[pos]];
        }
        Snoc(u, text[pos]);
        Shift(u, Rest());
        u := u + [text[pos]];
        Next();
      }
      FractionFacts(u, '.');
      GoodNumber(u, Rest());
      r := Expr(Real(str));
    }

    // The characters up to the next delimiter.
    method ReadChar() returns (r: Reply)
      requires Valid() && Rest() != "" && Rest()[0] == '\\'
      modifies this`pos
      ensures Valid() && Is(r, Rest(), Character(old(Rest())[1..]))
    {
      ghost var s := Rest()[1..];
      Next();
      var buf := "";
      while pos < |text| && !Delimiter(text[pos])
        invariant Valid() && s == buf + Rest() && NoDelimiter(buf)
      {
        Shift(buf, Rest());
        buf := buf + [text[pos]];
        Next();
      }
      TokenOf(buf, Rest());
      assert Character(s) == CharOf(buf, Rest());
      if |buf| == 1 { r := Expr(Char(buf[0])); }
      else if buf == "tab" { r := Expr(Char('\t')); }
      else if buf == "newline" { r := Expr(Char('\n')); }
      else { r := Failure; }
    }

    method ReadString() returns (r: Reply)
      requires Valid() && Rest() != "" && Rest()[0] == '"'
      modifies this`pos
      ensures Valid() && Is(r, Rest(), Dispatch(old(Rest())))
    {
      ghost var goal := Dispatch(Rest());
      Next();
      var buf := "";
      while pos < |text| && text[pos] != '"'
        invariant Valid() && ParseString(Rest(), buf) == goal
      {
        assert Rest()[1..] == text[pos + 1..];
        buf := buf + [text[pos]];
        Next();
      }
      if pos == |text| { return Failure; }
      Next();
      r := Expr(Str(buf));
    }

    method ReadSymbol() returns (r: Reply)
      requires Valid() && Rest() != "" && !Delimiter(Rest()[0]) && Rest()[0] != '.' && !Digit(Rest()[0])
      requires Rest()[0] != '\\' && Rest()[0] != '\'' && Rest()[0] != '"'
      modifies this`pos
      ensures Valid() && Is(r, Rest(), Dispatch(old(Rest())))
    {
      ghost var s := Rest();
      ghost var start, n := pos, Token(s);
      var buf := [text[pos]];
      Next();
      while pos < |text| && !Delimiter(text[pos])
        invariant start < pos <= start + n && start + n <= |text| && buf == text[start..pos]
        invariant '\'' !in buf[1..] && '\\' !in buf[1..]
      {
        assert s[pos - start] == text[pos];
        if text[pos] == '\'' || text[pos] == '\\' {
          assert s[..n][1..][pos - start - 1] == text[pos];
          return Failure;
        }
        assert (buf + [text[pos]])[1..] == buf[1..] + [text[pos]];
        buf := buf + [text[pos]];
        Next();
      }
      assert pos == |text| || s[pos - start] == text[pos];
      assert s[..n] == buf && s[n..] == Rest();
      r := Expr(Sym(buf));
    }
  }
}
