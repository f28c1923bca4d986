/**
  * Where a dot is part of a bare word and where it ends one: at the start of a
  * statement that depends on the statement before it.
  */
module Dotted {
  import opened Bytes
  import opened Lexer
  import opened Grammar
  import opened Language
  import opened Faults
  import opened Words

  /** A STRING that begins with no quote. */
  predicate IsWord(inp: Str, u: Token) {
    Within(inp, u) && u.kind.String? && u.ptr < |inp| && inp[u.ptr] != 34 && inp[u.ptr] != 39
  }

  /** The token is a whole word, read in this mode. */
  ghost predicate WordIn(inp: Str, u: Token, dot: bool) { WordAt(inp, u.ptr, u.ptr + u.len, dot) }

  /** After a lexeme comes what is delivered in its mode. */
  lemma {:induction false} LastLexeme(inp: Str, t: Token, ls: seq<Lexeme>, l: Lexeme, u: Token)
    requires Read(inp, t, ls + [l]) == Some(u) && IsWord(inp, u)
    ensures WordIn(inp, u, l.dot)
  {
    ReadConcat(inp, t, ls, [l]);
    var v := Read(inp, t, ls).value;
    assert [l] == [l] + [];
    ReadOne(inp, v, l, []);
    DeliveredIsWord(inp, v, l.dot, u);
  }

  lemma {:induction false} ReadLast(inp: Str, t: Token, ss: seq<Stmt>, u: Token) returns (v: Token)
    requires ss != [] && ReadAll(inp, t, ss) == Some(u)
    ensures ReadStmt(inp, v, ss[|ss| - 1]) == Some(u)
    decreases |ss|
  {
    if |ss| == 1 {
      v := t;
    } else {
      v := ReadLast(inp, ReadStmt(inp, t, ss[0]).value, ss[1..], u);
    }
  }

  lemma WordAfter(inp: Str, t: Token, s: Stmt, u: Token)
    requires ReadStmt(inp, t, s) == Some(u) && IsWord(inp, u)
    ensures WordIn(inp, u, !s.Entry?)
  {
    match s
    case Blank =>
      var l := Lexeme(Newline, [LF], true);
      assert [] + [l] == [l] == Print(s);
      LastLexeme(inp, t, [], l, u);
    case Entry(k, x, end) => LastLexeme(inp, t, PrintField(k, x), Lexeme(Newline, end, false), u);
    case Header(_, _) =>
  }

  /**
    * The word at the start of a statement runs over dots if a key-value is on the
    * line before; at the start of the text and after a blank line it ends at one.
    */
  lemma {:induction false} StatementWord(inp: Str, t: Token, ss: seq<Stmt>, u: Token)
    requires Next(inp, START, true) == Tok(t) && ReadAll(inp, t, ss) == Some(u) && IsWord(inp, u)
    ensures WordIn(inp, u, ss == [] || !ss[|ss| - 1].Entry?)
  {
    if ss == [] {
      DeliveredIsWord(inp, START, true, u);
    } else {
      var v := ReadLast(inp, t, ss, u);
      WordAfter(inp, v, ss[|ss| - 1], u);
    }
  }

  /** A bare value runs over dots. */
  lemma {:induction false} ValueWord(inp: Str, t: Token, key: Str, u: Token)
    requires Read(inp, t, Word(key) + Mark(Equal, EQUALS)) == Some(u) && IsWord(inp, u)
    ensures WordIn(inp, u, false)
  {
    LastLexeme(inp, t, Word(key), Lexeme(Equal, [EQUALS], false), u);
  }

  /** A bare key in the path of a header ends at a dot. */
  lemma {:induction false} PathWord(inp: Str, t: Token, double: bool, keys: seq<Str>, u: Token)
    requires Read(inp, t, PrintOpen(double) + PrintDotted(keys)) == Some(u) && IsWord(inp, u)
    ensures WordIn(inp, u, true)
  {
    var ls, l := LastOfPath(double, keys);
    LastLexeme(inp, t, ls, l, u);
  }

  lemma LastOfPath(double: bool, keys: seq<Str>) returns (ls: seq<Lexeme>, l: Lexeme)
    ensures PrintOpen(double) + PrintDotted(keys) == ls + [l] && l.dot
  {
    if keys == [] {
      l := Lexeme(LBracket, [LBRACKET], true);
      ls := if double then [l] else [];
    } else {
      var front := LastDot(keys);
      l := Lexeme(Kind.Dot, [DOT], true);
      ls := PrintOpen(double) + front;
    }
  }

  lemma {:induction false} LastDot(keys: seq<Str>) returns (front: seq<Lexeme>)
    requires keys != []
    ensures PrintDotted(keys) == front + [Lexeme(Kind.Dot, [DOT], true)]
    decreases |keys|
  {
    var key := [Lexeme(Kind.String, keys[0], true)];
    if |keys| == 1 {
      front := key;
      assert DotMark(Kind.Dot, DOT) + PrintDotted(keys[1..]) == [Lexeme(Kind.Dot, [DOT], true)];
    } else {
      var rest := LastDot(keys[1..]);
      front := key + (DotMark(Kind.Dot, DOT) + rest);
    }
  }
}
