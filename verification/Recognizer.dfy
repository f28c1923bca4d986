/**
  * The parser recognizes exactly the grammar, and builds exactly what the syntax
  * tree evaluates to: reading tokens, building the document and checking keys and
  * kinds in one interleaved pass comes to the same as parsing first and
  * evaluating afterwards.
  */
module Recognizer {
  import opened Bytes
  import opened Lexer
  import opened Store
  import opened Grammar
  import opened Eval
  import opened Parser

  // ---- Newlines ----

  /** Newlines spelled out are skipped. */
  lemma {:induction false} SkipsLines(env: Env, t: Token, n: nat, rest: seq<Lexeme>) returns (u: Token)
    requires Shaped(env.inp, t) && rest != [] && rest[0].kind != Newline
    requires Read(env.inp, t, Lines(n) + rest).Some?
    ensures Shaped(env.inp, u) && SkipNewlines(env, t) == To(u) && u.kind == rest[0].kind
    ensures Read(env.inp, u, rest) == Read(env.inp, t, Lines(n) + rest)
    decreases n
  {
    if n == 0 {
      assert Lines(n) + rest == rest;
      u := t;
    } else {
      assert Lines(n) + rest == [NL] + (Lines(n - 1) + rest);
      ReadOne(env.inp, t, NL, Lines(n - 1) + rest);
      NextOk(env.inp, t, false);
      u := SkipsLines(env, Next(env.inp, t, false).tok, n - 1, rest);
    }
  }

  /** What SKIP_NEWLINES passes over is newlines. */
  lemma {:induction false} SkippedLines(env: Env, t: Token) returns (n: nat)
    requires Shaped(env.inp, t) && SkipNewlines(env, t).To?
    ensures Read(env.inp, t, Lines(n)) == Some(SkipNewlines(env, t).tok)
    decreases |env.inp| - t.ptr
  {
    if t.kind != Newline || t.eof {
      n := 0;
    } else {
      NextOk(env.inp, t, false);
      var m := SkippedLines(env, Next(env.inp, t, false).tok);
      n := m + 1;
      assert Text(env.inp, t) == [LF];
      ReadOne(env.inp, t, NL, Lines(m));
    }
  }

  lemma FirstOfValue(v: Value)
    ensures PrintValue(v) != [] && PrintValue(v)[0].kind in {Kind.String, LBracket, LBrace}
  {
  }

  /** A punctuation mark that is read can be fetched past. */
  lemma ReadMark(inp: Str, s: Heap, t: Token, kind: Kind, b: Byte)
    requires Shaped(inp, t) && Read(inp, t, Mark(kind, b)).Some?
    ensures t.kind == kind && Fetch(inp, s, t, false) == Ok(s, Read(inp, t, Mark(kind, b)).value)
  {
    ReadOne(inp, t, Lexeme(kind, [b], false), []);
    assert Mark(kind, b) == [Lexeme(kind, [b], false)] + [];
  }

  /** ... and the other way round. */
  lemma MarkRead(inp: Str, s: Heap, t: Token, kind: Kind, b: Byte, u: Token)
    requires Shaped(inp, t) && t.kind == kind && Punctuation(b, true) == Some(kind) && kind != Newline
    requires Fetch(inp, s, t, false) == Ok(s, u)
    ensures Read(inp, t, Mark(kind, b)) == Some(u)
  {
    ReadOne(inp, t, Lexeme(kind, [b], false), []);
    assert Mark(kind, b) == [Lexeme(kind, [b], false)] + [];
    assert Text(inp, t) == [inp[t.ptr]] == [b];
  }

  lemma ReadWord(inp: Str, s: Heap, t: Token, text: Str)
    requires Shaped(inp, t)
    ensures Read(inp, t, Word(text)).Some? <==>
              t.kind == Kind.String && Text(inp, t) == text && Fetch(inp, s, t, false).Ok?
    ensures Read(inp, t, Word(text)).Some? ==> Fetch(inp, s, t, false) == Ok(s, Read(inp, t, Word(text)).value)
  {
    ReadOne(inp, t, Lexeme(Kind.String, text, false), []);
    assert Word(text) == [Lexeme(Kind.String, text, false)] + [];
  }

  // ---- Whatever the grammar spells and evaluation accepts is parsed ----

  /** `]` closes the array. */
  lemma CloseParsed(env: Env, s: Heap, t: Token, a: nat, m: nat)
    requires Shaped(env.inp, t) && a < |s| && s[a].Arr?
    requires Read(env.inp, t, Lines(m) + Mark(RBracket, RBRACKET)).Some?
    ensures ElemsTail(env, s, t, a) == ParseElems(env, s, t, a)
         == Ok(s, Read(env.inp, t, Lines(m) + Mark(RBracket, RBRACKET)).value)
  {
    var t1 := SkipsLines(env, t, m, Mark(RBracket, RBRACKET));
    ReadMark(env.inp, s, t1, RBracket, RBRACKET);
  }

  /** `}` closes the table. */
  lemma BraceParsed(env: Env, s: Heap, t: Token, i: nat, m: nat)
    requires Shaped(env.inp, t) && i < |s| && s[i].Tab?
    requires Read(env.inp, t, Lines(m) + Mark(RBrace, RBRACE)).Some?
    ensures FieldsTail(env, s, t, i) == ParseFields(env, s, t, i)
         == Ok(s, Read(env.inp, t, Lines(m) + Mark(RBrace, RBRACE)).value)
  {
    var t1 := SkipsLines(env, t, m, Mark(RBrace, RBRACE));
    ReadMark(env.inp, s, t1, RBrace, RBRACE);
  }

  /** A comma, and what follows it. */
  lemma CommaRead(env: Env, s: Heap, t: Token, m: nat, rest: seq<Lexeme>) returns (t1: Token, t2: Token)
    requires Shaped(env.inp, t) && Read(env.inp, t, Lines(m) + (Mark(Kind.Comma, COMMA) + rest)).Some?
    ensures SkipNewlines(env, t) == To(t1) && Shaped(env.inp, t1) && t1.kind == Kind.Comma
    ensures Fetch(env.inp, s, t1, false) == Ok(s, t2) && Shaped(env.inp, t2)
    ensures Read(env.inp, t2, rest) == Read(env.inp, t, Lines(m) + (Mark(Kind.Comma, COMMA) + rest))
  {
    t1 := SkipsLines(env, t, m, Mark(Kind.Comma, COMMA) + rest);
    ReadConcat(env.inp, t1, Mark(Kind.Comma, COMMA), rest);
    ReadMark(env.inp, s, t1, Kind.Comma, COMMA);
    t2 := Fetch(env.inp, s, t1, false).tok;
  }

  lemma {:induction false} ElemsParsed(env: Env, s: Heap, t: Token, a: nat, e: Elems, s': Heap, end: Token)
    requires Shaped(env.inp, t) && a < |s| && s[a].Arr?
    requires Read(env.inp, t, PrintElems(e)) == Some(end) && EvalElems(env.foreign, s, a, e) == Some(s')
    ensures ParseElems(env, s, t, a) == Ok(s', end)
    decreases e, 1
  {
    match e
    case NoElem(n) =>
      CloseParsed(env, s, t, a, n);
    case LastElem(n, v, m) =>
      var tail := Lines(m) + Mark(RBracket, RBRACKET);
      var t1, t2 := HeadParsed(env, s, t, a, n, v, tail, s', end);
      CloseParsed(env, s', t2, a, m);
    case MoreElems(n, v, m, rest) =>
      var tail := Lines(m) + (Mark(Kind.Comma, COMMA) + PrintElems(rest));
      var s2 := EvalElem(env.foreign, s, a, v).value;
      assert NodeGrows(s[a], s2[a]);
      var t1, t2 := HeadParsed(env, s, t, a, n, v, tail, s2, end);
      var t3, t4 := CommaRead(env, s2, t2, m, PrintElems(rest));
      ElemsParsed(env, s2, t4, a, rest, s', end);
  }

  /** Newlines and one element: the parser goes on with the tail. */
  lemma {:induction false} HeadParsed(env: Env, s: Heap, t: Token, a: nat, n: nat, v: Value, tail: seq<Lexeme>,
                                      s2: Heap, end: Token)
    returns (t1: Token, t2: Token)
    requires Shaped(env.inp, t) && a < |s| && s[a].Arr?
    requires Read(env.inp, t, Lines(n) + (PrintValue(v) + tail)) == Some(end)
    requires EvalElem(env.foreign, s, a, v) == Some(s2)
    ensures Shaped(env.inp, t2) && Read(env.inp, t2, tail) == Some(end)
    ensures a < |s2| && s2[a].Arr? && ParseElems(env, s, t, a) == ElemsTail(env, s2, t2, a)
    decreases v, 1
  {
    FirstOfValue(v);
    t1 := SkipsLines(env, t, n, PrintValue(v) + tail);
    ReadConcat(env.inp, t1, PrintValue(v), tail);
    t2 := Read(env.inp, t1, PrintValue(v)).value;
    ElemParsed(env, s, t1, a, v, s2, t2);
    assert NodeGrows(s[a], s2[a]);
  }

  lemma {:induction false} ElemParsed(env: Env, s: Heap, t: Token, a: nat, v: Value, s': Heap, end: Token)
    requires Shaped(env.inp, t) && a < |s| && s[a].Arr?
    requires Read(env.inp, t, PrintValue(v)) == Some(end) && EvalElem(env.foreign, s, a, v) == Some(s')
    ensures ParseElem(env, s, t, a) == Ok(s', end)
    decreases v, 0
  {
    match v
    case Scalar(text) =>
      ReadWord(env.inp, s', t, text);
    case Array(elems) =>
      var b := AppendArray(s, a);
      var t1 := MarkParsed(env.inp, b.heap, t, LBracket, LBRACKET, PrintElems(elems));
      ElemsParsed(env, b.heap, t1, b.id, elems, s', end);
    case Inline(fields) =>
      var b := AppendTable(s, a);
      var t1 := MarkParsed(env.inp, b.heap, t, LBrace, LBRACE, PrintFields(fields));
      FieldsParsed(env, b.heap, t1, b.id, fields, s', end);
  }

  lemma MarkParsed(inp: Str, s: Heap, t: Token, kind: Kind, b: Byte, rest: seq<Lexeme>) returns (u: Token)
    requires Shaped(inp, t) && Read(inp, t, Mark(kind, b) + rest).Some?
    ensures t.kind == kind && Fetch(inp, s, t, false) == Ok(s, u) && Shaped(inp, u)
    ensures Read(inp, u, rest) == Read(inp, t, Mark(kind, b) + rest)
  {
    ReadConcat(inp, t, Mark(kind, b), rest);
    ReadMark(inp, s, t, kind, b);
    u := Fetch(inp, s, t, false).tok;
  }

  lemma {:induction false} FieldsParsed(env: Env, s: Heap, t: Token, i: nat, f: Fields, s': Heap, end: Token)
    requires Shaped(env.inp, t) && i < |s| && s[i].Tab?
    requires Read(env.inp, t, PrintFields(f)) == Some(end) && EvalFields(env.foreign, s, i, f) == Some(s')
    ensures ParseFields(env, s, t, i) == Ok(s', end)
    decreases f, 1
  {
    match f
    case NoField(n) =>
      BraceParsed(env, s, t, i, n);
    case LastField(n, k, v, m) =>
      var tail := Lines(m) + Mark(RBrace, RBRACE);
      var t1, t2 := FieldHeadParsed(env, s, t, i, n, k, v, tail, s', end);
      BraceParsed(env, s', t2, i, m);
    case MoreFields(n, k, v, m, rest) =>
      var tail := Lines(m) + (Mark(Kind.Comma, COMMA) + PrintFields(rest));
      var s2 := EvalField(env.foreign, s, i, k, v).value;
      assert NodeGrows(s[i], s2[i]);
      var t1, t2 := FieldHeadParsed(env, s, t, i, n, k, v, tail, s2, end);
      var t3, t4 := CommaRead(env, s2, t2, m, PrintFields(rest));
      FieldsParsed(env, s2, t4, i, rest, s', end);
  }

  /** Newlines and one key-value: the parser goes on with the tail. */
  lemma {:induction false} FieldHeadParsed(env: Env, s: Heap, t: Token, i: nat, n: nat, k: Str, v: Value,
                                           tail: seq<Lexeme>, s2: Heap, end: Token)
    returns (t1: Token, t2: Token)
    requires Shaped(env.inp, t) && i < |s| && s[i].Tab?
    requires Read(env.inp, t, Lines(n) + (PrintField(k, v) + tail)) == Some(end)
    requires EvalField(env.foreign, s, i, k, v) == Some(s2)
    ensures Shaped(env.inp, t2) && Read(env.inp, t2, tail) == Some(end)
    ensures i < |s2| && s2[i].Tab? && ParseFields(env, s, t, i) == FieldsTail(env, s2, t2, i)
    decreases v, 3
  {
    t1 := SkipsLines(env, t, n, PrintField(k, v) + tail);
    ReadConcat(env.inp, t1, PrintField(k, v), tail);
    t2 := Read(env.inp, t1, PrintField(k, v)).value;
    FieldParsed(env, s, t1, i, k, v, s2, t2);
    assert NodeGrows(s[i], s2[i]);
  }

  lemma {:induction false} FieldParsed(env: Env, s: Heap, t: Token, i: nat, k: Str, v: Value, s': Heap, end: Token)
    requires Shaped(env.inp, t) && i < |s| && s[i].Tab?
    requires Read(env.inp, t, PrintField(k, v)) == Some(end) && EvalField(env.foreign, s, i, k, v) == Some(s')
    ensures t.kind == Kind.String && ParseKeyval(env, s, t, i) == Ok(s', end)
    decreases v, 2
  {
    ReadConcat(env.inp, t, Word(k), Mark(Equal, EQUALS) + PrintValue(v));
    ReadWord(env.inp, s, t, k);
    var t1 := Fetch(env.inp, s, t, false).tok;
    var t2 := MarkParsed(env.inp, s, t1, Equal, EQUALS, PrintValue(v));
    EntryParsed(env, s, t, t2, i, v, s', end);
  }

  lemma {:induction false} EntryParsed(env: Env, s: Heap, key: Token, t: Token, i: nat, v: Value, s': Heap, end: Token)
    requires Shaped(env.inp, key) && key.kind == Kind.String
    requires Shaped(env.inp, t) && i < |s| && s[i].Tab?
    requires Read(env.inp, t, PrintValue(v)) == Some(end)
    requires EvalField(env.foreign, s, i, Text(env.inp, key), v) == Some(s')
    ensures ParseEntry(env, s, key, t, i) == Ok(s', end)
    decreases v, 0
  {
    var k := Text(env.inp, key);
    match v
    case Scalar(text) =>
      ReadWord(env.inp, s', t, text);
    case Array(elems) =>
      var b := CreateArray(s, i, k);
      var t1 := MarkParsed(env.inp, b.heap, t, LBracket, LBRACKET, PrintElems(elems));
      ElemsParsed(env, b.heap, t1, b.id, elems, s', end);
    case Inline(fields) =>
      var b := CreateTable(s, i, k);
      var t1 := MarkParsed(env.inp, b.heap, t, LBrace, LBRACE, PrintFields(fields));
      FieldsParsed(env, b.heap, t1, b.id, fields, s', end);
  }

  // ---- Whatever is parsed is spelled by the grammar ----

  /** Gluing together what was read. */
  lemma Glue(inp: Str, t: Token, a: seq<Lexeme>, b: seq<Lexeme>, u: Token, w: Token)
    requires Read(inp, t, a) == Some(u) && Read(inp, u, b) == Some(w)
    ensures Read(inp, t, a + b) == Some(w)
  {
    ReadConcat(inp, t, a, b);
  }

  /** Newlines, one piece, newlines and a mark. */
  lemma GlueAll(inp: Str, t: Token, n: nat, piece: seq<Lexeme>, m: nat, last: seq<Lexeme>, t1: Token, t2: Token,
                t3: Token, end: Token)
    requires Read(inp, t, Lines(n)) == Some(t1) && Read(inp, t1, piece) == Some(t2)
    requires Read(inp, t2, Lines(m)) == Some(t3) && Read(inp, t3, last) == Some(end)
    ensures Read(inp, t, Lines(n) + (piece + (Lines(m) + last))) == Some(end)
  {
    Glue(inp, t2, Lines(m), last, t3, end);
    Glue(inp, t1, piece, Lines(m) + last, t2, end);
    Glue(inp, t, Lines(n), piece + (Lines(m) + last), t1, end);
  }

  lemma ElemsMade(f: Foreign, s: Heap, s2: Heap, a: nat, n: nat, v: Value, m: nat, last: seq<Lexeme>, more: bool,
                  rest: Elems, s': Heap)
    returns (e: Elems)
    requires a < |s| && s[a].Arr? && EvalElem(f, s, a, v) == Some(s2) && a < |s2| && s2[a].Arr?
    requires if more then last == Mark(Kind.Comma, COMMA) + PrintElems(rest) && EvalElems(f, s2, a, rest) == Some(s')
             else last == Mark(RBracket, RBRACKET) && s' == s2
    ensures PrintElems(e) == Lines(n) + (PrintValue(v) + (Lines(m) + last)) && EvalElems(f, s, a, e) == Some(s')
  {
    e := if more then MoreElems(n, v, m, rest) else LastElem(n, v, m);
  }

  lemma {:induction false} ElemsSpelled(env: Env, s: Heap, t: Token, a: nat, s': Heap, end: Token) returns (e: Elems)
    requires Shaped(env.inp, t) && a < |s| && s[a].Arr? && ParseElems(env, s, t, a) == Ok(s', end)
    ensures Read(env.inp, t, PrintElems(e)) == Some(end) && EvalElems(env.foreign, s, a, e) == Some(s')
    decreases |env.inp| - t.ptr, 3
  {
    var n := SkippedLines(env, t);
    var t1 := SkipNewlines(env, t).tok;
    if t1.kind == RBracket {
      MarkRead(env.inp, s, t1, RBracket, RBRACKET, end);
      e := NoElem(n);
      Glue(env.inp, t, Lines(n), Mark(RBracket, RBRACKET), t1, end);
    } else {
      var s2, t2 := ParseElem(env, s, t1, a).heap, ParseElem(env, s, t1, a).tok;
      assert NodeGrows(s[a], s2[a]);
      var v := ElemSpelled(env, s, t1, a, s2, t2);
      var m, last, more, rest := ElemsTailSpelled(env, s2, t2, a, s', end);
      var t3 := SkipNewlines(env, t2).tok;
      GlueAll(env.inp, t, n, PrintValue(v), m, last, t1, t2, t3, end);
      e := ElemsMade(env.foreign, s, s2, a, n, v, m, last, more, rest, s');
    }
  }

  lemma ElemsAfterComma(env: Env, s: Heap, t: Token, a: nat, s': Heap, end: Token) returns (t2: Token)
    requires Shaped(env.inp, t) && a < |s| && s[a].Arr? && ElemsTail(env, s, t, a) == Ok(s', end)
    requires SkipNewlines(env, t).To? && SkipNewlines(env, t).tok.kind != RBracket
    ensures Read(env.inp, SkipNewlines(env, t).tok, Mark(Kind.Comma, COMMA)) == Some(t2)
    ensures Shaped(env.inp, t2) && t.ptr < t2.ptr && ParseElems(env, s, t2, a) == Ok(s', end)
  {
    var t1 := SkipNewlines(env, t).tok;
    t2 := Fetch(env.inp, s, t1, false).tok;
    MarkRead(env.inp, s, t1, Kind.Comma, COMMA, t2);
  }

  /** After an element: `last` is `]`, or a comma and the rest. */
  lemma {:induction false} ElemsTailSpelled(env: Env, s: Heap, t: Token, a: nat, s': Heap, end: Token)
    returns (m: nat, last: seq<Lexeme>, more: bool, rest: Elems)
    requires Shaped(env.inp, t) && a < |s| && s[a].Arr? && ElemsTail(env, s, t, a) == Ok(s', end)
    ensures SkipNewlines(env, t).To? && Read(env.inp, t, Lines(m)) == Some(SkipNewlines(env, t).tok)
    ensures Read(env.inp, SkipNewlines(env, t).tok, last) == Some(end)
    ensures if more then
              last == Mark(Kind.Comma, COMMA) + PrintElems(rest) && EvalElems(env.foreign, s, a, rest) == Some(s')
            else last == Mark(RBracket, RBRACKET) && s' == s
    decreases |env.inp| - t.ptr, 1
  {
    m := SkippedLines(env, t);
    var t1 := SkipNewlines(env, t).tok;
    rest := NoElem(0);
    if t1.kind == RBracket {
      MarkRead(env.inp, s, t1, RBracket, RBRACKET, end);
      last, more := Mark(RBracket, RBRACKET), false;
    } else {
      var t2 := ElemsAfterComma(env, s, t, a, s', end);
      rest := ElemsSpelled(env, s, t2, a, s', end);
      last, more := Mark(Kind.Comma, COMMA) + PrintElems(rest), true;
      Glue(env.inp, t1, Mark(Kind.Comma, COMMA), PrintElems(rest), t2, end);
    }
  }

  lemma OpenRead(inp: Str, s: Heap, t: Token, t1: Token)
    requires Shaped(inp, t) && t.kind == LBracket && Fetch(inp, s, t, false) == Ok(s, t1)
    ensures Read(inp, t, Mark(LBracket, LBRACKET)) == Some(t1)
  {
    MarkRead(inp, s, t, LBracket, LBRACKET, t1);
  }

  /** `[` and elements, for an array built into `a`. */
  lemma {:induction false} ArraySpelled(env: Env, s: Heap, t: Token, t1: Token, a: nat, s': Heap, end: Token)
    returns (elems: Elems)
    requires Shaped(env.inp, t) && t.kind == LBracket && Fetch(env.inp, s, t, false) == Ok(s, t1)
    requires a < |s| && s[a].Arr? && ParseElems(env, s, t1, a) == Ok(s', end)
    ensures Read(env.inp, t, Mark(LBracket, LBRACKET) + PrintElems(elems)) == Some(end)
    ensures EvalElems(env.foreign, s, a, elems) == Some(s')
    decreases |env.inp| - t.ptr, 1
  {
    OpenRead(env.inp, s, t, t1);
    elems := ElemsSpelled(env, s, t1, a, s', end);
    Glue(env.inp, t, Mark(LBracket, LBRACKET), PrintElems(elems), t1, end);
  }

  /** `{` and key-values, for a table built into `i`. */
  lemma {:induction false} TableSpelled(env: Env, s: Heap, t: Token, t1: Token, i: nat, s': Heap, end: Token)
    returns (fields: Fields)
    requires Shaped(env.inp, t) && t.kind == LBrace && Fetch(env.inp, s, t, false) == Ok(s, t1)
    requires i < |s| && s[i].Tab? && ParseFields(env, s, t1, i) == Ok(s', end)
    ensures Read(env.inp, t, Mark(LBrace, LBRACE) + PrintFields(fields)) == Some(end)
    ensures EvalFields(env.foreign, s, i, fields) == Some(s')
    decreases |env.inp| - t.ptr, 1
  {
    MarkRead(env.inp, s, t, LBrace, LBRACE, t1);
    fields := FieldsSpelled(env, s, t1, i, s', end);
    Glue(env.inp, t, Mark(LBrace, LBRACE), PrintFields(fields), t1, end);
  }

  lemma {:induction false} ElemSpelled(env: Env, s: Heap, t: Token, a: nat, s': Heap, end: Token) returns (v: Value)
    requires Shaped(env.inp, t) && a < |s| && s[a].Arr? && ParseElem(env, s, t, a) == Ok(s', end)
    ensures Read(env.inp, t, PrintValue(v)) == Some(end) && EvalElem(env.foreign, s, a, v) == Some(s')
    decreases |env.inp| - t.ptr, 2
  {
    match t.kind
    case String =>
      v := Scalar(Text(env.inp, t));
      ReadWord(env.inp, s', t, Text(env.inp, t));
    case LBracket =>
      var b := AppendArray(s, a);
      var elems := ArraySpelled(env, b.heap, t, Fetch(env.inp, b.heap, t, false).tok, b.id, s', end);
      v := Array(elems);
    case LBrace =>
      var b := AppendTable(s, a);
      var fields := TableSpelled(env, b.heap, t, Fetch(env.inp, b.heap, t, false).tok, b.id, s', end);
      v := Inline(fields);
  }

  lemma FieldsMade(f: Foreign, s: Heap, s2: Heap, i: nat, n: nat, k: Str, v: Value, m: nat, last: seq<Lexeme>,
                   more: bool, rest: Fields, s': Heap)
    returns (e: Fields)
    requires i < |s| && s[i].Tab? && EvalField(f, s, i, k, v) == Some(s2) && i < |s2| && s2[i].Tab?
    requires if more then last == Mark(Kind.Comma, COMMA) + PrintFields(rest) && EvalFields(f, s2, i, rest) == Some(s')
             else last == Mark(RBrace, RBRACE) && s' == s2
    ensures PrintFields(e) == Lines(n) + (PrintField(k, v) + (Lines(m) + last)) && EvalFields(f, s, i, e) == Some(s')
  {
    e := if more then MoreFields(n, k, v, m, rest) else LastField(n, k, v, m);
  }

  lemma {:induction false} FieldsSpelled(env: Env, s: Heap, t: Token, i: nat, s': Heap, end: Token) returns (f: Fields)
    requires Shaped(env.inp, t) && i < |s| && s[i].Tab? && ParseFields(env, s, t, i) == Ok(s', end)
    ensures Read(env.inp, t, PrintFields(f)) == Some(end) && EvalFields(env.foreign, s, i, f) == Some(s')
    decreases |env.inp| - t.ptr, 3
  {
    var n := SkippedLines(env, t);
    var t1 := SkipNewlines(env, t).tok;
    if t1.kind == RBrace {
      MarkRead(env.inp, s, t1, RBrace, RBRACE, end);
      f := NoField(n);
      Glue(env.inp, t, Lines(n), Mark(RBrace, RBRACE), t1, end);
    } else {
      var s2, t2 := ParseKeyval(env, s, t1, i).heap, ParseKeyval(env, s, t1, i).tok;
      assert NodeGrows(s[i], s2[i]);
      var k, v := FieldSpelled(env, s, t1, i, s2, t2);
      var m, last, more, rest := FieldsTailSpelled(env, s2, t2, i, s', end);
      var t3 := SkipNewlines(env, t2).tok;
      GlueAll(env.inp, t, n, PrintField(k, v), m, last, t1, t2, t3, end);
      f := FieldsMade(env.foreign, s, s2, i, n, k, v, m, last, more, rest, s');
    }
  }

  lemma FieldsAfterComma(env: Env, s: Heap, t: Token, i: nat, s': Heap, end: Token) returns (t2: Token)
    requires Shaped(env.inp, t) && i < |s| && s[i].Tab? && FieldsTail(env, s, t, i) == Ok(s', end)
    requires SkipNewlines(env, t).To? && SkipNewlines(env, t).tok.kind != RBrace
    ensures Read(env.inp, SkipNewlines(env, t).tok, Mark(Kind.Comma, COMMA)) == Some(t2)
    ensures Shaped(env.inp, t2) && t.ptr < t2.ptr && ParseFields(env, s, t2, i) == Ok(s', end)
  {
    var t1 := SkipNewlines(env, t).tok;
    t2 := Fetch(env.inp, s, t1, false).tok;
    MarkRead(env.inp, s, t1, Kind.Comma, COMMA, t2);
  }

  /** After a key-value: `last` is `}`, or a comma and the rest. */
  lemma {:induction false} FieldsTailSpelled(env: Env, s: Heap, t: Token, i: nat, s': Heap, end: Token)
    returns (m: nat, last: seq<Lexeme>, more: bool, rest: Fields)
    requires Shaped(env.inp, t) && i < |s| && s[i].Tab? && FieldsTail(env, s, t, i) == Ok(s', end)
    ensures SkipNewlines(env, t).To? && Read(env.inp, t, Lines(m)) == Some(SkipNewlines(env, t).tok)
    ensures Read(env.inp, SkipNewlines(env, t).tok, last) == Some(end)
    ensures if more then
              last == Mark(Kind.Comma, COMMA) + PrintFields(rest) && EvalFields(env.foreign, s, i, rest) == Some(s')
            else last == Mark(RBrace, RBRACE) && s' == s
    decreases |env.inp| - t.ptr, 1
  {
    m := SkippedLines(env, t);
    var t1 := SkipNewlines(env, t).tok;
    rest := NoField(0);
    if t1.kind == RBrace {
      MarkRead(env.inp, s, t1, RBrace, RBRACE, end);
      last, more := Mark(RBrace, RBRACE), false;
    } else {
      var t2 := FieldsAfterComma(env, s, t, i, s', end);
      rest := FieldsSpelled(env, s, t2, i, s', end);
      last, more := Mark(Kind.Comma, COMMA) + PrintFields(rest), true;
      Glue(env.inp, t1, Mark(Kind.Comma, COMMA), PrintFields(rest), t2, end);
    }
  }

  lemma {:induction false} FieldSpelled(env: Env, s: Heap, t: Token, i: nat, s': Heap, end: Token)
    returns (k: Str, v: Value)
    requires Shaped(env.inp, t) && t.kind == Kind.String && i < |s| && s[i].Tab?
    requires ParseKeyval(env, s, t, i) == Ok(s', end)
    ensures Read(env.inp, t, PrintField(k, v)) == Some(end) && EvalField(env.foreign, s, i, k, v) == Some(s')
    decreases |env.inp| - t.ptr, 2
  {
    k := Text(env.inp, t);
    ReadWord(env.inp, s, t, k);
    var t1 := Fetch(env.inp, s, t, false).tok;
    var t2 := Fetch(env.inp, s, t1, false).tok;
    MarkRead(env.inp, s, t1, Equal, EQUALS, t2);
    v := EntrySpelled(env, s, t, t2, i, s', end);
    Glue(env.inp, t1, Mark(Equal, EQUALS), PrintValue(v), t2, end);
    Glue(env.inp, t, Word(k), Mark(Equal, EQUALS) + PrintValue(v), t1, end);
  }

  lemma {:induction false} EntrySpelled(env: Env, s: Heap, key: Token, t: Token, i: nat, s': Heap, end: Token)
    returns (v: Value)
    requires Shaped(env.inp, key) && key.kind == Kind.String
    requires Shaped(env.inp, t) && i < |s| && s[i].Tab? && ParseEntry(env, s, key, t, i) == Ok(s', end)
    ensures Read(env.inp, t, PrintValue(v)) == Some(end)
    ensures EvalField(env.foreign, s, i, Text(env.inp, key), v) == Some(s')
    decreases |env.inp| - t.ptr, 2
  {
    var k := Text(env.inp, key);
    match t.kind
    case String =>
      v := Scalar(Text(env.inp, t));
      ReadWord(env.inp, s', t, Text(env.inp, t));
    case LBracket =>
      var b := CreateArray(s, i, k);
      var elems := ArraySpelled(env, b.heap, t, Fetch(env.inp, b.heap, t, false).tok, b.id, s', end);
      v := Array(elems);
    case LBrace =>
      var b := CreateTable(s, i, k);
      var fields := TableSpelled(env, b.heap, t, Fetch(env.inp, b.heap, t, false).tok, b.id, s', end);
      v := Inline(fields);
  }
}
