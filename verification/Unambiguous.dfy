/**
  * The grammar is unambiguous: the tokens of an input spell one sequence of
  * statements at most, so `toml_parse` accepts an input exactly when the reading
  * it has executes.
  */
module Unambiguous {
  import opened Bytes
  import opened Lexer
  import opened Store
  import opened Grammar
  import opened Parser
  import opened Document
  import opened Language

  /** What is read begins with the first lexeme. */
  lemma FirstRead(inp: Str, t: Token, ls: seq<Lexeme>)
    requires ls != [] && Read(inp, t, ls).Some?
    ensures t.kind == ls[0].kind && Text(inp, t) == ls[0].text
  {
  }

  /** Newlines before something else are counted in one way. */
  lemma {:induction false} OneLines(inp: Str, t: Token, n: nat, a: seq<Lexeme>, m: nat, b: seq<Lexeme>)
    returns (u: Token)
    requires Shaped(inp, t) && a != [] && a[0].kind != Newline && b != [] && b[0].kind != Newline
    requires Read(inp, t, Lines(n) + a).Some? && Read(inp, t, Lines(m) + b).Some?
    ensures n == m && Shaped(inp, u) && u.kind == a[0].kind == b[0].kind
    ensures Read(inp, u, a).Some? && Read(inp, u, b).Some?
    decreases n
  {
    var t1 := LineRead(inp, t, n, a);
    var t2 := LineRead(inp, t, m, b);
    if n == 0 {
      u := t;
    } else {
      u := OneLines(inp, t1, n - 1, a, m - 1, b);
    }
  }

  /** The first of some newlines, or what comes after none. */
  lemma LineRead(inp: Str, t: Token, n: nat, a: seq<Lexeme>) returns (u: Token)
    requires Shaped(inp, t) && a != [] && Read(inp, t, Lines(n) + a).Some?
    ensures n == 0 ==> t.kind == a[0].kind && Read(inp, t, a).Some?
    ensures n > 0 ==> t.kind == Newline && Next(inp, t, false) == Tok(u) && Shaped(inp, u)
    ensures n > 0 ==> Read(inp, u, Lines(n - 1) + a).Some?
  {
    if n == 0 {
      assert Lines(n) + a == a;
      FirstRead(inp, t, a);
      u := t;
    } else {
      assert Lines(n) + a == [NL] + (Lines(n - 1) + a);
      u := MarkTaken(inp, t, NL, Lines(n - 1) + a);
    }
  }

  // ---- Values ----

  /** What is printed of elements after the newlines before the first. */
  function FromElem(e: Elems): seq<Lexeme> {
    match e
    case NoElem(_) => Mark(RBracket, RBRACKET)
    case LastElem(_, v, m) => PrintValue(v) + (Lines(m) + PastElem(e))
    case MoreElems(_, v, m, _) => PrintValue(v) + (Lines(m) + PastElem(e))
  }

  /** ... and what after the newlines behind it. */
  function PastElem(e: Elems): (r: seq<Lexeme>)
    ensures r != []
  {
    match e
    case NoElem(_) => Mark(RBracket, RBRACKET)
    case LastElem(_, _, _) => Mark(RBracket, RBRACKET)
    case MoreElems(_, _, _, rest) => Mark(Kind.Comma, COMMA) + PrintElems(rest)
  }

  function FromField(fs: Fields): seq<Lexeme> {
    match fs
    case NoField(_) => Mark(RBrace, RBRACE)
    case LastField(_, k, v, m) => PrintField(k, v) + (Lines(m) + PastField(fs))
    case MoreFields(_, k, v, m, _) => PrintField(k, v) + (Lines(m) + PastField(fs))
  }

  function PastField(fs: Fields): (r: seq<Lexeme>)
    ensures r != []
  {
    match fs
    case NoField(_) => Mark(RBrace, RBRACE)
    case LastField(_, _, _, _) => Mark(RBrace, RBRACE)
    case MoreFields(_, _, _, _, rest) => Mark(Kind.Comma, COMMA) + PrintFields(rest)
  }

  /** How a value begins. */
  function Opening(v: Value): Kind {
    match v
    case Scalar(_) => Kind.String
    case Array(_) => LBracket
    case Inline(_) => LBrace
  }

  lemma ValueOpens(v: Value)
    ensures PrintValue(v) != [] && PrintValue(v)[0].kind == Opening(v)
  {
  }

  lemma ElemOpens(e: Elems)
    ensures PrintElems(e) == Lines(e.before) + FromElem(e) && FromElem(e) != []
    ensures FromElem(e)[0].kind == if e.NoElem? then RBracket else Opening(e.v)
  {
    if !e.NoElem? { ValueOpens(e.v); }
  }

  lemma {:induction false} OneValue(inp: Str, t: Token, v: Value, w: Value)
    requires Shaped(inp, t) && Read(inp, t, PrintValue(v)).Some? && Read(inp, t, PrintValue(w)).Some?
    ensures v == w
    decreases v, 0
  {
    ValueOpens(v);
    ValueOpens(w);
    FirstRead(inp, t, PrintValue(v));
    FirstRead(inp, t, PrintValue(w));
    match v
    case Scalar(_) =>
    case Array(e) =>
      var u := MarkTaken(inp, t, Lexeme(LBracket, [LBRACKET], false), PrintElems(e));
      var u' := MarkTaken(inp, t, Lexeme(LBracket, [LBRACKET], false), PrintElems(w.elems));
      OneElems(inp, u, e, w.elems);
    case Inline(fs) =>
      var u := MarkTaken(inp, t, Lexeme(LBrace, [LBRACE], false), PrintFields(fs));
      var u' := MarkTaken(inp, t, Lexeme(LBrace, [LBRACE], false), PrintFields(w.fields));
      OneFields(inp, u, fs, w.fields);
  }

  lemma {:induction false} OneElems(inp: Str, t: Token, e: Elems, e': Elems)
    requires Shaped(inp, t) && Read(inp, t, PrintElems(e)).Some? && Read(inp, t, PrintElems(e')).Some?
    ensures e == e'
    decreases e, 1
  {
    ElemOpens(e);
    ElemOpens(e');
    var u := OneLines(inp, t, e.before, FromElem(e), e'.before, FromElem(e'));
    if !e.NoElem? && !e'.NoElem? {
      ReadConcat(inp, u, PrintValue(e.v), Lines(e.after) + PastElem(e));
      ReadConcat(inp, u, PrintValue(e'.v), Lines(e'.after) + PastElem(e'));
      OneValue(inp, u, e.v, e'.v);
      OneElemsTail(inp, Read(inp, u, PrintValue(e.v)).value, e, e');
    }
  }

  lemma {:induction false} OneElemsTail(inp: Str, t: Token, e: Elems, e': Elems)
    requires Shaped(inp, t) && !e.NoElem? && !e'.NoElem?
    requires Read(inp, t, Lines(e.after) + PastElem(e)).Some? && Read(inp, t, Lines(e'.after) + PastElem(e')).Some?
    ensures e.after == e'.after && (e.LastElem? <==> e'.LastElem?) && (e.MoreElems? ==> e.rest == e'.rest)
    decreases e, 0
  {
    var u := OneLines(inp, t, e.after, PastElem(e), e'.after, PastElem(e'));
    if e.MoreElems? {
      var w := MarkTaken(inp, u, Lexeme(Kind.Comma, [COMMA], false), PrintElems(e.rest));
      var w' := MarkTaken(inp, u, Lexeme(Kind.Comma, [COMMA], false), PrintElems(e'.rest));
      OneElems(inp, w, e.rest, e'.rest);
    }
  }

  lemma FieldOpens(fs: Fields)
    ensures PrintFields(fs) == Lines(fs.before) + FromField(fs) && FromField(fs) != []
    ensures FromField(fs)[0].kind == if fs.NoField? then RBrace else Kind.String
  {
  }

  lemma {:induction false} OneFields(inp: Str, t: Token, fs: Fields, gs: Fields)
    requires Shaped(inp, t) && Read(inp, t, PrintFields(fs)).Some? && Read(inp, t, PrintFields(gs)).Some?
    ensures fs == gs
    decreases fs, 1
  {
    FieldOpens(fs);
    FieldOpens(gs);
    var u := OneLines(inp, t, fs.before, FromField(fs), gs.before, FromField(gs));
    if !fs.NoField? && !gs.NoField? {
      ReadConcat(inp, u, PrintField(fs.key, fs.v), Lines(fs.after) + PastField(fs));
      ReadConcat(inp, u, PrintField(gs.key, gs.v), Lines(gs.after) + PastField(gs));
      OneField(inp, u, fs.key, fs.v, gs.key, gs.v);
      OneFieldsTail(inp, Read(inp, u, PrintField(fs.key, fs.v)).value, fs, gs);
    }
  }

  lemma {:induction false} OneFieldsTail(inp: Str, t: Token, fs: Fields, gs: Fields)
    requires Shaped(inp, t) && !fs.NoField? && !gs.NoField?
    requires Read(inp, t, Lines(fs.after) + PastField(fs)).Some? && Read(inp, t, Lines(gs.after) + PastField(gs)).Some?
    ensures fs.after == gs.after && (fs.LastField? <==> gs.LastField?) && (fs.MoreFields? ==> fs.rest == gs.rest)
    decreases fs, 0
  {
    var u := OneLines(inp, t, fs.after, PastField(fs), gs.after, PastField(gs));
    if fs.MoreFields? {
      var w := MarkTaken(inp, u, Lexeme(Kind.Comma, [COMMA], false), PrintFields(fs.rest));
      var w' := MarkTaken(inp, u, Lexeme(Kind.Comma, [COMMA], false), PrintFields(gs.rest));
      OneFields(inp, w, fs.rest, gs.rest);
    }
  }

  lemma {:induction false} OneField(inp: Str, t: Token, k: Str, v: Value, k': Str, v': Value)
    requires Shaped(inp, t) && Read(inp, t, PrintField(k, v)).Some? && Read(inp, t, PrintField(k', v')).Some?
    ensures k == k' && v == v'
    decreases v, 1
  {
    var equals := Lexeme(Equal, [EQUALS], false);
    var u := MarkTaken(inp, t, Lexeme(Kind.String, k, false), Mark(Equal, EQUALS) + PrintValue(v));
    var u' := MarkTaken(inp, t, Lexeme(Kind.String, k', false), Mark(Equal, EQUALS) + PrintValue(v'));
    var w := MarkTaken(inp, u, equals, PrintValue(v));
    var w' := MarkTaken(inp, u, equals, PrintValue(v'));
    OneValue(inp, w, v, v');
  }

  // ---- Statements ----

  lemma {:induction false} OnePath(inp: Str, t: Token, keys: seq<Str>, keys': seq<Str>, close: seq<Lexeme>)
    requires Shaped(inp, t) && close != [] && close[0].kind == RBracket
    requires Read(inp, t, PrintPath(keys) + close).Some? && Read(inp, t, PrintPath(keys') + close).Some?
    ensures keys == keys'
    decreases |keys|
  {
    FirstRead(inp, t, PrintPath(keys) + close);
    FirstRead(inp, t, PrintPath(keys') + close);
    if keys != [] && keys' != [] {
      var u := KeyRead(inp, t, keys, close);
      var u' := KeyRead(inp, t, keys', close);
      if |keys| > 1 && |keys'| > 1 {
        var dot := Lexeme(Kind.Dot, [DOT], true);
        var w := MarkTaken(inp, u, dot, PrintPath(keys[1..]) + close);
        var w' := MarkTaken(inp, u, dot, PrintPath(keys'[1..]) + close);
        OnePath(inp, w, keys[1..], keys'[1..], close);
      }
      FirstAndRest(keys, keys');
    }
  }

  /** The first key of a path, and the token after it. */
  lemma KeyRead(inp: Str, t: Token, keys: seq<Str>, close: seq<Lexeme>) returns (u: Token)
    requires Shaped(inp, t) && keys != [] && close != [] && close[0].kind == RBracket
    requires Read(inp, t, PrintPath(keys) + close).Some?
    ensures Text(inp, t) == keys[0] && Next(inp, t, true) == Tok(u) && Shaped(inp, u)
    ensures u.kind == if |keys| == 1 then RBracket else Kind.Dot
    ensures |keys| > 1 ==> Read(inp, u, [Lexeme(Kind.Dot, [DOT], true)] + (PrintPath(keys[1..]) + close)).Some?
  {
    var rest := if |keys| == 1 then close else DotMark(Kind.Dot, DOT) + (PrintPath(keys[1..]) + close);
    assert PrintPath(keys) + close == [Lexeme(Kind.String, keys[0], true)] + rest;
    u := MarkTaken(inp, t, Lexeme(Kind.String, keys[0], true), rest);
    FirstRead(inp, u, rest);
  }

  lemma OneHeader(inp: Str, t: Token, s: Stmt, s': Stmt)
    requires s.Header? && s'.Header? && Shaped(inp, t) && Read(inp, t, Print(s)).Some? && Read(inp, t, Print(s')).Some?
    ensures s == s'
  {
    var u, w := PathRead(inp, t, s.double, s.keys);
    var u', w' := PathRead(inp, t, s'.double, s'.keys);
    OnePath(inp, w, s.keys, s'.keys, PrintClose(s.double));
  }

  /** The opening brackets, and the token after each. */
  lemma PathRead(inp: Str, t: Token, double: bool, keys: seq<Str>) returns (u: Token, w: Token)
    requires Shaped(inp, t) && Read(inp, t, Print(Header(double, keys))).Some?
    ensures Next(inp, t, true) == Tok(u) && (double <==> u.kind == LBracket)
    ensures if double then Next(inp, u, true) == Tok(w) else w == u
    ensures Shaped(inp, w) && Read(inp, w, PrintPath(keys) + PrintClose(double)).Some?
  {
    var open, rest := Lexeme(LBracket, [LBRACKET], true), PrintPath(keys) + PrintClose(double);
    if double {
      assert Print(Header(double, keys)) == [open] + ([open] + rest);
      u := MarkTaken(inp, t, open, [open] + rest);
      w := MarkTaken(inp, u, open, rest);
    } else {
      u := MarkTaken(inp, t, open, rest);
      FirstRead(inp, u, rest);
      w := u;
    }
  }

  lemma OneStmt(inp: Str, t: Token, s: Stmt, s': Stmt)
    requires Shaped(inp, t) && ReadStmt(inp, t, s).Some? && ReadStmt(inp, t, s').Some?
    ensures s == s'
  {
    FirstRead(inp, t, Print(s));
    FirstRead(inp, t, Print(s'));
    match s
    case Blank =>
    case Entry(k, v, end) =>
      ReadConcat(inp, t, PrintField(k, v), [Lexeme(Newline, end, false)]);
      ReadConcat(inp, t, PrintField(s'.key, s'.v), [Lexeme(Newline, s'.end, false)]);
      OneField(inp, t, k, v, s'.key, s'.v);
    case Header(_, _) => OneHeader(inp, t, s, s');
  }

  lemma {:induction false} OneReading(inp: Str, t: Token, ss: seq<Stmt>, ss': seq<Stmt>)
    requires Shaped(inp, t) && ReadAll(inp, t, ss).Some? && ReadAll(inp, t, ss').Some?
    requires ReadAll(inp, t, ss).value.eof && ReadAll(inp, t, ss').value.eof
    ensures ss == ss'
    decreases |ss|
  {
    if ss != [] { NotAtEnd(inp, t, ss[0]); }
    if ss' != [] { NotAtEnd(inp, t, ss'[0]); }
    if ss != [] && ss' != [] {
      OneStmt(inp, t, ss[0], ss'[0]);
      OneReading(inp, ReadStmt(inp, t, ss[0]).value, ss[1..], ss'[1..]);
      FirstAndRest(ss, ss');
    }
  }

  lemma FirstAndRest<T>(xs: seq<T>, ys: seq<T>)
    requires xs != [] && ys != [] && xs[0] == ys[0] && xs[1..] == ys[1..]
    ensures xs == ys
  {
    assert xs == [xs[0]] + xs[1..] && ys == [ys[0]] + ys[1..];
  }

  /** No statement begins at the end of file. */
  lemma NotAtEnd(inp: Str, t: Token, s: Stmt)
    requires Shaped(inp, t) && ReadStmt(inp, t, s).Some?
    ensures !t.eof
  {
    FirstRead(inp, t, Print(s));
  }

  // ---- Main results ----

  /** The grammar is unambiguous. */
  lemma SpelledOnce(inp: Str, ss: seq<Stmt>, ss': seq<Stmt>)
    requires Spells(inp, ss) && Spells(inp, ss')
    ensures ss == ss'
  {
    NextOk(inp, START, true);
    OneReading(inp, Next(inp, START, true).tok, ss, ss');
  }

  /** `toml_parse` accepts an input that spells statements exactly when these execute. */
  lemma ParseDecides(env: Env, ss: seq<Stmt>)
    requires Spells(env.inp, ss)
    ensures Parse(env).Going? <==> ExecAll(env.foreign, Place(EMPTY, ROOT), ss).Some?
    ensures Parse(env).Going? ==> Parse(env).st.heap == ExecAll(env.foreign, Place(EMPTY, ROOT), ss).value.heap
  {
    if ExecAll(env.foreign, Place(EMPTY, ROOT), ss).Some? {
      ParseAccepts(env, ss);
    }
    if Parse(env).Going? {
      ParseAcceptsOnly(env);
      var ss' :| Spells(env.inp, ss') && ExecAll(env.foreign, Place(EMPTY, ROOT), ss').Some?;
      SpelledOnce(env.inp, ss, ss');
    }
  }
}
