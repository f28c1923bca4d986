/**
  * Whole documents: `toml_parse` accepts exactly the inputs whose tokens spell a
  * sequence of statements that executes, and returns what the execution builds.
  */
module Language {
  import opened Bytes
  import opened Lexer
  import opened Store
  import opened Keys
  import opened Grammar
  import opened Eval
  import opened Parser
  import opened Document
  import Recognizer

  /**
    * A blank line, a key-value with the text of the NEWLINE after it (empty at the
    * end of file), or a header with the texts of its keys.
    */
  datatype Stmt = Blank | Entry(key: Str, v: Value, end: Str) | Header(double: bool, keys: seq<Str>)

  function DotMark(kind: Kind, b: Byte): seq<Lexeme> { [Lexeme(kind, [b], true)] }

  /** Keys between dots; inside a header `.` is a token. */
  function PrintPath(keys: seq<Str>): seq<Lexeme> {
    if keys == [] then []
    else if |keys| == 1 then [Lexeme(Kind.String, keys[0], true)]
    else [Lexeme(Kind.String, keys[0], true)] + (DotMark(Kind.Dot, DOT) + PrintPath(keys[1..]))
  }

  function PrintClose(double: bool): seq<Lexeme> {
    if double then Mark(RBracket, RBRACKET) + Mark(RBracket, RBRACKET) else Mark(RBracket, RBRACKET)
  }

  function PrintOpen(double: bool): seq<Lexeme> {
    if double then DotMark(LBracket, LBRACKET) + DotMark(LBracket, LBRACKET) else DotMark(LBracket, LBRACKET)
  }

  function Print(s: Stmt): seq<Lexeme> {
    match s
    case Blank => [Lexeme(Newline, [LF], true)]
    case Entry(k, v, end) => PrintField(k, v) + [Lexeme(Newline, end, false)]
    case Header(double, keys) => PrintOpen(double) + (PrintPath(keys) + PrintClose(double))
  }

  /** The token after a statement; after a header it must be a NEWLINE, which belongs to the next statement. */
  function ReadStmt(inp: Str, t: Token, s: Stmt): (r: Option<Token>)
    ensures r.Some? && Shaped(inp, t) ==> Shaped(inp, r.value)
  {
    match Read(inp, t, Print(s))
    case None => None
    case Some(u) => if s.Header? && u.kind != Newline then None else Some(u)
  }

  function ReadAll(inp: Str, t: Token, ss: seq<Stmt>): (r: Option<Token>)
    ensures r.Some? && Shaped(inp, t) ==> Shaped(inp, r.value)
    decreases |ss|
  {
    if ss == [] then Some(t)
    else match ReadStmt(inp, t, ss[0])
      case None => None
      case Some(u) => ReadAll(inp, u, ss[1..])
  }

  // ---- Executing statements ----

  function KeyNames(keys: seq<Str>): Option<seq<Str>> {
    if keys == [] then Some([])
    else if KeyOf(keys[0]).Key? && KeyNames(keys[1..]).Some? then
      Some([KeyOf(keys[0]).name] + KeyNames(keys[1..]).value)
    else None
  }

  datatype Place = Place(heap: Heap, cur: nat)

  ghost predicate PlaceOk(p: Place) {
    |p.heap| > 0 && p.heap[ROOT].Tab? && p.cur < |p.heap| && p.heap[p.cur].Tab?
  }

  /** What a statement does to the document and the current table; None when it is refused. */
  function Exec(f: Foreign, p: Place, s: Stmt): (r: Option<Place>)
    requires PlaceOk(p)
    ensures r.Some? ==> PlaceOk(r.value) && Grows(p.heap, r.value.heap)
  {
    match s
    case Blank => Some(p)
    case Entry(k, v, _) =>
      (match EvalField(f, p.heap, p.cur, k, v)
       case None => None
       case Some(h) =>
         assert NodeGrows(p.heap[ROOT], h[ROOT]) && NodeGrows(p.heap[p.cur], h[p.cur]);
         Some(Place(h, p.cur)))
    case Header(double, keys) =>
      match KeyNames(keys)
      case None => None
      case Some(names) =>
        if !(0 < |names| <= MAX_PATH) then None
        else match (if double then SelectElement(p.heap, names) else SelectTable(p.heap, names))
          case Unselected(_, _, _) => None
          case Current(h, id) => assert NodeGrows(p.heap[ROOT], h[ROOT]); Some(Place(h, id))
  }

  function ExecAll(f: Foreign, p: Place, ss: seq<Stmt>): (r: Option<Place>)
    requires PlaceOk(p)
    ensures r.Some? ==> PlaceOk(r.value)
    decreases |ss|
  {
    if ss == [] then Some(p)
    else match Exec(f, p, ss[0])
      case None => None
      case Some(q) => ExecAll(f, q, ss[1..])
  }

  // ---- Marks, in either mode ----

  lemma MarkGiven(inp: Str, t: Token, l: Lexeme, u: Token)
    requires Shaped(inp, t) && t.kind == l.kind && Text(inp, t) == l.text && Next(inp, t, l.dot) == Tok(u)
    ensures Read(inp, t, [l]) == Some(u) && Shaped(inp, u)
  {
    ReadOne(inp, t, l, []);
    assert [l] == [l] + [];
    NextOk(inp, t, l.dot);
  }

  lemma MarkTaken(inp: Str, t: Token, l: Lexeme, rest: seq<Lexeme>) returns (u: Token)
    requires Shaped(inp, t) && Read(inp, t, [l] + rest).Some?
    ensures t.kind == l.kind && Text(inp, t) == l.text && Next(inp, t, l.dot) == Tok(u) && Shaped(inp, u)
    ensures Read(inp, u, rest) == Read(inp, t, [l] + rest)
  {
    ReadOne(inp, t, l, rest);
    u := Next(inp, t, l.dot).tok;
    NextOk(inp, t, l.dot);
  }

  lemma PunctuationText(inp: Str, t: Token, b: Byte)
    requires Shaped(inp, t) && t.kind != Newline && t.kind != Kind.String && Punctuation(b, true) == Some(t.kind)
    ensures Text(inp, t) == [b]
  {
    assert Text(inp, t) == [inp[t.ptr]];
  }

  // ---- Paths ----

  lemma KeyNamesCons(key: Str, rest: seq<Str>)
    ensures KeyNames([key] + rest) ==
            if KeyOf(key).Key? && KeyNames(rest).Some? then Some([KeyOf(key).name] + KeyNames(rest).value) else None
  {
    assert ([key] + rest)[1..] == rest;
  }

  lemma LastKeyTaken(inp: Str, t: Token, line: nat, names: seq<Str>, toks: seq<Token>, key: Str, end: Token)
    requires Shaped(inp, t) && |names| == |toks| < MAX_PATH && KeyOf(key).Key?
    requires Read(inp, t, PrintPath([key])) == Some(end) && end.kind == RBracket
    ensures FillPath(inp, t, line, names, toks) == Path(names + [KeyOf(key).name], toks + [t], end)
  {
    assert PrintPath([key]) == [Lexeme(Kind.String, key, true)] + [];
    var u := MarkTaken(inp, t, Lexeme(Kind.String, key, true), []);
  }

  /** A key, a dot, and what follows. */
  lemma KeyTaken(inp: Str, t: Token, line: nat, names: seq<Str>, toks: seq<Token>, key: Str, rest: seq<Lexeme>,
                 end: Token)
    returns (w: Token)
    requires Shaped(inp, t) && |names| == |toks| < MAX_PATH && KeyOf(key).Key?
    requires Read(inp, t, [Lexeme(Kind.String, key, true)] + (DotMark(Kind.Dot, DOT) + rest)) == Some(end)
    ensures Shaped(inp, w) && Read(inp, w, rest) == Some(end)
    ensures FillPath(inp, t, line, names, toks) == FillPath(inp, w, line, names + [KeyOf(key).name], toks + [t])
  {
    var u := MarkTaken(inp, t, Lexeme(Kind.String, key, true), DotMark(Kind.Dot, DOT) + rest);
    w := MarkTaken(inp, u, Lexeme(Kind.Dot, [DOT], true), rest);
  }

  lemma {:induction false} PathTaken(inp: Str, t: Token, line: nat, names: seq<Str>, toks: seq<Token>, keys: seq<Str>,
                                     end: Token)
    returns (toks': seq<Token>)
    requires Shaped(inp, t) && |names| == |toks| && keys != [] && |names| + |keys| <= MAX_PATH
    requires Read(inp, t, PrintPath(keys)) == Some(end) && end.kind == RBracket && KeyNames(keys).Some?
    ensures FillPath(inp, t, line, names, toks) == Path(names + KeyNames(keys).value, toks', end)
    decreases |keys|
  {
    var key, rest := keys[0], keys[1..];
    assert keys == [key] + rest;
    KeyNamesCons(key, rest);
    if rest == [] {
      LastKeyTaken(inp, t, line, names, toks, key, end);
      toks' := toks + [t];
    } else {
      var w := KeyTaken(inp, t, line, names, toks, key, PrintPath(rest), end);
      toks' := PathTaken(inp, w, line, names + [KeyOf(key).name], toks + [t], rest, end);
      Assoc(names, [KeyOf(key).name], KeyNames(rest).value);
    }
  }

  lemma {:induction false} PathGiven(inp: Str, t: Token, line: nat, names: seq<Str>, toks: seq<Token>, p: Filled)
    returns (keys: seq<Str>)
    requires Shaped(inp, t) && |names| == |toks| <= MAX_PATH && FillPath(inp, t, line, names, toks) == p && p.Path?
    ensures keys != [] && Read(inp, t, PrintPath(keys)) == Some(p.tok)
    ensures KeyNames(keys).Some? && p.names == names + KeyNames(keys).value
    decreases |inp| - t.ptr
  {
    var key := Text(inp, t);
    var u := Next(inp, t, true).tok;
    MarkGiven(inp, t, Lexeme(Kind.String, key, true), u);
    if u.kind == RBracket {
      keys := [key];
      KeyNamesCons(key, []);
      assert [key] + [] == [key];
    } else {
      var w := Next(inp, u, true).tok;
      DotGiven(inp, u, w);
      var rest := PathGiven(inp, w, line, names + [KeyOf(key).name], toks + [t], p);
      keys := [key] + rest;
      KeyNamesCons(key, rest);
      Assoc(names, [KeyOf(key).name], KeyNames(rest).value);
      Recognizer.Glue(inp, u, DotMark(Kind.Dot, DOT), PrintPath(rest), w, p.tok);
      Recognizer.Glue(inp, t, [Lexeme(Kind.String, key, true)], DotMark(Kind.Dot, DOT) + PrintPath(rest), u, p.tok);
      PrintPathCons(key, rest);
    }
  }

  lemma DotGiven(inp: Str, u: Token, w: Token)
    requires Shaped(inp, u) && u.kind == Kind.Dot && Next(inp, u, true) == Tok(w)
    ensures Read(inp, u, DotMark(Kind.Dot, DOT)) == Some(w) && Shaped(inp, w)
  {
    PunctuationText(inp, u, DOT);
    MarkGiven(inp, u, Lexeme(Kind.Dot, [DOT], true), w);
  }

  lemma PrintPathCons(key: Str, rest: seq<Str>)
    requires rest != []
    ensures PrintPath([key] + rest) == [Lexeme(Kind.String, key, true)] + (DotMark(Kind.Dot, DOT) + PrintPath(rest))
  {
    assert ([key] + rest)[1..] == rest;
  }

  // ---- Headers ----

  lemma CloseTaken(inp: Str, st: State, t: Token, double: bool, end: Token)
    requires Shaped(inp, t) && Read(inp, t, PrintClose(double)) == Some(end) && end.kind == Newline
    ensures t.kind == RBracket && CloseHeader(inp, st, t, double) == Going(st, end)
  {
    var l := Lexeme(RBracket, [RBRACKET], false);
    if double {
      var u := MarkTaken(inp, t, l, [l]);
      assert [l] == [l] + [];
      var w := MarkTaken(inp, u, l, []);
      assert CloseHeader(inp, st, u, false) == Going(st, end);
    } else {
      assert [l] == [l] + [];
      var u := MarkTaken(inp, t, l, []);
    }
  }

  lemma CloseGiven(inp: Str, st: State, t: Token, double: bool)
    requires Shaped(inp, t) && t.kind == RBracket && CloseHeader(inp, st, t, double).Going?
    ensures var r := CloseHeader(inp, st, t, double);
            Read(inp, t, PrintClose(double)) == Some(r.tok) && r.tok.kind == Newline
  {
    var l := Lexeme(RBracket, [RBRACKET], false);
    var u := Next(inp, t, false).tok;
    PunctuationText(inp, t, RBRACKET);
    MarkGiven(inp, t, l, u);
    if double {
      var w := Next(inp, u, false).tok;
      PunctuationText(inp, u, RBRACKET);
      MarkGiven(inp, u, l, w);
      assert CloseHeader(inp, st, u, false) == CloseHeader(inp, st, t, double);
      Recognizer.Glue(inp, t, [l], [l], u, w);
    }
  }

  /** Past the opening brackets. */
  lemma BodyTaken(inp: Str, st: State, t: Token, double: bool, keys: seq<Str>, end: Token, f: Foreign)
    requires StateOk(st) && Shaped(inp, t)
    requires Read(inp, t, PrintPath(keys) + PrintClose(double)) == Some(end) && end.kind == Newline
    requires Exec(f, Place(st.heap, st.cur), Header(double, keys)).Some?
    ensures t.kind == Kind.String
    ensures var q := Exec(f, Place(st.heap, st.cur), Header(double, keys)).value;
            var r := FillAndEnter(inp, st, t, double);
            r.Going? && r.tok == end && r.st.heap == q.heap && r.st.cur == q.cur
  {
    assert KeyNames([]) == Some([]);
    KeyNamesLength(keys);
    ReadConcat(inp, t, PrintPath(keys), PrintClose(double));
    var u := Read(inp, t, PrintPath(keys)).value;
    assert PrintPath(keys)[0] == Lexeme(Kind.String, keys[0], true);
    var q := Exec(f, Place(st.heap, st.cur), Header(double, keys)).value;
    var names := KeyNames(keys).value;
    CloseTaken(inp, State(q.heap, q.cur, names[..|names| - 1]), u, double, end);
    var toks := PathTaken(inp, t, t.lineno, [], [], keys, u);
    assert [] + names == names;
  }

  lemma {:induction false} KeyNamesLength(keys: seq<Str>)
    ensures KeyNames(keys).Some? ==> |KeyNames(keys).value| == |keys|
  {
    if keys != [] {
      KeyNamesLength(keys[1..]);
    }
  }

  /** Entering a path is executing the header. */
  lemma {:induction false} EnterExecutes(inp: Str, st: State, p: Filled, double: bool, keys: seq<Str>, f: Foreign)
    requires StateOk(st) && p.Path? && Shaped(inp, p.tok) && p.tok.kind == RBracket
    requires 0 < |p.names| == |p.toks| <= MAX_PATH
    requires KeyNames(keys) == Some(p.names) && Enter(inp, st, p, double).Going?
    ensures var r := Enter(inp, st, p, double);
            && CloseHeader(inp, r.st, p.tok, double) == r
            && Exec(f, Place(st.heap, st.cur), Header(double, keys)) == Some(Place(r.st.heap, r.st.cur))
  {
  }

  lemma BodyGiven(inp: Str, st: State, t: Token, double: bool, f: Foreign) returns (keys: seq<Str>)
    requires StateOk(st) && Shaped(inp, t) && FillAndEnter(inp, st, t, double).Going?
    ensures var r := FillAndEnter(inp, st, t, double);
            && Read(inp, t, PrintPath(keys) + PrintClose(double)) == Some(r.tok) && r.tok.kind == Newline
            && Exec(f, Place(st.heap, st.cur), Header(double, keys)) == Some(Place(r.st.heap, r.st.cur))
  {
    var r := FillAndEnter(inp, st, t, double);
    var p := FillPath(inp, t, t.lineno, [], []);
    keys := PathGiven(inp, t, t.lineno, [], [], p);
    assert [] + KeyNames(keys).value == KeyNames(keys).value;
    EnterExecutes(inp, st, p, double, keys, f);
    CloseGiven(inp, r.st, p.tok, double);
    Recognizer.Glue(inp, t, PrintPath(keys), PrintClose(double), p.tok, r.tok);
  }

  // ---- Statements ----

  lemma StatementTaken(env: Env, st: State, t: Token, s: Stmt, end: Token)
    requires StateOk(st) && Shaped(env.inp, t) && ReadStmt(env.inp, t, s) == Some(end)
    requires Exec(env.foreign, Place(st.heap, st.cur), s).Some?
    ensures !t.eof
    ensures var q := Exec(env.foreign, Place(st.heap, st.cur), s).value;
            var r := Statement(env, st, t);
            r.Going? && r.tok == end && r.st.heap == q.heap && r.st.cur == q.cur
  {
    match s
    case Blank =>
      assert Print(s) == [Lexeme(Newline, [LF], true)] + [];
      var u := MarkTaken(env.inp, t, Lexeme(Newline, [LF], true), []);
    case Entry(k, v, text) =>
      EntryTaken(env, st, t, k, v, text, end);
    case Header(double, keys) =>
      HeaderTaken(env, st, t, double, keys, end);
  }

  lemma EntryTaken(env: Env, st: State, t: Token, k: Str, v: Value, text: Str, end: Token)
    requires StateOk(st) && Shaped(env.inp, t)
    requires Read(env.inp, t, PrintField(k, v) + [Lexeme(Newline, text, false)]) == Some(end)
    requires EvalField(env.foreign, st.heap, st.cur, k, v).Some?
    ensures !t.eof
    ensures Statement(env, st, t) == Going(st.(heap := EvalField(env.foreign, st.heap, st.cur, k, v).value), end)
  {
    var h := EvalField(env.foreign, st.heap, st.cur, k, v).value;
    var nl := Lexeme(Newline, text, false);
    ReadConcat(env.inp, t, PrintField(k, v), [nl]);
    var u := Read(env.inp, t, PrintField(k, v)).value;
    Recognizer.FieldParsed(env, st.heap, t, st.cur, k, v, h, u);
    assert [nl] == [nl] + [];
    var w := MarkTaken(env.inp, u, nl, []);
  }

  /** The opening brackets: what is left is the path and the closing ones. */
  lemma OpenTaken(inp: Str, t: Token, double: bool, body: seq<Lexeme>, end: Token) returns (w: Token)
    requires Shaped(inp, t) && Read(inp, t, PrintOpen(double) + body) == Some(end)
    ensures !t.eof && t.kind == LBracket && Shaped(inp, w) && Read(inp, w, body) == Some(end)
    ensures Next(inp, t, true).Tok? && var u := Next(inp, t, true).tok;
            if double then u.kind == LBracket && Next(inp, u, true) == Tok(w) else w == u
  {
    var l := Lexeme(LBracket, [LBRACKET], true);
    if double {
      assert PrintOpen(double) + body == [l] + ([l] + body);
      var u := MarkTaken(inp, t, l, [l] + body);
      w := MarkTaken(inp, u, l, body);
    } else {
      w := MarkTaken(inp, t, l, body);
    }
  }

  lemma HeaderTaken(env: Env, st: State, t: Token, double: bool, keys: seq<Str>, end: Token)
    requires StateOk(st) && Shaped(env.inp, t)
    requires Read(env.inp, t, Print(Header(double, keys))) == Some(end) && end.kind == Newline
    requires Exec(env.foreign, Place(st.heap, st.cur), Header(double, keys)).Some?
    ensures !t.eof && t.kind == LBracket
    ensures var q := Exec(env.foreign, Place(st.heap, st.cur), Header(double, keys)).value;
            var r := ParseSelect(env.inp, st, t);
            r.Going? && r.tok == end && r.st.heap == q.heap && r.st.cur == q.cur
  {
    var w := OpenTaken(env.inp, t, double, PrintPath(keys) + PrintClose(double), end);
    BodyTaken(env.inp, st, w, double, keys, end, env.foreign);
  }

  lemma StatementGiven(env: Env, st: State, t: Token) returns (s: Stmt)
    requires StateOk(st) && Shaped(env.inp, t) && !t.eof && Statement(env, st, t).Going?
    ensures var r := Statement(env, st, t);
            && ReadStmt(env.inp, t, s) == Some(r.tok)
            && Exec(env.foreign, Place(st.heap, st.cur), s) == Some(Place(r.st.heap, r.st.cur))
  {
    var r := Statement(env, st, t);
    match t.kind
    case Newline =>
      s := Blank;
      assert Text(env.inp, t) == [LF];
      MarkGiven(env.inp, t, Lexeme(Newline, [LF], true), r.tok);
    case String =>
      var k, v, end := EntryGiven(env, st, t);
      s := Entry(k, v, end);
    case LBracket =>
      var double, keys := HeaderGiven(env, st, t);
      s := Header(double, keys);
  }

  lemma EntryGiven(env: Env, st: State, t: Token) returns (k: Str, v: Value, end: Str)
    requires StateOk(st) && Shaped(env.inp, t) && t.kind == Kind.String && Statement(env, st, t).Going?
    ensures var r := Statement(env, st, t);
            && Read(env.inp, t, PrintField(k, v) + [Lexeme(Newline, end, false)]) == Some(r.tok)
            && EvalField(env.foreign, st.heap, st.cur, k, v) == Some(r.st.heap) && r.st.cur == st.cur
  {
    var r := Statement(env, st, t);
    var p := ParseKeyval(env, st.heap, t, st.cur);
    k, v := Recognizer.FieldSpelled(env, st.heap, t, st.cur, p.heap, p.tok);
    end := Text(env.inp, p.tok);
    MarkGiven(env.inp, p.tok, Lexeme(Newline, end, false), r.tok);
    Recognizer.Glue(env.inp, t, PrintField(k, v), [Lexeme(Newline, end, false)], p.tok, r.tok);
  }

  lemma HeaderGiven(env: Env, st: State, t: Token) returns (double: bool, keys: seq<Str>)
    requires StateOk(st) && Shaped(env.inp, t) && t.kind == LBracket && ParseSelect(env.inp, st, t).Going?
    ensures var r := ParseSelect(env.inp, st, t);
            && ReadStmt(env.inp, t, Header(double, keys)) == Some(r.tok)
            && Exec(env.foreign, Place(st.heap, st.cur), Header(double, keys)) == Some(Place(r.st.heap, r.st.cur))
  {
    var r := ParseSelect(env.inp, st, t);
    var u := Next(env.inp, t, true).tok;
    OpenGiven(env.inp, t, u);
    double := u.kind == LBracket;
    if double {
      var w := Next(env.inp, u, true).tok;
      OpenGiven(env.inp, u, w);
      keys := BodyGiven(env.inp, st, w, double, env.foreign);
      Recognizer.Glue(env.inp, t, PrintOpen(false), PrintOpen(false), u, w);
      HeaderRead(env.inp, t, double, keys, w, r.tok);
    } else {
      keys := BodyGiven(env.inp, st, u, double, env.foreign);
      HeaderRead(env.inp, t, double, keys, u, r.tok);
    }
  }

  lemma HeaderRead(inp: Str, t: Token, double: bool, keys: seq<Str>, w: Token, end: Token)
    requires Read(inp, t, PrintOpen(double)) == Some(w) && end.kind == Newline
    requires Read(inp, w, PrintPath(keys) + PrintClose(double)) == Some(end)
    ensures ReadStmt(inp, t, Header(double, keys)) == Some(end)
  {
    Recognizer.Glue(inp, t, PrintOpen(double), PrintPath(keys) + PrintClose(double), w, end);
  }

  lemma OpenGiven(inp: Str, t: Token, u: Token)
    requires Shaped(inp, t) && t.kind == LBracket && Next(inp, t, true) == Tok(u)
    ensures Read(inp, t, PrintOpen(false)) == Some(u) && Shaped(inp, u)
  {
    PunctuationText(inp, t, LBRACKET);
    MarkGiven(inp, t, Lexeme(LBracket, [LBRACKET], true), u);
  }

  // ---- Documents ----

  lemma {:induction false} StatementsTaken(env: Env, st: State, t: Token, ss: seq<Stmt>)
    requires StateOk(st) && Shaped(env.inp, t)
    requires ReadAll(env.inp, t, ss).Some? && ReadAll(env.inp, t, ss).value.eof
    requires ExecAll(env.foreign, Place(st.heap, st.cur), ss).Some?
    ensures var r := Statements(env, st, t);
            r.Going? && r.st.heap == ExecAll(env.foreign, Place(st.heap, st.cur), ss).value.heap
    decreases |ss|
  {
    if ss != [] {
      var u := ReadStmt(env.inp, t, ss[0]).value;
      StatementTaken(env, st, t, ss[0], u);
      StatementsTaken(env, Statement(env, st, t).st, u, ss[1..]);
    }
  }

  lemma {:induction false} StatementsGiven(env: Env, st: State, t: Token) returns (ss: seq<Stmt>)
    requires StateOk(st) && Shaped(env.inp, t) && Statements(env, st, t).Going?
    ensures ReadAll(env.inp, t, ss).Some? && ReadAll(env.inp, t, ss).value.eof
    ensures var p := ExecAll(env.foreign, Place(st.heap, st.cur), ss);
            p.Some? && p.value.heap == Statements(env, st, t).st.heap
    decreases |env.inp| - t.ptr
  {
    if t.eof {
      ss := [];
    } else {
      var s := StatementGiven(env, st, t);
      var r := Statement(env, st, t);
      var rest := StatementsGiven(env, r.st, r.tok);
      ss := [s] + rest;
      assert ss[1..] == rest;
    }
  }

  /** The tokens of the input, from its first on, spell these statements up to the end of file. */
  ghost predicate Spells(inp: Str, ss: seq<Stmt>) {
    && Next(inp, START, true).Tok?
    && ReadAll(inp, Next(inp, START, true).tok, ss).Some?
    && ReadAll(inp, Next(inp, START, true).tok, ss).value.eof
  }

  /** Every spelled-out document that executes is parsed, to what it executes to. */
  lemma ParseAccepts(env: Env, ss: seq<Stmt>)
    requires Spells(env.inp, ss) && ExecAll(env.foreign, Place(EMPTY, ROOT), ss).Some?
    ensures Parse(env).Going? && Parse(env).st.heap == ExecAll(env.foreign, Place(EMPTY, ROOT), ss).value.heap
  {
    NextOk(env.inp, START, true);
    StatementsTaken(env, INITIAL, Next(env.inp, START, true).tok, ss);
  }

  /** Nothing else is parsed. */
  lemma ParseAcceptsOnly(env: Env)
    requires Parse(env).Going?
    ensures exists ss :: Spells(env.inp, ss) && ExecAll(env.foreign, Place(EMPTY, ROOT), ss).Some?
                         && ExecAll(env.foreign, Place(EMPTY, ROOT), ss).value.heap == Parse(env).st.heap
  {
    NextOk(env.inp, START, true);
    var ss := StatementsGiven(env, INITIAL, Next(env.inp, START, true).tok);
    assert Spells(env.inp, ss);
  }
}
