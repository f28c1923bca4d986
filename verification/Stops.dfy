/**
  * Where the descent over values stops: how far a value has been read and built
  * when an error is raised, and which error that is.
  */
module Stops {
  import opened Bytes
  import opened Lexer
  import opened Store
  import opened Grammar
  import opened Eval
  import opened Parser
  import opened Recognizer

  // ---- Values as far as they have been read ----

  datatype OpenValue = OpenArray(elems: OpenElems) | OpenTable(fields: OpenFields)

  /**
    * `[` has been read, and then: newlines; an element and newlines; more of these
    * after a comma; or an element that is read in part itself.
    */
  datatype OpenElems =
    | AwaitElem(before: nat)
    | AfterElem(before: nat, v: Value, after: nat)
    | ThenElems(before: nat, v: Value, after: nat, rest: OpenElems)
    | InElem(before: nat, inner: OpenValue)

  datatype OpenFields =
    | AwaitField(before: nat)
    | AfterField(before: nat, key: Str, v: Value, after: nat)
    | ThenFields(before: nat, key: Str, v: Value, after: nat, rest: OpenFields)
    | InField(before: nat, key: Str, inner: OpenValue)

  function PrintOpenValue(o: OpenValue): seq<Lexeme>
    decreases o, 0
  {
    match o
    case OpenArray(e) => Mark(LBracket, LBRACKET) + PrintOpenElems(e)
    case OpenTable(fs) => Mark(LBrace, LBRACE) + PrintOpenFields(fs)
  }

  function PrintOpenElems(e: OpenElems): seq<Lexeme> {
    match e
    case AwaitElem(n) => Lines(n)
    case AfterElem(n, v, m) => Lines(n) + (PrintValue(v) + Lines(m))
    case ThenElems(n, v, m, rest) =>
      Lines(n) + (PrintValue(v) + (Lines(m) + (Mark(Kind.Comma, COMMA) + PrintOpenElems(rest))))
    case InElem(n, o) => Lines(n) + PrintOpenValue(o)
  }

  function PrintOpenFields(fs: OpenFields): seq<Lexeme> {
    match fs
    case AwaitField(n) => Lines(n)
    case AfterField(n, k, v, m) => Lines(n) + (PrintField(k, v) + Lines(m))
    case ThenFields(n, k, v, m, rest) =>
      Lines(n) + (PrintField(k, v) + (Lines(m) + (Mark(Kind.Comma, COMMA) + PrintOpenFields(rest))))
    case InField(n, k, o) => Lines(n) + PrintOpenField(k, o)
  }

  function PrintOpenField(key: Str, o: OpenValue): seq<Lexeme>
    decreases o, 1
  {
    Word(key) + (Mark(Equal, EQUALS) + PrintOpenValue(o))
  }

  // ---- What they do to the document ----

  /** The place in the grammar where the next token is looked at, newlines being skipped there. */
  datatype Where = AtElem(a: nat) | PastElem(a: nat) | AtField(i: nat) | PastField(i: nat)

  /** The document so far, and that place. */
  datatype Stop = Stop(heap: Heap, at: Where)

  predicate StopOk(st: Stop) {
    match st.at
    case AtElem(a) => a < |st.heap| && st.heap[a].Arr?
    case PastElem(a) => a < |st.heap| && st.heap[a].Arr?
    case AtField(i) => i < |st.heap| && st.heap[i].Tab?
    case PastField(i) => i < |st.heap| && st.heap[i].Tab?
  }

  /** The document after what there is of the elements; None when one is refused. */
  function EvalOpenElems(f: Foreign, s: Heap, a: nat, e: OpenElems): (r: Option<Stop>)
    requires a < |s| && s[a].Arr?
    ensures r.Some? ==> StopOk(r.value)
    decreases e
  {
    match e
    case AwaitElem(_) => Some(Stop(s, AtElem(a)))
    case AfterElem(_, v, _) =>
      (match EvalElem(f, s, a, v)
       case None => None
       case Some(s') => assert NodeGrows(s[a], s'[a]); Some(Stop(s', PastElem(a))))
    case ThenElems(_, v, _, rest) =>
      (match EvalElem(f, s, a, v)
       case None => None
       case Some(s') => assert NodeGrows(s[a], s'[a]); EvalOpenElems(f, s', a, rest))
    case InElem(_, o) => EvalOpenElem(f, s, a, o)
  }

  function EvalOpenElem(f: Foreign, s: Heap, a: nat, o: OpenValue): (r: Option<Stop>)
    requires a < |s| && s[a].Arr?
    ensures r.Some? ==> StopOk(r.value)
    decreases o
  {
    match o
    case OpenArray(e) =>
      var b := AppendArray(s, a);
      if b.Refused? then None else EvalOpenElems(f, b.heap, b.id, e)
    case OpenTable(fs) =>
      var b := AppendTable(s, a);
      if b.Refused? then None else EvalOpenFields(f, b.heap, b.id, fs)
  }

  function EvalOpenFields(f: Foreign, s: Heap, i: nat, fs: OpenFields): (r: Option<Stop>)
    requires i < |s| && s[i].Tab?
    ensures r.Some? ==> StopOk(r.value)
    decreases fs
  {
    match fs
    case AwaitField(_) => Some(Stop(s, AtField(i)))
    case AfterField(_, k, v, _) =>
      (match EvalField(f, s, i, k, v)
       case None => None
       case Some(s') => assert NodeGrows(s[i], s'[i]); Some(Stop(s', PastField(i))))
    case ThenFields(_, k, v, _, rest) =>
      (match EvalField(f, s, i, k, v)
       case None => None
       case Some(s') => assert NodeGrows(s[i], s'[i]); EvalOpenFields(f, s', i, rest))
    case InField(_, k, o) => EvalOpenField(f, s, i, k, o)
  }

  function EvalOpenField(f: Foreign, s: Heap, i: nat, key: Str, o: OpenValue): (r: Option<Stop>)
    requires i < |s| && s[i].Tab?
    ensures r.Some? ==> StopOk(r.value)
    decreases o
  {
    match o
    case OpenArray(e) =>
      var b := CreateArray(s, i, key);
      if b.Refused? then None else EvalOpenElems(f, b.heap, b.id, e)
    case OpenTable(fs) =>
      var b := CreateTable(s, i, key);
      if b.Refused? then None else EvalOpenFields(f, b.heap, b.id, fs)
  }

  // ---- What is wrong at a token ----

  /** The error raised at a token, and the document it leaves. */
  datatype Fault = Fault(heap: Heap, err: Error)

  /** A token is in order, but the one after it is no token. */
  function Lexical(inp: Str, s: Heap, u: Token, dot: bool): Option<Fault>
    requires Within(inp, u)
  {
    match Next(inp, u, dot)
    case LexError(line) => Some(Fault(s, Error(SyntaxError, line)))
    case Tok(_) => None
  }

  /** A builder step is refused, on a line; or the token that asked for it is the last one that can be read. */
  function Refusal(inp: Str, b: Built, line: nat, u: Token): Option<Fault>
    requires Within(inp, u)
  {
    match b
    case Refused(h, why) => Some(Fault(h, Raised(why, line)))
    case Done(h, _) => Lexical(inp, h, u, false)
  }

  function Unexpected(s: Heap, u: Token): Option<Fault> { Some(Fault(s, Error(SyntaxError, u.lineno))) }

  /**
    * What is wrong with token `u` where the grammar stands, if anything. At the end
    * of file inside a bracket there is nothing to read any more.
    */
  function FaultAt(env: Env, st: Stop, u: Token): Option<Fault>
    requires Shaped(env.inp, u) && StopOk(st)
  {
    if u.kind == Newline then
      if !u.eof then Lexical(env.inp, st.heap, u, false)
      else if env.guard then Unexpected(st.heap, u)
      else Some(Fault(st.heap, Error(Spins, u.lineno)))
    else match st.at
      case AtElem(a) => ElemFault(env, st.heap, a, u)
      case PastElem(_) =>
        if u.kind == Kind.Comma || u.kind == RBracket then Lexical(env.inp, st.heap, u, false)
        else Unexpected(st.heap, u)
      case AtField(i) =>
        if u.kind == RBrace then Lexical(env.inp, st.heap, u, false)
        else if u.kind == Kind.String then KeyFault(env, st.heap, i, u)
        else Unexpected(st.heap, u)
      case PastField(_) =>
        if u.kind == Kind.Comma || u.kind == RBrace then Lexical(env.inp, st.heap, u, false) else Unexpected(st.heap, u)
  }

  /** An element, or `]`, is due. */
  function ElemFault(env: Env, s: Heap, a: nat, u: Token): Option<Fault>
    requires Shaped(env.inp, u) && a < |s| && s[a].Arr?
  {
    match u.kind
    case RBracket => Lexical(env.inp, s, u, false)
    case String => Refusal(env.inp, AppendScalar(env.foreign, s, a, Text(env.inp, u)), u.lineno, u)
    case LBracket => Refusal(env.inp, AppendArray(s, a), u.lineno, u)
    case LBrace => Refusal(env.inp, AppendTable(s, a), u.lineno, u)
    case _ => Unexpected(s, u)
  }

  /** A key has been read for table `i`; `=` and a value are due. A refused key is reported on its own line. */
  function KeyFault(env: Env, s: Heap, i: nat, key: Token): Option<Fault>
    requires Shaped(env.inp, key) && i < |s| && s[i].Tab?
  {
    match Next(env.inp, key, false)
    case LexError(line) => Some(Fault(s, Error(SyntaxError, line)))
    case Tok(e) =>
      if e.kind != Equal then Unexpected(s, e)
      else match Next(env.inp, e, false)
        case LexError(line) => Some(Fault(s, Error(SyntaxError, line)))
        case Tok(v) => NextOk(env.inp, e, false); ValueFault(env, s, i, key, v)
  }

  function ValueFault(env: Env, s: Heap, i: nat, key: Token, v: Token): Option<Fault>
    requires Within(env.inp, key) && Shaped(env.inp, v) && i < |s| && s[i].Tab?
  {
    var k := Text(env.inp, key);
    match v.kind
    case String => Refusal(env.inp, CreateVal(s, i, k, Text(env.inp, v)), key.lineno, v)
    case LBracket => Refusal(env.inp, CreateArray(s, i, k), key.lineno, v)
    case LBrace => Refusal(env.inp, CreateTable(s, i, k), key.lineno, v)
    case _ => Unexpected(s, v)
  }

  // ---- A fault stops the parser ----

  /** Newlines are skipped up to the token at which there is something else. */
  lemma {:induction false} LinesSkipped(env: Env, t: Token, n: nat, u: Token)
    requires Shaped(env.inp, t) && Read(env.inp, t, Lines(n)) == Some(u)
    ensures Shaped(env.inp, u) && SkipNewlines(env, t) == SkipNewlines(env, u)
    decreases n
  {
    if n > 0 {
      ReadOne(env.inp, t, NL, Lines(n - 1));
      NextOk(env.inp, t, false);
      LinesSkipped(env, Next(env.inp, t, false).tok, n - 1, u);
    }
  }

  lemma FirstOfOpen(o: OpenValue)
    ensures PrintOpenValue(o) != [] && PrintOpenValue(o)[0].kind in {LBracket, LBrace}
  {
  }

  /** The fault at the place where elements are looked at. */
  lemma AtElemFails(env: Env, s: Heap, t: Token, a: nat, n: nat, u: Token, x: Fault)
    requires Shaped(env.inp, t) && a < |s| && s[a].Arr? && Read(env.inp, t, Lines(n)) == Some(u)
    requires Shaped(env.inp, u) && FaultAt(env, Stop(s, AtElem(a)), u) == Some(x)
    ensures ParseElems(env, s, t, a) == Fail(x.heap, x.err)
  {
    LinesSkipped(env, t, n, u);
    if (u.kind != Newline || (u.eof && env.guard)) && u.kind != RBracket { ElemFails(env, s, u, a); }
  }

  lemma ElemFails(env: Env, s: Heap, u: Token, a: nat)
    requires Shaped(env.inp, u) && a < |s| && s[a].Arr? && u.kind != RBracket
    requires ElemFault(env, s, a, u).Some?
    ensures var x := ElemFault(env, s, a, u).value; ParseElem(env, s, u, a) == Fail(x.heap, x.err)
  {
  }

  lemma PastElemFails(env: Env, s: Heap, t: Token, a: nat, n: nat, u: Token, x: Fault)
    requires Shaped(env.inp, t) && a < |s| && s[a].Arr? && Read(env.inp, t, Lines(n)) == Some(u)
    requires Shaped(env.inp, u) && FaultAt(env, Stop(s, PastElem(a)), u) == Some(x)
    ensures ElemsTail(env, s, t, a) == Fail(x.heap, x.err)
  {
    LinesSkipped(env, t, n, u);
  }

  lemma AtFieldFails(env: Env, s: Heap, t: Token, i: nat, n: nat, u: Token, x: Fault)
    requires Shaped(env.inp, t) && i < |s| && s[i].Tab? && Read(env.inp, t, Lines(n)) == Some(u)
    requires Shaped(env.inp, u) && FaultAt(env, Stop(s, AtField(i)), u) == Some(x)
    ensures ParseFields(env, s, t, i) == Fail(x.heap, x.err)
  {
    LinesSkipped(env, t, n, u);
    if u.kind == Kind.String { KeyFails(env, s, u, i, x); }
  }

  lemma KeyFails(env: Env, s: Heap, t: Token, i: nat, x: Fault)
    requires Shaped(env.inp, t) && t.kind == Kind.String && i < |s| && s[i].Tab? && KeyFault(env, s, i, t) == Some(x)
    ensures ParseKeyval(env, s, t, i) == Fail(x.heap, x.err)
  {
    if Next(env.inp, t, false).Tok? {
      var e := Next(env.inp, t, false).tok;
      if e.kind == Equal && Next(env.inp, e, false).Tok? {
        NextOk(env.inp, e, false);
        ValueFails(env, s, t, Next(env.inp, e, false).tok, i, x);
      }
    }
  }

  lemma ValueFails(env: Env, s: Heap, key: Token, v: Token, i: nat, x: Fault)
    requires Shaped(env.inp, key) && key.kind == Kind.String && Shaped(env.inp, v) && i < |s| && s[i].Tab?
    requires ValueFault(env, s, i, key, v) == Some(x)
    ensures ParseEntry(env, s, key, v, i) == Fail(x.heap, x.err)
  {
  }

  lemma PastFieldFails(env: Env, s: Heap, t: Token, i: nat, n: nat, u: Token, x: Fault)
    requires Shaped(env.inp, t) && i < |s| && s[i].Tab? && Read(env.inp, t, Lines(n)) == Some(u)
    requires Shaped(env.inp, u) && FaultAt(env, Stop(s, PastField(i)), u) == Some(x)
    ensures FieldsTail(env, s, t, i) == Fail(x.heap, x.err)
  {
    LinesSkipped(env, t, n, u);
  }

  lemma {:induction false} ElemsStop(env: Env, s: Heap, t: Token, a: nat, e: OpenElems, st: Stop, u: Token, x: Fault)
    requires Shaped(env.inp, t) && a < |s| && s[a].Arr?
    requires Read(env.inp, t, PrintOpenElems(e)) == Some(u) && EvalOpenElems(env.foreign, s, a, e) == Some(st)
    requires FaultAt(env, st, u) == Some(x)
    ensures ParseElems(env, s, t, a) == Fail(x.heap, x.err)
    decreases e, 1
  {
    match e
    case AwaitElem(n) => AtElemFails(env, s, t, a, n, u, x);
    case AfterElem(n, v, m) =>
      var t1, t2 := HeadParsed(env, s, t, a, n, v, Lines(m), st.heap, u);
      PastElemFails(env, st.heap, t2, a, m, u, x);
    case ThenElems(n, v, m, rest) =>
      var tail := Lines(m) + (Mark(Kind.Comma, COMMA) + PrintOpenElems(rest));
      var s2 := EvalElem(env.foreign, s, a, v).value;
      assert NodeGrows(s[a], s2[a]);
      var t1, t2 := HeadParsed(env, s, t, a, n, v, tail, s2, u);
      var t3, t4 := CommaRead(env, s2, t2, m, PrintOpenElems(rest));
      ElemsStop(env, s2, t4, a, rest, st, u, x);
    case InElem(n, o) =>
      FirstOfOpen(o);
      var t1 := SkipsLines(env, t, n, PrintOpenValue(o));
      ElemStops(env, s, t1, a, o, st, u, x);
  }

  lemma {:induction false} ElemStops(env: Env, s: Heap, t: Token, a: nat, o: OpenValue, st: Stop, u: Token, x: Fault)
    requires Shaped(env.inp, t) && a < |s| && s[a].Arr?
    requires Read(env.inp, t, PrintOpenValue(o)) == Some(u) && EvalOpenElem(env.foreign, s, a, o) == Some(st)
    requires Shaped(env.inp, u) && FaultAt(env, st, u) == Some(x)
    ensures t.kind != RBracket && ParseElem(env, s, t, a) == Fail(x.heap, x.err)
    decreases o, 0
  {
    match o
    case OpenArray(e) =>
      var b := AppendArray(s, a);
      var t1 := MarkParsed(env.inp, b.heap, t, LBracket, LBRACKET, PrintOpenElems(e));
      ElemsStop(env, b.heap, t1, b.id, e, st, u, x);
    case OpenTable(fs) =>
      var b := AppendTable(s, a);
      var t1 := MarkParsed(env.inp, b.heap, t, LBrace, LBRACE, PrintOpenFields(fs));
      FieldsStop(env, b.heap, t1, b.id, fs, st, u, x);
  }

  lemma {:induction false} FieldsStop(env: Env, s: Heap, t: Token, i: nat, fs: OpenFields, st: Stop, u: Token, x: Fault)
    requires Shaped(env.inp, t) && i < |s| && s[i].Tab?
    requires Read(env.inp, t, PrintOpenFields(fs)) == Some(u) && EvalOpenFields(env.foreign, s, i, fs) == Some(st)
    requires Shaped(env.inp, u) && FaultAt(env, st, u) == Some(x)
    ensures ParseFields(env, s, t, i) == Fail(x.heap, x.err)
    decreases fs, 1
  {
    match fs
    case AwaitField(n) => AtFieldFails(env, s, t, i, n, u, x);
    case AfterField(n, k, v, m) =>
      var t1, t2 := FieldHeadParsed(env, s, t, i, n, k, v, Lines(m), st.heap, u);
      PastFieldFails(env, st.heap, t2, i, m, u, x);
    case ThenFields(n, k, v, m, rest) =>
      var tail := Lines(m) + (Mark(Kind.Comma, COMMA) + PrintOpenFields(rest));
      var s2 := EvalField(env.foreign, s, i, k, v).value;
      assert NodeGrows(s[i], s2[i]);
      var t1, t2 := FieldHeadParsed(env, s, t, i, n, k, v, tail, s2, u);
      var t3, t4 := CommaRead(env, s2, t2, m, PrintOpenFields(rest));
      FieldsStop(env, s2, t4, i, rest, st, u, x);
    case InField(n, k, o) =>
      var t1 := SkipsLines(env, t, n, PrintOpenField(k, o));
      FieldStops(env, s, t1, i, k, o, st, u, x);
      InFieldFails(env, s, t, i, t1, x);
  }

  lemma InFieldFails(env: Env, s: Heap, t: Token, i: nat, t1: Token, x: Fault)
    requires Shaped(env.inp, t) && i < |s| && s[i].Tab? && SkipNewlines(env, t) == To(t1) && t1.kind == Kind.String
    requires ParseKeyval(env, s, t1, i) == Fail(x.heap, x.err)
    ensures ParseFields(env, s, t, i) == Fail(x.heap, x.err)
  {
  }

  lemma {:induction false} FieldStops(env: Env, s: Heap, t: Token, i: nat, k: Str, o: OpenValue, st: Stop, u: Token,
                                      x: Fault)
    requires Shaped(env.inp, t) && i < |s| && s[i].Tab?
    requires Read(env.inp, t, PrintOpenField(k, o)) == Some(u) && EvalOpenField(env.foreign, s, i, k, o) == Some(st)
    requires Shaped(env.inp, u) && FaultAt(env, st, u) == Some(x)
    ensures t.kind == Kind.String && ParseKeyval(env, s, t, i) == Fail(x.heap, x.err)
    decreases o, 1
  {
    ReadConcat(env.inp, t, Word(k), Mark(Equal, EQUALS) + PrintOpenValue(o));
    ReadWord(env.inp, s, t, k);
    var t1 := Fetch(env.inp, s, t, false).tok;
    var t2 := MarkParsed(env.inp, s, t1, Equal, EQUALS, PrintOpenValue(o));
    EntryStops(env, s, t, t2, i, o, st, u, x);
  }

  lemma {:induction false} EntryStops(env: Env, s: Heap, key: Token, t: Token, i: nat, o: OpenValue, st: Stop, u: Token,
                                      x: Fault)
    requires Shaped(env.inp, key) && key.kind == Kind.String
    requires Shaped(env.inp, t) && i < |s| && s[i].Tab? && Read(env.inp, t, PrintOpenValue(o)) == Some(u)
    requires EvalOpenField(env.foreign, s, i, Text(env.inp, key), o) == Some(st)
    requires Shaped(env.inp, u) && FaultAt(env, st, u) == Some(x)
    ensures ParseEntry(env, s, key, t, i) == Fail(x.heap, x.err)
    decreases o, 0
  {
    var k := Text(env.inp, key);
    match o
    case OpenArray(e) =>
      var b := CreateArray(s, i, k);
      var t1 := MarkParsed(env.inp, b.heap, t, LBracket, LBRACKET, PrintOpenElems(e));
      ElemsStop(env, b.heap, t1, b.id, e, st, u, x);
    case OpenTable(fs) =>
      var b := CreateTable(s, i, k);
      var t1 := MarkParsed(env.inp, b.heap, t, LBrace, LBRACE, PrintOpenFields(fs));
      FieldsStop(env, b.heap, t1, b.id, fs, st, u, x);
  }

  // ---- Where the parser stops, there is a fault ----

  /** Where skipping newlines is interrupted, the last newline is in front of no token, or it is the end of file. */
  lemma {:induction false} SkipHalts(env: Env, t: Token, w: Where, s: Heap) returns (n: nat, u: Token)
    requires Shaped(env.inp, t) && SkipNewlines(env, t).Halt? && StopOk(Stop(s, w))
    ensures Read(env.inp, t, Lines(n)) == Some(u) && Shaped(env.inp, u)
    ensures FaultAt(env, Stop(s, w), u) == Some(Fault(s, SkipNewlines(env, t).err))
    decreases |env.inp| - t.ptr
  {
    if !t.eof && Next(env.inp, t, false).Tok? {
      NextOk(env.inp, t, false);
      var m;
      m, u := SkipHalts(env, Next(env.inp, t, false).tok, w, s);
      n := m + 1;
      assert Text(env.inp, t) == [LF];
      ReadOne(env.inp, t, NL, Lines(m));
    } else {
      n, u := 0, t;
    }
  }

  /** What an open value or entry is known by: it is read up to `u`, built, and there is the fault. */
  ghost predicate StopsAt(env: Env, t: Token, ls: seq<Lexeme>, r: Option<Stop>, u: Token, x: Fault) {
    && Read(env.inp, t, ls) == Some(u) && Shaped(env.inp, u)
    && r.Some? && StopOk(r.value) && FaultAt(env, r.value, u) == Some(x)
  }

  lemma {:induction false} ElemsHalt(env: Env, s: Heap, t: Token, a: nat, x: Fault) returns (e: OpenElems, u: Token)
    requires Shaped(env.inp, t) && a < |s| && s[a].Arr? && ParseElems(env, s, t, a) == Fail(x.heap, x.err)
    ensures StopsAt(env, t, PrintOpenElems(e), EvalOpenElems(env.foreign, s, a, e), u, x)
    decreases |env.inp| - t.ptr, 3
  {
    if SkipNewlines(env, t).Halt? {
      var n;
      n, u := SkipHalts(env, t, AtElem(a), s);
      e := AwaitElem(n);
    } else {
      var n := SkippedLines(env, t);
      var t1 := SkipNewlines(env, t).tok;
      var r := ParseElem(env, s, t1, a);
      if t1.kind == RBracket {
        e, u := AwaitElem(n), t1;
      } else if r.Fail? {
        var here, o;
        here, o, u := ElemHalts(env, s, t1, a, x);
        if here {
          e, u := AwaitElem(n), t1;
        } else {
          e := InElem(n, o);
          Glue(env.inp, t, Lines(n), PrintOpenValue(o), t1, u);
        }
      } else {
        ElemsGoOn(env, s, t, a, x);
        var v := ElemSpelled(env, s, t1, a, r.heap, r.tok);
        e, u := ElemsTailHalts(env, s, t, n, v, t1, r.heap, r.tok, a, x);
      }
    }
  }

  lemma ElemsGoOn(env: Env, s: Heap, t: Token, a: nat, x: Fault)
    requires Shaped(env.inp, t) && a < |s| && s[a].Arr? && ParseElems(env, s, t, a) == Fail(x.heap, x.err)
    requires SkipNewlines(env, t).To? && SkipNewlines(env, t).tok.kind != RBracket
    requires ParseElem(env, s, SkipNewlines(env, t).tok, a).Ok?
    ensures var r := ParseElem(env, s, SkipNewlines(env, t).tok, a);
            a < |r.heap| && r.heap[a].Arr? && ElemsTail(env, r.heap, r.tok, a) == Fail(x.heap, x.err)
  {
    assert NodeGrows(s[a], ParseElem(env, s, SkipNewlines(env, t).tok, a).heap[a]);
  }

  /** The open elements after one more element, or before it. */
  lemma AfterElemStops(env: Env, s: Heap, a: nat, t: Token, n: nat, v: Value, m: nat, t1: Token, t2: Token, s2: Heap,
                       u: Token, x: Fault)
    requires a < |s| && s[a].Arr? && EvalElem(env.foreign, s, a, v) == Some(s2) && a < |s2| && s2[a].Arr?
    requires Read(env.inp, t, Lines(n)) == Some(t1) && Read(env.inp, t1, PrintValue(v)) == Some(t2)
    requires Read(env.inp, t2, Lines(m)) == Some(u) && Shaped(env.inp, u)
    requires FaultAt(env, Stop(s2, PastElem(a)), u) == Some(x)
    ensures var e := AfterElem(n, v, m);
            StopsAt(env, t, PrintOpenElems(e), EvalOpenElems(env.foreign, s, a, e), u, x)
  {
    Glue(env.inp, t1, PrintValue(v), Lines(m), t2, u);
    Glue(env.inp, t, Lines(n), PrintValue(v) + Lines(m), t1, u);
  }

  lemma ThenElemsStop(env: Env, s: Heap, a: nat, t: Token, n: nat, v: Value, m: nat, rest: OpenElems, t1: Token,
                      t2: Token, t3: Token, t4: Token, s2: Heap, u: Token, x: Fault)
    requires a < |s| && s[a].Arr? && EvalElem(env.foreign, s, a, v) == Some(s2) && a < |s2| && s2[a].Arr?
    requires Read(env.inp, t, Lines(n)) == Some(t1) && Read(env.inp, t1, PrintValue(v)) == Some(t2)
    requires Read(env.inp, t2, Lines(m)) == Some(t3) && Read(env.inp, t3, Mark(Kind.Comma, COMMA)) == Some(t4)
    requires StopsAt(env, t4, PrintOpenElems(rest), EvalOpenElems(env.foreign, s2, a, rest), u, x)
    ensures var e := ThenElems(n, v, m, rest);
            StopsAt(env, t, PrintOpenElems(e), EvalOpenElems(env.foreign, s, a, e), u, x)
  {
    Glue(env.inp, t3, Mark(Kind.Comma, COMMA), PrintOpenElems(rest), t4, u);
    GlueAll(env.inp, t, n, PrintValue(v), m, Mark(Kind.Comma, COMMA) + PrintOpenElems(rest), t1, t2, t3, u);
  }

  /** After an element. */
  lemma {:induction false} ElemsTailHalts(env: Env, s: Heap, t: Token, n: nat, v: Value, t1: Token, s2: Heap, t2: Token,
                                          a: nat, x: Fault)
    returns (e: OpenElems, u: Token)
    requires Read(env.inp, t, Lines(n)) == Some(t1) && Read(env.inp, t1, PrintValue(v)) == Some(t2)
    requires a < |s| && s[a].Arr? && EvalElem(env.foreign, s, a, v) == Some(s2)
    requires Shaped(env.inp, t2) && a < |s2| && s2[a].Arr? && ElemsTail(env, s2, t2, a) == Fail(x.heap, x.err)
    ensures StopsAt(env, t, PrintOpenElems(e), EvalOpenElems(env.foreign, s, a, e), u, x)
    decreases |env.inp| - t2.ptr, 1
  {
    var go, m, t3 := ElemsTailStep(env, s2, t2, a, x);
    if go {
      var t4 := Fetch(env.inp, s2, t3, false).tok;
      MarkRead(env.inp, s2, t3, Kind.Comma, COMMA, t4);
      var rest;
      rest, u := ElemsHalt(env, s2, t4, a, x);
      e := ThenElems(n, v, m, rest);
      ThenElemsStop(env, s, a, t, n, v, m, rest, t1, t2, t3, t4, s2, u, x);
    } else {
      e, u := AfterElem(n, v, m), t3;
      AfterElemStops(env, s, a, t, n, v, m, t1, t2, s2, u, x);
    }
  }

  /** A comma goes on to more elements; anything else is the fault. */
  lemma ElemsTailStep(env: Env, s: Heap, t: Token, a: nat, x: Fault) returns (go: bool, m: nat, t3: Token)
    requires Shaped(env.inp, t) && a < |s| && s[a].Arr? && ElemsTail(env, s, t, a) == Fail(x.heap, x.err)
    ensures Read(env.inp, t, Lines(m)) == Some(t3) && Shaped(env.inp, t3) && t.ptr <= t3.ptr
    ensures !go ==> FaultAt(env, Stop(s, PastElem(a)), t3) == Some(x)
    ensures go ==> t3.kind == Kind.Comma && Fetch(env.inp, s, t3, false).Ok?
    ensures go ==> ParseElems(env, s, Fetch(env.inp, s, t3, false).tok, a) == Fail(x.heap, x.err)
  {
    if SkipNewlines(env, t).Halt? {
      m, t3 := SkipHalts(env, t, PastElem(a), s);
      ReadForward(env.inp, t, Lines(m), t3);
      go := false;
    } else {
      m := SkippedLines(env, t);
      t3 := SkipNewlines(env, t).tok;
      go := t3.kind == Kind.Comma && Fetch(env.inp, s, t3, false).Ok?;
    }
  }

  lemma {:induction false} ReadForward(inp: Str, t: Token, ls: seq<Lexeme>, u: Token)
    requires Within(inp, t) && Read(inp, t, ls) == Some(u)
    ensures t.ptr <= u.ptr
    decreases |ls|
  {
    if ls != [] { ReadForward(inp, Next(inp, t, ls[0].dot).tok, ls[1..], u); }
  }

  /** `[` and elements, for an array built into `a`. */
  lemma {:induction false} ArrayHalts(env: Env, s: Heap, t: Token, t1: Token, a: nat, x: Fault)
    returns (e: OpenElems, u: Token)
    requires Shaped(env.inp, t) && t.kind == LBracket && Fetch(env.inp, s, t, false) == Ok(s, t1)
    requires a < |s| && s[a].Arr? && ParseElems(env, s, t1, a) == Fail(x.heap, x.err)
    ensures StopsAt(env, t, PrintOpenValue(OpenArray(e)), EvalOpenElems(env.foreign, s, a, e), u, x)
    decreases |env.inp| - t.ptr, 1
  {
    OpenRead(env.inp, s, t, t1);
    e, u := ElemsHalt(env, s, t1, a, x);
    Glue(env.inp, t, Mark(LBracket, LBRACKET), PrintOpenElems(e), t1, u);
  }

  /** `{` and key-values, for a table built into `i`. */
  lemma {:induction false} TableHalts(env: Env, s: Heap, t: Token, t1: Token, i: nat, x: Fault)
    returns (fs: OpenFields, u: Token)
    requires Shaped(env.inp, t) && t.kind == LBrace && Fetch(env.inp, s, t, false) == Ok(s, t1)
    requires i < |s| && s[i].Tab? && ParseFields(env, s, t1, i) == Fail(x.heap, x.err)
    ensures StopsAt(env, t, PrintOpenValue(OpenTable(fs)), EvalOpenFields(env.foreign, s, i, fs), u, x)
    decreases |env.inp| - t.ptr, 1
  {
    MarkRead(env.inp, s, t, LBrace, LBRACE, t1);
    fs, u := FieldsHalt(env, s, t1, i, x);
    Glue(env.inp, t, Mark(LBrace, LBRACE), PrintOpenFields(fs), t1, u);
  }

  /** The fault is at the element's first token, or inside it. */
  lemma {:induction false} ElemHalts(env: Env, s: Heap, t: Token, a: nat, x: Fault)
    returns (here: bool, o: OpenValue, u: Token)
    requires Shaped(env.inp, t) && t.kind != RBracket && a < |s| && s[a].Arr?
    requires ParseElem(env, s, t, a) == Fail(x.heap, x.err)
    ensures here ==> ElemFault(env, s, a, t) == Some(x)
    ensures !here ==> StopsAt(env, t, PrintOpenValue(o), EvalOpenElem(env.foreign, s, a, o), u, x)
    decreases |env.inp| - t.ptr, 2
  {
    here, o, u := ElemFault(env, s, a, t).Some?, OpenArray(AwaitElem(0)), t;
    if here {
      ElemFails(env, s, t, a);
    } else if t.kind == LBracket {
      var b := AppendArray(s, a);
      var e;
      e, u := ArrayHalts(env, b.heap, t, Fetch(env.inp, b.heap, t, false).tok, b.id, x);
      o := OpenArray(e);
    } else if t.kind == LBrace {
      var b := AppendTable(s, a);
      var fs;
      fs, u := TableHalts(env, b.heap, t, Fetch(env.inp, b.heap, t, false).tok, b.id, x);
      o := OpenTable(fs);
    }
  }

  lemma {:induction false} FieldsHalt(env: Env, s: Heap, t: Token, i: nat, x: Fault) returns (fs: OpenFields, u: Token)
    requires Shaped(env.inp, t) && i < |s| && s[i].Tab? && ParseFields(env, s, t, i) == Fail(x.heap, x.err)
    ensures StopsAt(env, t, PrintOpenFields(fs), EvalOpenFields(env.foreign, s, i, fs), u, x)
    decreases |env.inp| - t.ptr, 3
  {
    if SkipNewlines(env, t).Halt? {
      var n;
      n, u := SkipHalts(env, t, AtField(i), s);
      fs := AwaitField(n);
    } else {
      var n := SkippedLines(env, t);
      var t1 := SkipNewlines(env, t).tok;
      if t1.kind != Kind.String {
        fs, u := AwaitField(n), t1;
        NoKeyStops(env, s, t, i, n, u, x);
      } else if ParseKeyval(env, s, t1, i).Fail? {
        var here, k, o;
        here, k, o, u := FieldHalts(env, s, t1, i, x);
        if here {
          fs, u := AwaitField(n), t1;
          assert FaultAt(env, Stop(s, AtField(i)), t1) == Some(x);
        } else {
          fs := InField(n, k, o);
          InFieldStops(env, s, i, t, n, k, o, t1, u, x);
        }
      } else {
        var r := ParseKeyval(env, s, t1, i);
        FieldsGoOn(env, s, t, i, x);
        var k, v := FieldSpelled(env, s, t1, i, r.heap, r.tok);
        fs, u := FieldsTailHalts(env, s, t, n, k, v, t1, r.heap, r.tok, i, x);
      }
    }
  }

  lemma InFieldStops(env: Env, s: Heap, i: nat, t: Token, n: nat, k: Str, o: OpenValue, t1: Token, u: Token, x: Fault)
    requires i < |s| && s[i].Tab? && Read(env.inp, t, Lines(n)) == Some(t1)
    requires StopsAt(env, t1, PrintOpenField(k, o), EvalOpenField(env.foreign, s, i, k, o), u, x)
    ensures var fs := InField(n, k, o);
            StopsAt(env, t, PrintOpenFields(fs), EvalOpenFields(env.foreign, s, i, fs), u, x)
  {
    Glue(env.inp, t, Lines(n), PrintOpenField(k, o), t1, u);
  }

  lemma NoKeyStops(env: Env, s: Heap, t: Token, i: nat, n: nat, u: Token, x: Fault)
    requires Shaped(env.inp, t) && i < |s| && s[i].Tab? && ParseFields(env, s, t, i) == Fail(x.heap, x.err)
    requires SkipNewlines(env, t) == To(u) && u.kind != Kind.String && Read(env.inp, t, Lines(n)) == Some(u)
    ensures StopsAt(env, t, PrintOpenFields(AwaitField(n)), EvalOpenFields(env.foreign, s, i, AwaitField(n)), u, x)
  {
  }

  lemma FieldsGoOn(env: Env, s: Heap, t: Token, i: nat, x: Fault)
    requires Shaped(env.inp, t) && i < |s| && s[i].Tab? && ParseFields(env, s, t, i) == Fail(x.heap, x.err)
    requires SkipNewlines(env, t).To? && SkipNewlines(env, t).tok.kind == Kind.String
    requires ParseKeyval(env, s, SkipNewlines(env, t).tok, i).Ok?
    ensures var r := ParseKeyval(env, s, SkipNewlines(env, t).tok, i);
            i < |r.heap| && r.heap[i].Tab? && FieldsTail(env, r.heap, r.tok, i) == Fail(x.heap, x.err)
  {
    assert NodeGrows(s[i], ParseKeyval(env, s, SkipNewlines(env, t).tok, i).heap[i]);
  }

  lemma AfterFieldStops(env: Env, s: Heap, i: nat, t: Token, n: nat, k: Str, v: Value, m: nat, t1: Token, t2: Token,
                        s2: Heap, u: Token, x: Fault)
    requires i < |s| && s[i].Tab? && EvalField(env.foreign, s, i, k, v) == Some(s2) && i < |s2| && s2[i].Tab?
    requires Read(env.inp, t, Lines(n)) == Some(t1) && Read(env.inp, t1, PrintField(k, v)) == Some(t2)
    requires Read(env.inp, t2, Lines(m)) == Some(u) && Shaped(env.inp, u)
    requires FaultAt(env, Stop(s2, PastField(i)), u) == Some(x)
    ensures var fs := AfterField(n, k, v, m);
            StopsAt(env, t, PrintOpenFields(fs), EvalOpenFields(env.foreign, s, i, fs), u, x)
  {
    Glue(env.inp, t1, PrintField(k, v), Lines(m), t2, u);
    Glue(env.inp, t, Lines(n), PrintField(k, v) + Lines(m), t1, u);
  }

  lemma ThenFieldsStop(env: Env, s: Heap, i: nat, t: Token, n: nat, k: Str, v: Value, m: nat, rest: OpenFields,
                       t1: Token, t2: Token, t3: Token, t4: Token, s2: Heap, u: Token, x: Fault)
    requires i < |s| && s[i].Tab? && EvalField(env.foreign, s, i, k, v) == Some(s2) && i < |s2| && s2[i].Tab?
    requires Read(env.inp, t, Lines(n)) == Some(t1) && Read(env.inp, t1, PrintField(k, v)) == Some(t2)
    requires Read(env.inp, t2, Lines(m)) == Some(t3) && Read(env.inp, t3, Mark(Kind.Comma, COMMA)) == Some(t4)
    requires StopsAt(env, t4, PrintOpenFields(rest), EvalOpenFields(env.foreign, s2, i, rest), u, x)
    ensures var fs := ThenFields(n, k, v, m, rest);
            StopsAt(env, t, PrintOpenFields(fs), EvalOpenFields(env.foreign, s, i, fs), u, x)
  {
    Glue(env.inp, t3, Mark(Kind.Comma, COMMA), PrintOpenFields(rest), t4, u);
    GlueAll(env.inp, t, n, PrintField(k, v), m, Mark(Kind.Comma, COMMA) + PrintOpenFields(rest), t1, t2, t3, u);
  }

  /** After a key-value. */
  lemma {:induction false} FieldsTailHalts(env: Env, s: Heap, t: Token, n: nat, k: Str, v: Value, t1: Token, s2: Heap,
                                           t2: Token, i: nat, x: Fault)
    returns (fs: OpenFields, u: Token)
    requires Read(env.inp, t, Lines(n)) == Some(t1) && Read(env.inp, t1, PrintField(k, v)) == Some(t2)
    requires i < |s| && s[i].Tab? && EvalField(env.foreign, s, i, k, v) == Some(s2)
    requires Shaped(env.inp, t2) && i < |s2| && s2[i].Tab? && FieldsTail(env, s2, t2, i) == Fail(x.heap, x.err)
    ensures StopsAt(env, t, PrintOpenFields(fs), EvalOpenFields(env.foreign, s, i, fs), u, x)
    decreases |env.inp| - t2.ptr, 1
  {
    var go, m, t3 := FieldsTailStep(env, s2, t2, i, x);
    if go {
      var t4 := Fetch(env.inp, s2, t3, false).tok;
      MarkRead(env.inp, s2, t3, Kind.Comma, COMMA, t4);
      var rest;
      rest, u := FieldsHalt(env, s2, t4, i, x);
      fs := ThenFields(n, k, v, m, rest);
      ThenFieldsStop(env, s, i, t, n, k, v, m, rest, t1, t2, t3, t4, s2, u, x);
    } else {
      fs, u := AfterField(n, k, v, m), t3;
      AfterFieldStops(env, s, i, t, n, k, v, m, t1, t2, s2, u, x);
    }
  }

  /** A comma goes on to more key-values; anything else is the fault. */
  lemma FieldsTailStep(env: Env, s: Heap, t: Token, i: nat, x: Fault) returns (go: bool, m: nat, t3: Token)
    requires Shaped(env.inp, t) && i < |s| && s[i].Tab? && FieldsTail(env, s, t, i) == Fail(x.heap, x.err)
    ensures Read(env.inp, t, Lines(m)) == Some(t3) && Shaped(env.inp, t3) && t.ptr <= t3.ptr
    ensures !go ==> FaultAt(env, Stop(s, PastField(i)), t3) == Some(x)
    ensures go ==> t3.kind == Kind.Comma && Fetch(env.inp, s, t3, false).Ok?
    ensures go ==> ParseFields(env, s, Fetch(env.inp, s, t3, false).tok, i) == Fail(x.heap, x.err)
  {
    if SkipNewlines(env, t).Halt? {
      m, t3 := SkipHalts(env, t, PastField(i), s);
      ReadForward(env.inp, t, Lines(m), t3);
      go := false;
    } else {
      m := SkippedLines(env, t);
      t3 := SkipNewlines(env, t).tok;
      go := t3.kind == Kind.Comma && Fetch(env.inp, s, t3, false).Ok?;
    }
  }

  /** The fault is at the key, at what follows it or at the first token of its value, or inside the value. */
  lemma {:induction false} FieldHalts(env: Env, s: Heap, t: Token, i: nat, x: Fault)
    returns (here: bool, k: Str, o: OpenValue, u: Token)
    requires Shaped(env.inp, t) && t.kind == Kind.String && i < |s| && s[i].Tab?
    requires ParseKeyval(env, s, t, i) == Fail(x.heap, x.err)
    ensures here ==> KeyFault(env, s, i, t) == Some(x)
    ensures !here ==> StopsAt(env, t, PrintOpenField(k, o), EvalOpenField(env.foreign, s, i, k, o), u, x)
    decreases |env.inp| - t.ptr, 2
  {
    here, k, o, u := KeyFault(env, s, i, t).Some?, Text(env.inp, t), OpenArray(AwaitElem(0)), t;
    if here {
      KeyFails(env, s, t, i, KeyFault(env, s, i, t).value);
    } else {
      var t1 := Fetch(env.inp, s, t, false).tok;
      var t2 := Fetch(env.inp, s, t1, false).tok;
      ReadWord(env.inp, s, t, k);
      MarkRead(env.inp, s, t1, Equal, EQUALS, t2);
      o, u := EntryHalts(env, s, t, t2, i, x);
      Glue(env.inp, t1, Mark(Equal, EQUALS), PrintOpenValue(o), t2, u);
      Glue(env.inp, t, Word(k), Mark(Equal, EQUALS) + PrintOpenValue(o), t1, u);
    }
  }

  lemma {:induction false} EntryHalts(env: Env, s: Heap, key: Token, t: Token, i: nat, x: Fault)
    returns (o: OpenValue, u: Token)
    requires Shaped(env.inp, key) && key.kind == Kind.String
    requires Shaped(env.inp, t) && i < |s| && s[i].Tab? && ParseEntry(env, s, key, t, i) == Fail(x.heap, x.err)
    requires ValueFault(env, s, i, key, t) == None
    ensures StopsAt(env, t, PrintOpenValue(o), EvalOpenField(env.foreign, s, i, Text(env.inp, key), o), u, x)
    decreases |env.inp| - t.ptr, 2
  {
    var k := Text(env.inp, key);
    if t.kind == LBracket {
      var b := CreateArray(s, i, k);
      var e;
      e, u := ArrayHalts(env, b.heap, t, Fetch(env.inp, b.heap, t, false).tok, b.id, x);
      o := OpenArray(e);
    } else {
      var b := CreateTable(s, i, k);
      var fs;
      fs, u := TableHalts(env, b.heap, t, Fetch(env.inp, b.heap, t, false).tok, b.id, x);
      o := OpenTable(fs);
    }
  }
}
