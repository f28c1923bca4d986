/**
  * The recursive descent over values, as functions on the token and the document.
  *
  * `longjmp` is an error result, which carries the document as it stands then.
  */
module Parser {
  import opened Bytes
  import opened Lexer
  import opened Keys
  import opened Store
  import opened Eval

  /**
    * Spins is no error of the source: it marks that SKIP_NEWLINES as it is written
    * runs for ever, at the end of file inside an open bracket.
    */
  datatype ErrorKind =
    SyntaxError | BadKeyError | KeyExists | InternalError | BadString(why: Unescape.Complaint) | Spins

  datatype Error = Error(kind: ErrorKind, line: nat)

  datatype Parsed = Ok(heap: Heap, tok: Token) | Fail(heap: Heap, err: Error)

  datatype Skipped = To(tok: Token) | Halt(err: Error)

  /**
    * The input, the foreign conversions `valtype` needs, and whether SKIP_NEWLINES
    * tests for the end of file: it does not as it is written, and must to end there.
    */
  datatype Env = Env(inp: Str, foreign: Foreign, guard: bool)

  /** `next_token(ctx, dot)`. */
  function Fetch(inp: Str, s: Heap, t: Token, dot: bool): (r: Parsed)
    requires Within(inp, t)
    ensures r.heap == s
    ensures r.Ok? ==> Shaped(inp, r.tok) && t.ptr + t.len <= r.tok.ptr
  {
    match Next(inp, t, dot)
    case LexError(line) => Fail(s, Error(SyntaxError, line))
    case Tok(u) => NextOk(inp, t, dot); Ok(s, u)
  }

  /** SKIP_NEWLINES. With the guard it stops at the end of file; without, it never does. */
  function SkipNewlines(env: Env, t: Token): (r: Skipped)
    requires Shaped(env.inp, t)
    ensures r.To? ==>
              Shaped(env.inp, r.tok) && t.ptr <= r.tok.ptr && (r.tok.kind != Newline || (env.guard && r.tok.eof))
    decreases |env.inp| - t.ptr
  {
    if t.kind != Newline then To(t)
    else if t.eof then if env.guard then To(t) else Halt(Error(Spins, t.lineno))
    else match Next(env.inp, t, false)
      case LexError(line) => Halt(Error(SyntaxError, line))
      case Tok(u) => NextOk(env.inp, t, false); SkipNewlines(env, u)
  }

  /** The error a refused builder step raises on a line. */
  function Raised(why: Reason, line: nat): Error {
    match why
    case WrongKind => Error(SyntaxError, line)
    case WrongType => Error(SyntaxError, line)
    case KeyTaken => Error(KeyExists, line)
    case UnusableKey(BadText(w)) => Error(BadString(w), line)
    case UnusableKey(_) => Error(BadKeyError, line)
  }

  /** What every parsing step guarantees: the document only grows, and the parser moves forward. */
  ghost predicate Stepped(inp: Str, s: Heap, t: Token, r: Parsed) {
    Grows(s, r.heap) && (r.Ok? ==> Shaped(inp, r.tok) && t.ptr <= r.tok.ptr)
  }

  /** `parse_array` after `[`: elements of array `a` up to `]`. */
  function ParseElems(env: Env, s: Heap, t: Token, a: nat): (r: Parsed)
    requires Shaped(env.inp, t) && a < |s| && s[a].Arr?
    ensures Stepped(env.inp, s, t, r)
    decreases |env.inp| - t.ptr, 3
  {
    match SkipNewlines(env, t)
    case Halt(e) => Fail(s, e)
    case To(t1) =>
      if t1.kind == RBracket then
        Fetch(env.inp, s, t1, false)
      else
        var r := ParseElem(env, s, t1, a);
        if r.Fail? then r else
        assert NodeGrows(s[a], r.heap[a]);
        var r' := ElemsTail(env, r.heap, r.tok, a);
        GrowsTrans(s, r.heap, r'.heap);
        r'
  }

  /** After an element: a comma and more elements, or `]`. */
  function ElemsTail(env: Env, s: Heap, t: Token, a: nat): (r: Parsed)
    requires Shaped(env.inp, t) && a < |s| && s[a].Arr?
    ensures Stepped(env.inp, s, t, r)
    decreases |env.inp| - t.ptr, 1
  {
    match SkipNewlines(env, t)
    case Halt(e) => Fail(s, e)
    case To(t1) =>
      if t1.kind == Kind.Comma then
        var c := Fetch(env.inp, s, t1, false);
        if c.Fail? then c else
        var r := ParseElems(env, s, c.tok, a);
        GrowsTrans(s, s, r.heap);
        r
      else if t1.kind == RBracket then Fetch(env.inp, s, t1, false)
      else Fail(s, Error(SyntaxError, t1.lineno))
  }

  /** One element: a scalar, `[` or `{`. */
  function ParseElem(env: Env, s: Heap, t: Token, a: nat): (r: Parsed)
    requires Shaped(env.inp, t) && a < |s| && s[a].Arr?
    ensures Stepped(env.inp, s, t, r)
    decreases |env.inp| - t.ptr, 2
  {
    match t.kind
    case String =>
      var b := AppendScalar(env.foreign, s, a, Text(env.inp, t));
      if b.Refused? then Fail(b.heap, Raised(b.why, t.lineno)) else Fetch(env.inp, b.heap, t, false)
    case LBracket =>
      var b := AppendArray(s, a);
      if b.Refused? then Fail(b.heap, Raised(b.why, t.lineno)) else
      var c := Fetch(env.inp, b.heap, t, false);
      if c.Fail? then c else
      var r := ParseElems(env, c.heap, c.tok, b.id);
      GrowsTrans(s, c.heap, r.heap);
      r
    case LBrace =>
      var b := AppendTable(s, a);
      if b.Refused? then Fail(b.heap, Raised(b.why, t.lineno)) else
      var c := Fetch(env.inp, b.heap, t, false);
      if c.Fail? then c else
      var r := ParseFields(env, c.heap, c.tok, b.id);
      GrowsTrans(s, c.heap, r.heap);
      r
    case _ =>
      Fail(s, Error(SyntaxError, t.lineno))
  }

  /** `parse_table` after `{`: key-values of table `i` up to `}`. */
  function ParseFields(env: Env, s: Heap, t: Token, i: nat): (r: Parsed)
    requires Shaped(env.inp, t) && i < |s| && s[i].Tab?
    ensures Stepped(env.inp, s, t, r)
    decreases |env.inp| - t.ptr, 3
  {
    match SkipNewlines(env, t)
    case Halt(e) => Fail(s, e)
    case To(t1) =>
      if t1.kind == RBrace then Fetch(env.inp, s, t1, false)
      else if t1.kind != String then Fail(s, Error(SyntaxError, t1.lineno))
      else
        var r := ParseKeyval(env, s, t1, i);
        if r.Fail? then r else
        assert NodeGrows(s[i], r.heap[i]);
        var r' := FieldsTail(env, r.heap, r.tok, i);
        GrowsTrans(s, r.heap, r'.heap);
        r'
  }

  /** After a key-value: a comma and more key-values, or `}`. */
  function FieldsTail(env: Env, s: Heap, t: Token, i: nat): (r: Parsed)
    requires Shaped(env.inp, t) && i < |s| && s[i].Tab?
    ensures Stepped(env.inp, s, t, r)
    decreases |env.inp| - t.ptr, 1
  {
    match SkipNewlines(env, t)
    case Halt(e) => Fail(s, e)
    case To(t1) =>
      if t1.kind == Kind.Comma then
        var c := Fetch(env.inp, s, t1, false);
        if c.Fail? then c else
        var r := ParseFields(env, s, c.tok, i);
        GrowsTrans(s, s, r.heap);
        r
      else if t1.kind == RBrace then Fetch(env.inp, s, t1, false)
      else Fail(s, Error(SyntaxError, t1.lineno))
  }

  /** `parse_keyval`: at the key of a new entry of table `i`. */
  function ParseKeyval(env: Env, s: Heap, t: Token, i: nat): (r: Parsed)
    requires Shaped(env.inp, t) && t.kind == String && i < |s| && s[i].Tab?
    ensures Stepped(env.inp, s, t, r) && (r.Ok? ==> t.ptr < r.tok.ptr)
    decreases |env.inp| - t.ptr, 2
  {
    var c := Fetch(env.inp, s, t, false);
    if c.Fail? then c
    else if c.tok.kind != Equal then
      Fail(s, Error(SyntaxError, c.tok.lineno))
    else
      var d := Fetch(env.inp, s, c.tok, false);
      if d.Fail? then d else
      var r := ParseEntry(env, s, t, d.tok, i);
      GrowsTrans(s, s, r.heap);
      r
  }

  /** The value of an entry, whose key token has been read already. */
  function ParseEntry(env: Env, s: Heap, key: Token, t: Token, i: nat): (r: Parsed)
    requires Shaped(env.inp, key) && key.kind == String
    requires Shaped(env.inp, t) && i < |s| && s[i].Tab?
    ensures Stepped(env.inp, s, t, r)
    decreases |env.inp| - t.ptr, 2
  {
    var k := Text(env.inp, key);
    match t.kind
    case String =>
      var b := CreateVal(s, i, k, Text(env.inp, t));
      if b.Refused? then Fail(b.heap, Raised(b.why, key.lineno)) else Fetch(env.inp, b.heap, t, false)
    case LBracket =>
      var b := CreateArray(s, i, k);
      if b.Refused? then Fail(b.heap, Raised(b.why, key.lineno)) else
      var c := Fetch(env.inp, b.heap, t, false);
      if c.Fail? then c else
      var r := ParseElems(env, c.heap, c.tok, b.id);
      GrowsTrans(s, c.heap, r.heap);
      r
    case LBrace =>
      var b := CreateTable(s, i, k);
      if b.Refused? then Fail(b.heap, Raised(b.why, key.lineno)) else
      var c := Fetch(env.inp, b.heap, t, false);
      if c.Fail? then c else
      var r := ParseFields(env, c.heap, c.tok, b.id);
      GrowsTrans(s, c.heap, r.heap);
      r
    case _ =>
      Fail(s, Error(SyntaxError, t.lineno))
  }
}
