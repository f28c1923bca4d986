/**
  * The language of values: syntax trees, and the tokens that spell them.
  *
  * A tree says how many newlines stand where newlines are allowed, and whether
  * the last element has a trailing comma.
  */
module Grammar {
  import opened Bytes
  import opened Lexer

  datatype Value = Scalar(text: Str) | Array(elems: Elems) | Inline(fields: Fields)

  /** `[` has been read. */
  datatype Elems =
    | NoElem(before: nat)
    | LastElem(before: nat, v: Value, after: nat)
    | MoreElems(before: nat, v: Value, after: nat, rest: Elems)

  /** `{` has been read. */
  datatype Fields =
    | NoField(before: nat)
    | LastField(before: nat, key: Str, v: Value, after: nat)
    | MoreFields(before: nat, key: Str, v: Value, after: nat, rest: Fields)

  /** A token to be found in the input, and the mode in which the one after it is fetched. */
  datatype Lexeme = Lexeme(kind: Kind, text: Str, dot: bool)

  const NL := Lexeme(Newline, [LF], false)

  function Mark(kind: Kind, b: Byte): seq<Lexeme> { [Lexeme(kind, [b], false)] }

  function Word(text: Str): seq<Lexeme> { [Lexeme(String, text, false)] }

  function Lines(n: nat): (r: seq<Lexeme>)
    ensures |r| == n
  {
    if n == 0 then [] else [NL] + Lines(n - 1)
  }

  function PrintValue(v: Value): seq<Lexeme>
    decreases v, 0
  {
    match v
    case Scalar(text) => Word(text)
    case Array(elems) => Mark(LBracket, LBRACKET) + PrintElems(elems)
    case Inline(fields) => Mark(LBrace, LBRACE) + PrintFields(fields)
  }

  function PrintElems(e: Elems): seq<Lexeme> {
    match e
    case NoElem(n) => Lines(n) + Mark(RBracket, RBRACKET)
    case LastElem(n, v, m) => Lines(n) + (PrintValue(v) + (Lines(m) + Mark(RBracket, RBRACKET)))
    case MoreElems(n, v, m, rest) =>
      Lines(n) + (PrintValue(v) + (Lines(m) + (Mark(Kind.Comma, COMMA) + PrintElems(rest))))
  }

  function PrintFields(f: Fields): seq<Lexeme> {
    match f
    case NoField(n) => Lines(n) + Mark(RBrace, RBRACE)
    case LastField(n, k, v, m) => Lines(n) + (PrintField(k, v) + (Lines(m) + Mark(RBrace, RBRACE)))
    case MoreFields(n, k, v, m, rest) =>
      Lines(n) + (PrintField(k, v) + (Lines(m) + (Mark(Kind.Comma, COMMA) + PrintFields(rest))))
  }

  function PrintField(key: Str, v: Value): seq<Lexeme>
    decreases v, 1
  {
    Word(key) + (Mark(Equal, EQUALS) + PrintValue(v))
  }

  // ---- Finding lexemes in the input ----

  predicate Matches(inp: Str, t: Token, l: Lexeme) {
    Within(inp, t) && t.kind == l.kind && Text(inp, t) == l.text
  }

  /** The token after the given lexemes, when the tokens from `t` on are exactly these. */
  function Read(inp: Str, t: Token, ls: seq<Lexeme>): (r: Option<Token>)
    ensures r.Some? && Shaped(inp, t) ==> Shaped(inp, r.value)
    decreases |ls|
  {
    if ls == [] then Some(t)
    else if !Matches(inp, t, ls[0]) then None
    else match Next(inp, t, ls[0].dot)
      case LexError(_) => None
      case Tok(u) =>
        NextOk(inp, t, ls[0].dot);
        Read(inp, u, ls[1..])
  }

  lemma {:induction false} ReadConcat(inp: Str, t: Token, a: seq<Lexeme>, b: seq<Lexeme>)
    ensures Read(inp, t, a + b) == match Read(inp, t, a)
                                   case None => None
                                   case Some(u) => Read(inp, u, b)
    decreases |a|
  {
    if a == [] {
      assert a + b == b;
    } else {
      assert (a + b)[1..] == a[1..] + b;
      if Matches(inp, t, a[0]) && Next(inp, t, a[0].dot).Tok? {
        ReadConcat(inp, Next(inp, t, a[0].dot).tok, a[1..], b);
      }
    }
  }

  lemma ReadOne(inp: Str, t: Token, l: Lexeme, rest: seq<Lexeme>)
    ensures Read(inp, t, [l] + rest) ==
            if Matches(inp, t, l) && Next(inp, t, l.dot).Tok? then Read(inp, Next(inp, t, l.dot).tok, rest) else None
  {
    assert ([l] + rest)[1..] == rest;
  }
}
