/**
  * When two raw values are of one type, told by what they look like and which
  * conversion takes them; and so which arrays are parsed.
  */
module Kinds {
  import opened Bytes
  import opened Lexer
  import opened Store
  import opened Grammar
  import opened Eval
  import opened Parser
  import opened Faithful
  import opened Represents
  import opened Stops

  predicate InQuotes(x: Str) { x != [] && (x[0] == 39 || x[0] == 34) }

  /** `true` or `false` */
  predicate TruthValue(x: Str) { x == [116, 114, 117, 101] || x == [102, 97, 108, 115, 101] }

  /**
    * Both are quoted, or both are truth values, or of both the same conversion is
    * the first to succeed: integer, floating point, then the kinds of time stamps;
    * or none succeeds on either.
    */
  predicate Alike(f: Foreign, x: Str, y: Str) {
    if InQuotes(x) || InQuotes(y) then InQuotes(x) && InQuotes(y)
    else if TruthValue(x) || TruthValue(y) then TruthValue(x) && TruthValue(y)
    else if f.isInteger(x) || f.isInteger(y) then f.isInteger(x) && f.isInteger(y)
    else if f.isDouble(x) || f.isDouble(y) then f.isDouble(x) && f.isDouble(y)
    else f.stamp(x) == f.stamp(y)
  }

  /** `valtype` gives two values one type exactly when they are alike. */
  lemma TypesAlike(f: Foreign, x: Str, y: Str)
    ensures TypeOf(f, x) == TypeOf(f, y) <==> Alike(f, x, y)
  {
  }

  // ---- Arrays ----

  /** Two elements can stand in one array: two scalars that are alike, two arrays or two inline tables. */
  predicate Matched(f: Foreign, v: Value, w: Value) {
    match (v, w)
    case (Scalar(x), Scalar(y)) => Alike(f, x, y)
    case (Array(_), Array(_)) => true
    case (Inline(_), Inline(_)) => true
    case _ => false
  }

  lemma MatchedClasses(f: Foreign, v: Value, w: Value)
    ensures ClassOf(f, v) == ClassOf(f, w) <==> Matched(f, v, w)
  {
    if v.Scalar? && w.Scalar? { TypesAlike(f, v.text, w.text); }
  }

  function Values(e: Elems): seq<Value> {
    match e
    case NoElem(_) => []
    case LastElem(_, v, _) => [v]
    case MoreElems(_, v, _, rest) => [v] + Values(rest)
  }

  lemma {:induction false} ClassesOf(f: Foreign, e: Elems)
    ensures |Classes(f, e)| == |Values(e)|
    ensures forall i | 0 <= i < |Values(e)| :: Classes(f, e)[i] == ClassOf(f, Values(e)[i])
    decreases e
  {
    if e.MoreElems? { ClassesOf(f, e.rest); }
  }

  /** Every element can stand beside the first. */
  ghost predicate AllMatched(f: Foreign, vs: seq<Value>) { forall j | 0 <= j < |vs| :: Matched(f, vs[0], vs[j]) }

  /** An array is uniform exactly when all its elements match the first. */
  lemma {:induction false} UniformExactly(f: Foreign, e: Elems)
    ensures AllSame(Classes(f, e)) <==> AllMatched(f, Values(e))
  {
    var cs, vs := Classes(f, e), Values(e);
    ClassesOf(f, e);
    forall j | 0 <= j < |vs| ensures cs[0] == cs[j] <==> Matched(f, vs[0], vs[j]) { MatchedClasses(f, vs[0], vs[j]); }
    if AllMatched(f, vs) {
      forall i, j | 0 <= i < j < |cs| ensures cs[i] == cs[j] {
        assert Matched(f, vs[0], vs[i]) && Matched(f, vs[0], vs[j]);
      }
    }
  }

  /** The elements in front of the element with this index. */
  function Before(e: Elems, j: nat): OpenElems
    requires j < |Values(e)|
  {
    if j == 0 then AwaitElem(e.before) else ThenElems(e.before, e.v, e.after, Before(e.rest, j - 1))
  }

  /** Elements that are well-formed and match are built, and the array takes what matches them. */
  lemma {:induction false} BuiltBefore(f: Foreign, s: Heap, a: nat, e: Elems, j: nat)
    requires a < |s| && s[a].Arr? && KindSet(s[a]) && j < |Values(e)|
    requires forall i | 0 <= i < j :: WfValue(f, Values(e)[i]) && Accepts(s[a], ClassOf(f, Values(e)[i]))
    requires forall i | 0 <= i < j :: Matched(f, Values(e)[0], Values(e)[i])
    ensures var r := EvalOpenElems(f, s, a, Before(e, j));
            && r.Some? && r.value.at == AtElem(a) && r.value.heap[a].Arr? && KindSet(r.value.heap[a])
            && (j == 0 ==> r.value.heap == s)
            && (j > 0 ==> forall c :: Accepts(r.value.heap[a], c) <==> c == ClassOf(f, Values(e)[0]))
    decreases j
  {
    if j > 0 {
      var v := Values(e)[0];
      assert v == e.v && Values(e)[1..] == Values(e.rest);
      ElemSucceeds(f, s, a, v);
      ElemSets(f, s, a, v);
      var s2 := EvalElem(f, s, a, v).value;
      forall i | 0 <= i < j - 1
        ensures WfValue(f, Values(e.rest)[i]) && Accepts(s2[a], ClassOf(f, Values(e.rest)[i]))
        ensures ClassOf(f, Values(e.rest)[i]) == ClassOf(f, v)
        ensures Matched(f, Values(e.rest)[0], Values(e.rest)[i])
      {
        assert Values(e.rest)[i] == Values(e)[i + 1] && Values(e.rest)[0] == Values(e)[1];
        MatchedClasses(f, v, Values(e)[i + 1]);
        MatchedClasses(f, v, Values(e)[1]);
        MatchedClasses(f, Values(e)[1], Values(e)[i + 1]);
      }
      BuiltBefore(f, s2, a, e.rest, j - 1);
    }
  }

  /** A token is the beginning of a value. */
  predicate Begins(inp: Str, u: Token, v: Value)
    requires Within(inp, u)
  {
    match v
    case Scalar(text) => u.kind == Kind.String && Text(inp, u) == text
    case Array(_) => u.kind == LBracket
    case Inline(_) => u.kind == LBrace
  }

  /** The last element of array `a` is this value. */
  predicate EndsWith(s: Heap, a: nat, text: Str) {
    a < |s| && s[a].Arr? && s[a].elems != [] && s[a].elems[|s[a].elems| - 1] == V(text)
  }

  lemma Unmatched(env: Env, s: Heap, a: nat, v: Value, w: Value, u: Token)
    requires a < |s| && s[a].Arr? && KindSet(s[a]) && Shaped(env.inp, u) && Begins(env.inp, u, w)
    requires (forall c :: Accepts(s[a], c) <==> c == ClassOf(env.foreign, v)) && !Matched(env.foreign, v, w)
    ensures var x := FaultAt(env, Stop(s, AtElem(a)), u);
            && x.Some? && x.value.err == Error(SyntaxError, u.lineno)
            && (v.Scalar? && w.Scalar? ==> EndsWith(x.value.heap, a, w.text))
  {
    MatchedClasses(env.foreign, v, w);
    assert Accepts(s[a], ClassOf(env.foreign, v)) && !Accepts(s[a], ClassOf(env.foreign, w));
  }

  /**
    * The first element that does not match the ones before it is a syntax error, on
    * the line where it begins; whatever comes after it. A scalar among scalars has
    * been stored by then.
    */
  lemma {:induction false} FirstOddElement(env: Env, s: Heap, t: Token, a: nat, e: Elems, j: nat, u: Token)
    requires Shaped(env.inp, t) && a < |s| && s[a] == NewArr(s[a].key) && 0 < j < |Values(e)|
    requires Read(env.inp, t, PrintOpenElems(Before(e, j))) == Some(u) && Begins(env.inp, u, Values(e)[j])
    requires forall i | 0 <= i < j ::
               WfValue(env.foreign, Values(e)[i]) && Matched(env.foreign, Values(e)[0], Values(e)[i])
    requires !Matched(env.foreign, Values(e)[0], Values(e)[j])
    ensures var r, v, w := ParseElems(env, s, t, a), Values(e)[0], Values(e)[j];
            && r.Fail? && r.err == Error(SyntaxError, u.lineno)
            && (v.Scalar? && w.Scalar? ==> EndsWith(r.heap, a, w.text))
  {
    BuiltBefore(env.foreign, s, a, e, j);
    var st := EvalOpenElems(env.foreign, s, a, Before(e, j)).value;
    Unmatched(env, st.heap, a, Values(e)[0], Values(e)[j], u);
    ElemsStop(env, s, t, a, Before(e, j), st, u, FaultAt(env, st, u).value);
  }

  // ---- Arrays of scalars ----

  predicate AllScalars(e: Elems) { forall j | 0 <= j < |Values(e)| :: Values(e)[j].Scalar? }

  /** Elements, cut in front of one of them. */
  lemma {:induction false} CutBefore(e: Elems, j: nat) returns (rest: seq<Lexeme>)
    requires j < |Values(e)|
    ensures PrintElems(e) == PrintOpenElems(Before(e, j)) + (PrintValue(Values(e)[j]) + rest)
    decreases j
  {
    if j == 0 {
      rest := if e.LastElem? then Lines(e.after) + Mark(RBracket, RBRACKET)
              else Lines(e.after) + (Mark(Kind.Comma, COMMA) + PrintElems(e.rest));
    } else {
      rest := CutBefore(e.rest, j - 1);
      var head, comma, tail := PrintValue(e.v), Mark(Kind.Comma, COMMA), PrintValue(Values(e)[j]) + rest;
      var front := PrintOpenElems(Before(e.rest, j - 1));
      assert Values(e)[j] == Values(e.rest)[j - 1];
      Regroup(Lines(e.before), head, Lines(e.after), comma, front, tail);
    }
  }

  lemma Regroup(a: seq<Lexeme>, b: seq<Lexeme>, c: seq<Lexeme>, d: seq<Lexeme>, x: seq<Lexeme>, y: seq<Lexeme>)
    ensures a + (b + (c + (d + (x + y)))) == a + (b + (c + (d + x))) + y
  {
  }

  /** The token where an element begins. */
  lemma {:induction false} ReadBefore(inp: Str, t: Token, e: Elems, j: nat, end: Token) returns (u: Token)
    requires Shaped(inp, t) && Read(inp, t, PrintElems(e)) == Some(end) && j < |Values(e)|
    ensures Read(inp, t, PrintOpenElems(Before(e, j))) == Some(u) && Shaped(inp, u) && Begins(inp, u, Values(e)[j])
  {
    var v := Values(e)[j];
    var rest := CutBefore(e, j);
    ReadConcat(inp, t, PrintOpenElems(Before(e, j)), PrintValue(v) + rest);
    u := Read(inp, t, PrintOpenElems(Before(e, j))).value;
    assert PrintValue(v) != [] && (PrintValue(v) + rest)[0] == PrintValue(v)[0];
    assert Matches(inp, u, PrintValue(v)[0]);
  }

  /** Element `j` is the first that is not like the ones before it, and begins at token `u`. */
  ghost predicate FirstOdd(env: Env, t: Token, e: Elems, j: nat, u: Token) {
    && 0 < j < |Values(e)| && Read(env.inp, t, PrintOpenElems(Before(e, j))) == Some(u)
    && !Matched(env.foreign, Values(e)[0], Values(e)[j])
    && forall i | 0 <= i < j :: Matched(env.foreign, Values(e)[0], Values(e)[i])
  }

  lemma {:induction false} FindOdd(f: Foreign, vs: seq<Value>) returns (j: nat)
    requires !AllMatched(f, vs)
    ensures 0 < j < |vs| && !Matched(f, vs[0], vs[j]) && forall i | 0 <= i < j :: Matched(f, vs[0], vs[i])
  {
    j := 0;
    while Matched(f, vs[0], vs[j])
      invariant j < |vs| && forall i | 0 <= i < j :: Matched(f, vs[0], vs[i])
      decreases |vs| - j
    {
      j := j + 1;
    }
    MatchedClasses(f, vs[0], vs[0]);
  }

  lemma {:induction false} ScalarsWf(f: Foreign, e: Elems)
    requires AllScalars(e)
    ensures WfElems(f, e)
  {
    if !e.NoElem? {
      assert Values(e)[0] == e.v;
    }
    if e.MoreElems? {
      forall j | 0 <= j < |Values(e.rest)| ensures Values(e.rest)[j].Scalar? {
        assert Values(e.rest)[j] == Values(e)[j + 1];
      }
      ScalarsWf(f, e.rest);
    }
  }

  /**
    * The elements of a fresh array, all scalars, are parsed to just those if all
    * are like the first; otherwise there is a syntax error on the line of the first
    * that is not.
    */
  lemma {:induction false} ScalarArrayExactly(env: Env, s: Heap, t: Token, a: nat, e: Elems, end: Token)
    requires Shaped(env.inp, t) && a < |s| && s[a] == NewArr(s[a].key)
    requires Read(env.inp, t, PrintElems(e)) == Some(end) && AllScalars(e)
    ensures var r := ParseElems(env, s, t, a);
            if AllMatched(env.foreign, Values(e)) then
              r.Ok? && r.tok == end && HoldsArray(r.heap, 0, a, s[a].key, e) && OnlyAt(s, r.heap, a)
            else r.Fail? && exists j, u :: FirstOdd(env, t, e, j, u) && r.err == Error(SyntaxError, u.lineno)
  {
    ScalarsWf(env.foreign, e);
    UniformExactly(env.foreign, e);
    if AllMatched(env.foreign, Values(e)) {
      ArrayRoundTrip(env, s, t, a, e, end);
    } else {
      var j := FindOdd(env.foreign, Values(e));
      var u := ReadBefore(env.inp, t, e, j, end);
      FirstOddElement(env, s, t, a, e, j, u);
      assert FirstOdd(env, t, e, j, u);
    }
  }
}
