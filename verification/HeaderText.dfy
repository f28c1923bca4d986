/** Documents of `[p]` headers and blank lines, from their text to the tables they make. */
module HeaderText {
  import opened Bytes
  import opened Lexer
  import opened Store
  import opened Grammar
  import opened Parser
  import opened Document
  import opened Headers
  import opened Language
  import Reachable

  /** The paths named by such a document: usable keys, and no more of them than `tpath` holds. */
  function NamesOf(ss: seq<Stmt>): (r: Option<seq<seq<Str>>>)
    ensures r.Some? ==> forall i | 0 <= i < |r.value| :: r.value[i] != []
  {
    if ss == [] then Some([])
    else match ss[0]
      case Blank => NamesOf(ss[1..])
      case Entry(_, _, _) => None
      case Header(double, keys) =>
        if !double && KeyNames(keys).Some? && 0 < |KeyNames(keys).value| <= MAX_PATH && NamesOf(ss[1..]).Some? then
          Some([KeyNames(keys).value] + NamesOf(ss[1..]).value)
        else None
  }

  /** A header whose table cannot be made is an error. */
  lemma HeaderRefused(env: Env, st: State, t: Token, keys: seq<Str>, end: Token)
    requires StateOk(st) && Shaped(env.inp, t)
    requires Read(env.inp, t, Print(Header(false, keys))) == Some(end)
    requires KeyNames(keys).Some? && 0 < |KeyNames(keys).value| <= MAX_PATH
    requires SelectTable(st.heap, KeyNames(keys).value).Unselected?
    ensures !t.eof && Statement(env, st, t).Raise?
  {
    var w := OpenTaken(env.inp, t, false, PrintPath(keys) + PrintClose(false), end);
    RefusedInside(env.inp, st, w, keys, end);
  }

  lemma RefusedInside(inp: Str, st: State, w: Token, keys: seq<Str>, end: Token)
    requires StateOk(st) && Shaped(inp, w) && Read(inp, w, PrintPath(keys) + PrintClose(false)) == Some(end)
    requires KeyNames(keys).Some? && 0 < |KeyNames(keys).value| <= MAX_PATH
    requires SelectTable(st.heap, KeyNames(keys).value).Unselected?
    ensures FillAndEnter(inp, st, w, false).Raise? && w.kind == Kind.String
  {
    assert KeyNames([]) == Some([]);
    KeyNamesLength(keys);
    ReadConcat(inp, w, PrintPath(keys), PrintClose(false));
    var u := Read(inp, w, PrintPath(keys)).value;
    assert PrintPath(keys)[0] == Lexeme(Kind.String, keys[0], true);
    assert PrintClose(false) == [Lexeme(RBracket, [RBRACKET], false)] + [];
    var v := MarkTaken(inp, u, Lexeme(RBracket, [RBRACKET], false), []);
    var names := KeyNames(keys).value;
    var toks := PathTaken(inp, w, w.lineno, [], [], keys, u);
    assert [] + names == names;
  }

  lemma {:induction false} RefusedForGood(done: seq<seq<Str>>, rest: seq<seq<Str>>)
    requires forall i | 0 <= i < |done| :: done[i] != []
    requires forall i | 0 <= i < |rest| :: rest[i] != []
    requires RunHeaders(EMPTY, done).None?
    ensures RunHeaders(EMPTY, done + rest).None?
    decreases |rest|
  {
    if rest == [] {
      assert done + rest == done;
    } else {
      RefusedForGood(done, rest[..|rest| - 1]);
      assert (done + rest)[..|done + rest| - 1] == done + rest[..|rest| - 1];
    }
  }

  lemma RunOneMore(done: seq<seq<Str>>, h: seq<Str>)
    requires h != [] && (forall i | 0 <= i < |done| :: done[i] != []) && RunHeaders(EMPTY, done).Some?
    requires |RunHeaders(EMPTY, done).value| > 0 && RunHeaders(EMPTY, done).value[ROOT].Tab?
    ensures forall i | 0 <= i < |done| + 1 :: (done + [h])[i] != []
    ensures var r := SelectTable(RunHeaders(EMPTY, done).value, h);
            RunHeaders(EMPTY, done + [h]) == if r.Current? then Some(r.heap) else None
  {
    assert (done + [h])[..|done|] == done;
  }

  /** One header of the document, after the ones already taken. */
  lemma HeaderRuns(env: Env, st: State, t: Token, keys: seq<Str>, u: Token, done: seq<seq<Str>>) returns (h: seq<Str>)
    requires StateOk(st) && Shaped(env.inp, t) && ReadStmt(env.inp, t, Header(false, keys)) == Some(u)
    requires KeyNames(keys).Some? && 0 < |KeyNames(keys).value| <= MAX_PATH
    requires (forall i | 0 <= i < |done| :: done[i] != []) && RunHeaders(EMPTY, done) == Some(st.heap)
    ensures !t.eof && h == KeyNames(keys).value && (forall i | 0 <= i < |done| + 1 :: (done + [h])[i] != [])
    ensures Statement(env, st, t).Going? <==> RunHeaders(EMPTY, done + [h]).Some?
    ensures Statement(env, st, t).Going? ==>
              Statement(env, st, t).tok == u && RunHeaders(EMPTY, done + [h]) == Some(Statement(env, st, t).st.heap)
  {
    h := KeyNames(keys).value;
    RunOneMore(done, h);
    if SelectTable(st.heap, h).Current? {
      StatementTaken(env, st, t, Header(false, keys), u);
    } else {
      HeaderRefused(env, st, t, keys, u);
    }
  }

  /** The statements from here on succeed exactly when the headers `all` do, and build the same. */
  ghost predicate Agrees(env: Env, st: State, t: Token, all: seq<seq<Str>>)
    requires StateOk(st) && Shaped(env.inp, t) && forall i | 0 <= i < |all| :: all[i] != []
  {
    var r := Statements(env, st, t);
    if r.Going? then RunHeaders(EMPTY, all) == Some(r.st.heap) else RunHeaders(EMPTY, all) == None
  }

  lemma {:induction false} HeadersRun(env: Env, st: State, t: Token, ss: seq<Stmt>, done: seq<seq<Str>>,
                                      all: seq<seq<Str>>)
    requires StateOk(st) && Shaped(env.inp, t)
    requires ReadAll(env.inp, t, ss).Some? && ReadAll(env.inp, t, ss).value.eof
    requires NamesOf(ss).Some? && all == done + NamesOf(ss).value && forall i | 0 <= i < |all| :: all[i] != []
    requires (forall i | 0 <= i < |done| :: done[i] != []) && RunHeaders(EMPTY, done) == Some(st.heap)
    ensures Agrees(env, st, t, all)
    decreases |ss|
  {
    if ss == [] {
      assert all == done;
    } else if ss[0].Blank? {
      var u := ReadStmt(env.inp, t, ss[0]).value;
      StatementTaken(env, st, t, ss[0], u);
      HeadersRun(env, Statement(env, st, t).st, u, ss[1..], done, all);
    } else {
      var u := ReadStmt(env.inp, t, ss[0]).value;
      var h := HeaderRuns(env, st, t, ss[0].keys, u, done);
      Assoc(done, [h], NamesOf(ss[1..]).value);
      if Statement(env, st, t).Going? {
        HeadersRun(env, Statement(env, st, t).st, u, ss[1..], done + [h], all);
      } else {
        RefusedForGood(done + [h], NamesOf(ss[1..]).value);
      }
    }
  }

  /**
    * The text of a sequence of headers is accepted if and only if their paths are
    * pairwise distinct, and the document is then exactly their prefix closure.
    */
  lemma HeadersParse(env: Env, ss: seq<Stmt>)
    requires Spells(env.inp, ss) && NamesOf(ss).Some?
    ensures Parse(env).Going? <==> Distinct(NamesOf(ss).value)
    ensures Parse(env).Going? ==> Shows(Parse(env).st.heap, NamesOf(ss).value)
  {
    var hs := NamesOf(ss).value;
    NextOk(env.inp, START, true);
    HeadersRun(env, INITIAL, Next(env.inp, START, true).tok, ss, [], hs);
    HeadersMean(hs);
  }

  /** In every document the parser leaves that holds tables only, a table is reached by one path. */
  lemma TablesHaveOnePath(env: Env, p: seq<Str>, q: seq<Str>)
    requires OnlyTables(Parse(env).st.heap)
    requires Resolve(Parse(env).st.heap, ROOT, p).Some?
    requires Resolve(Parse(env).st.heap, ROOT, p) == Resolve(Parse(env).st.heap, ROOT, q)
    ensures p == q
  {
    Reachable.ParseKeepsDocument(env);
    InvIsTableTree(Parse(env).st.heap);
    OnePath(Parse(env).st.heap, p, q);
  }
}
