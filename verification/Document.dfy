/** The top level: `[x.y]` and `[[x.y]]` headers, and the loop of `toml_parse`. */
module Document {
  import opened Bytes
  import opened Lexer
  import opened Store
  import opened Keys
  import opened Eval
  import opened Parser

  /** `__anon__`, the key of the tables of an array of tables. */
  const ANON: Str := [95, 95, 97, 110, 111, 110, 95, 95]

  /** How many keys `tpath` has room for. */
  const MAX_PATH: nat := 10

  // ---- Walking ----

  /** Where a path leads, or why it leads nowhere; tables made on the way stay. */
  datatype Walked = Reached(heap: Heap, id: nat) | Blocked(heap: Heap, at: nat, why: ErrorKind)

  /** A path goes through a table, or through the last table of an array of tables. */
  function LastTable(s: Heap, id: nat): (r: Option<nat>)
    ensures r.Some? ==> r.value < |s| && s[r.value].Tab?
  {
    if id < |s| && s[id].Arr? && s[id].kind == Tables && s[id].elems != [] then
      var last := s[id].elems[|s[id].elems| - 1];
      if last.T? && last.id < |s| && s[last.id].Tab? then Some(last.id) else None
    else None
  }

  /** `walk_tabpath` from key `at` of the path on, standing in table `cur`. */
  function Walk(s: Heap, cur: nat, path: seq<Str>, at: nat): (r: Walked)
    requires cur < |s| && s[cur].Tab? && at <= |path|
    ensures Grows(s, r.heap) && (r.Reached? ==> r.id < |r.heap| && r.heap[r.id].Tab?)
    ensures r.Blocked? ==> at <= r.at < |path|
    decreases |path| - at
  {
    if at == |path| then Reached(s, cur)
    else match CheckKey(s, s[cur], path[at])
      case FoundTab(id) =>
        if id < |s| && s[id].Tab? then Walk(s, id, path, at + 1) else Blocked(s, at, InternalError)
      case FoundArr(id) =>
        (match LastTable(s, id)
         case Some(last) => Walk(s, last, path, at + 1)
         case None => Blocked(s, at, InternalError))
      case FoundVal(_) => Blocked(s, at, KeyExists)
      case Absent =>
        var s' := AddTab(s, cur, path[at], true);
        var r := Walk(s', |s|, path, at + 1);
        GrowsTrans(s, s', r.heap);
        r
  }

  // ---- The effect of a header ----

  /** The table that becomes current, or the error; the error's line is that of key `at` of the path. */
  datatype Selected = Current(heap: Heap, id: nat) | Unselected(heap: Heap, at: nat, why: ErrorKind)

  /** `[x.y.z]`: z is made, or promoted, in x.y. */
  function SelectTable(s: Heap, path: seq<Str>): (r: Selected)
    requires |s| > 0 && s[ROOT].Tab? && path != []
    ensures Grows(s, r.heap) && (r.Current? ==> r.id < |r.heap| && r.heap[r.id].Tab?)
    ensures r.Unselected? ==> r.at < |path|
  {
    var last := |path| - 1;
    match Walk(s, ROOT, path[..last], 0)
    case Blocked(h, at, why) => Unselected(h, at, why)
    case Reached(h, id) =>
      var b := ClaimTable(h, id, path[last]);
      GrowsTrans(s, h, b.heap);
      if b.Done? then Current(b.heap, b.id) else Unselected(b.heap, last, KeyExists)
  }

  /** `[[x.y.z]]`: a table is appended to array z, which is made in x.y if need be. */
  function SelectElement(s: Heap, path: seq<Str>): (r: Selected)
    requires |s| > 0 && s[ROOT].Tab? && path != []
    ensures Grows(s, r.heap) && (r.Current? ==> r.id < |r.heap| && r.heap[r.id].Tab?)
    ensures r.Unselected? ==> r.at < |path|
  {
    var last := |path| - 1;
    match Walk(s, ROOT, path[..last], 0)
    case Blocked(h, at, why) => Unselected(h, at, why)
    case Reached(h, id) =>
      var r := AppendElement(h, id, path[last]);
      GrowsTrans(s, h, r.heap);
      if r.Done? then Current(r.heap, r.id) else Unselected(r.heap, last, SyntaxError)
  }

  /** The array under the key, made if absent, gains a table; an array of another kind is refused. */
  function AppendElement(s: Heap, i: nat, key: Str): (b: Built)
    requires i < |s| && s[i].Tab?
    ensures Grows(s, b.heap) && (b.Done? ==> b.id < |b.heap| && b.heap[b.id].Tab?)
  {
    match CheckKey(s, s[i], key)
    case Absent =>
      var h := AddArr(s, i, key);
      var h' := PushTab(h, |s|, Some(ANON));
      GrowsTrans(s, h, h');
      Done(h', |h|)
    case FoundArr(id) =>
      if id < |s| && Takes(s[id], Tables) then Done(PushTab(s, id, Some(ANON)), |s|) else Refused(s, WrongKind)
    case _ => Refused(s, KeyTaken)
  }

  /** The table that `[[p]]` appends is a new, empty one, with the key `__anon__`, and is the last of its array. */
  lemma AnonymousElement(s: Heap, i: nat, key: Str)
    requires i < |s| && s[i].Tab? && AppendElement(s, i, key).Done?
    ensures var b := AppendElement(s, i, key);
            && b.heap[b.id] == Tab(Some([95, 95, 97, 110, 111, 110, 95, 95]), false, [], [], [])
            && exists a :: LastTable(b.heap, a) == Some(b.id)
  {
    var b := AppendElement(s, i, key);
    var a := if CheckKey(s, s[i], key).FoundArr? then CheckKey(s, s[i], key).id else |s|;
    assert LastTable(b.heap, a) == Some(b.id);
  }

  // ---- Reading a header ----

  /** What `fill_tabpath` leaves: the keys and their tokens, and the token at `]`. */
  datatype Filled = Path(names: seq<Str>, toks: seq<Token>, tok: Token) | NoPath(names: seq<Str>, err: Error)

  /** `fill_tabpath`, from a key on; `line` is the line its errors name. */
  function FillPath(inp: Str, t: Token, line: nat, names: seq<Str>, toks: seq<Token>): (r: Filled)
    requires Shaped(inp, t) && |names| == |toks| <= MAX_PATH
    ensures r.Path? ==> Shaped(inp, r.tok) && r.tok.kind == RBracket && t.ptr <= r.tok.ptr
    ensures r.Path? ==> 0 < |r.names| == |r.toks| <= MAX_PATH && names <= r.names && toks <= r.toks
    decreases |inp| - t.ptr
  {
    if |names| >= MAX_PATH then NoPath(names, Error(SyntaxError, line))
    else if t.kind != String then NoPath(names, Error(SyntaxError, line))
    else match KeyOf(Text(inp, t))
      case BadKey => NoPath(names, Error(BadKeyError, t.lineno))
      case BadText(w) => NoPath(names, Error(BadString(w), t.lineno))
      case Key(k) =>
        var names', toks' := names + [k], toks + [t];
        match Next(inp, t, true)
        case LexError(l) => NoPath(names', Error(SyntaxError, l))
        case Tok(u) =>
          NextOk(inp, t, true);
          if u.kind == RBracket then Path(names', toks', u)
          else if u.kind != Dot then NoPath(names', Error(SyntaxError, line))
          else match Next(inp, u, true)
            case LexError(l) => NoPath(names', Error(SyntaxError, l))
            case Tok(w) => NextOk(inp, u, true); FillPath(inp, w, line, names', toks')
  }

  /** The parser's state between statements: the document, the current table, and the keys `tpath` owns. */
  datatype State = State(heap: Heap, cur: nat, path: seq<Str>)

  /** A statement is done, or an error is raised; the state is what `longjmp` leaves behind. */
  datatype Result = Going(st: State, tok: Token) | Raise(st: State, err: Error)

  ghost predicate StateOk(st: State) {
    |st.heap| > 0 && st.heap[ROOT].Tab? && st.cur < |st.heap| && st.heap[st.cur].Tab?
  }

  /** Past the closing brackets there must be a NEWLINE. */
  function CloseHeader(inp: Str, st: State, t: Token, double: bool): (r: Result)
    requires Shaped(inp, t) && t.kind == RBracket
    ensures r.st == st
    ensures r.Going? ==> Shaped(inp, r.tok) && r.tok.kind == Newline && t.ptr <= r.tok.ptr
    decreases double
  {
    match Next(inp, t, false)
    case LexError(l) => Raise(st, Error(SyntaxError, l))
    case Tok(u) =>
      NextOk(inp, t, false);
      if double then
        if u.kind == RBracket then CloseHeader(inp, st, u, false)
        else Raise(st, Error(SyntaxError, u.lineno))
      else if u.kind == Newline then Going(st, u)
      else Raise(st, Error(SyntaxError, u.lineno))
  }

  /** `parse_select`, once its path is read: the last key leaves `tpath`, and the table is selected. */
  function Enter(inp: Str, st: State, p: Filled, double: bool): (r: Result)
    requires StateOk(st) && p.Path? && Shaped(inp, p.tok) && p.tok.kind == RBracket && 0 < |p.names| == |p.toks|
    ensures StateOk(r.st) && Grows(st.heap, r.st.heap)
    ensures r.Going? ==> Shaped(inp, r.tok) && r.tok.kind == Newline && p.tok.ptr <= r.tok.ptr
  {
    var path := p.names[..|p.names| - 1];
    var sel := if double then SelectElement(st.heap, p.names) else SelectTable(st.heap, p.names);
    match sel
    case Unselected(h, at, why) =>
      assert NodeGrows(st.heap[st.cur], h[st.cur]) && NodeGrows(st.heap[ROOT], h[ROOT]);
      Raise(State(h, st.cur, path), Error(why, p.toks[at].lineno))
    case Current(h, id) =>
      assert NodeGrows(st.heap[ROOT], h[ROOT]);
      CloseHeader(inp, State(h, id, path), p.tok, double)
  }

  /** `parse_select`, at `[`. */
  function ParseSelect(inp: Str, st: State, t: Token): (r: Result)
    requires StateOk(st) && Shaped(inp, t) && t.kind == LBracket
    ensures StateOk(r.st) && Grows(st.heap, r.st.heap)
    ensures r.Going? ==> Shaped(inp, r.tok) && t.ptr < r.tok.ptr
  {
    match Next(inp, t, true)
    case LexError(l) => Raise(st, Error(SyntaxError, l))
    case Tok(u) =>
      NextOk(inp, t, true);
      if u.kind == LBracket then
        match Next(inp, u, true)
        case LexError(l) => Raise(st, Error(SyntaxError, l))
        case Tok(w) => NextOk(inp, u, true); FillAndEnter(inp, st, w, true)
      else FillAndEnter(inp, st, u, false)
  }

  function FillAndEnter(inp: Str, st: State, t: Token, double: bool): (r: Result)
    requires StateOk(st) && Shaped(inp, t)
    ensures StateOk(r.st) && Grows(st.heap, r.st.heap)
    ensures r.Going? ==> Shaped(inp, r.tok) && t.ptr <= r.tok.ptr
  {
    match FillPath(inp, t, t.lineno, [], [])
    case NoPath(names, e) => Raise(st.(path := names), e)
    case Path(names, toks, u) => Enter(inp, st, Path(names, toks, u), double)
  }

  // ---- The loop of toml_parse ----

  /** One round of the loop, at a token that is not the end of file. */
  function Statement(env: Env, st: State, t: Token): (r: Result)
    requires StateOk(st) && Shaped(env.inp, t) && !t.eof
    ensures StateOk(r.st) && Grows(st.heap, r.st.heap)
    ensures r.Going? ==> Shaped(env.inp, r.tok) && t.ptr < r.tok.ptr
  {
    match t.kind
    case Newline =>
      var c := Fetch(env.inp, st.heap, t, true);
      if c.Ok? then Going(st, c.tok) else Raise(st, c.err)
    case String =>
      var r := ParseKeyval(env, st.heap, t, st.cur);
      assert NodeGrows(st.heap[st.cur], r.heap[st.cur]) && NodeGrows(st.heap[ROOT], r.heap[ROOT]);
      var st' := st.(heap := r.heap);
      if r.Fail? then Raise(st', r.err)
      else if r.tok.kind != Newline then Raise(st', Error(SyntaxError, r.tok.lineno))
      else
        var c := Fetch(env.inp, r.heap, r.tok, false);
        if c.Ok? then Going(st', c.tok) else Raise(st', c.err)
    case LBracket => ParseSelect(env.inp, st, t)
    case _ => Raise(st, Error(SyntaxError, t.lineno))
  }

  /** Statement after statement, up to the end of file. */
  function Statements(env: Env, st: State, t: Token): (r: Result)
    requires StateOk(st) && Shaped(env.inp, t)
    ensures StateOk(r.st) && Grows(st.heap, r.st.heap)
    decreases |env.inp| - t.ptr
  {
    if t.eof then Going(st, t)
    else
      var r := Statement(env, st, t);
      if r.Raise? then r
      else
        var r' := Statements(env, r.st, r.tok);
        GrowsTrans(st.heap, r.st.heap, r'.st.heap);
        r'
  }

  const INITIAL := State(EMPTY, ROOT, [])

  /** `toml_parse`, up to the final clean-up: it starts on an artificial newline. */
  function Parse(env: Env): (r: Result)
    ensures StateOk(r.st)
  {
    match Next(env.inp, START, true)
    case LexError(l) => Raise(INITIAL, Error(SyntaxError, l))
    case Tok(t) => NextOk(env.inp, START, true); Statements(env, INITIAL, t)
  }
}
