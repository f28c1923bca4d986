/**
  * The parser as the source runs it: a context whose token, document and table
  * path are updated in place, and the heap blocks it allocates and frees.
  *
  * Every method is proved to do what the functions of Parser and Document say,
  * and to leave alive exactly the blocks of the document and of `tpath`.
  */
module Context {
  import opened Bytes
  import opened Lexer
  import opened Store
  import opened Eval
  import opened Parser
  import opened Document
  import opened Blocks
  import opened Memory
  import opened Ownership
  import Reachable

  lemma EnterIgnoresPath(inp: Str, st: State, path: seq<Str>, p: Filled, double: bool)
    requires StateOk(st) && p.Path? && Shaped(inp, p.tok) && p.tok.kind == RBracket && 0 < |p.names| == |p.toks|
    ensures Enter(inp, State(st.heap, st.cur, path), p, double) == Enter(inp, st, p, double)
  {
  }

  lemma ElemsRound(env: Env, s: Heap, t: Token, t1: Token, a: nat) returns (r: Parsed)
    requires Shaped(env.inp, t) && Shaped(env.inp, t1) && SkipNewlines(env, t) == To(t1) && t1.kind != RBracket
    requires a < |s| && s[a].Arr?
    ensures r == ParseElem(env, s, t1, a) && (r.Ok? ==> Shaped(env.inp, r.tok) && a < |r.heap| && r.heap[a].Arr?)
    ensures ParseElems(env, s, t, a) == if r.Fail? then r else ElemsTail(env, r.heap, r.tok, a)
  {
    r := ParseElem(env, s, t1, a);
    assert r.Ok? ==> NodeGrows(s[a], r.heap[a]);
  }

  class Context {
    const env: Env
    const alloc: Allocator
    var tok: Token
    var heap: Heap
    var curtab: nat
    var path: seq<Str>
    var pathToks: seq<Token>
    /** The nodes freed, in order. */
    ghost var freed: seq<nat>

    ghost function St(): State
      reads this
    {
      State(heap, curtab, path)
    }

    /** The document and `tpath` own every live block, and all they own is live. */
    ghost predicate Balanced()
      reads this, alloc
    {
      Holds(alloc.live, heap, |path|, false)
    }

    /** The same, with a key just allocated. */
    ghost predicate BalancedBut()
      reads this, alloc
    {
      Holds(alloc.live, heap, |path|, true)
    }

    ghost predicate Valid()
      reads this, alloc
    {
      env.guard && TokenOk(env.inp, tok) && StateOk(St()) && Balanced()
    }

    /** A step ended as `r` says. */
    ghost predicate Ended(err: Option<Error>, r: Parsed)
      reads this
    {
      heap == r.heap && match r
                        case Ok(_, t) => err == None && tok == t
                        case Fail(_, e) => err == Some(e)
    }

    /** The state `toml_parse` starts from: an artificial newline, and an empty root. */
    constructor (conf: Str, foreign: Foreign)
      ensures env == Env(Cut(conf), foreign, true) && tok == START && St() == INITIAL && freed == [] && pathToks == []
      ensures fresh(alloc) && Balanced()
    {
      env := Env(Cut(conf), foreign, true);
      alloc := new Allocator();
      tok, heap, curtab := START, EMPTY, ROOT;
      path, pathToks := [], [];
      freed := [];
      new;
      alloc.Alloc(NodeBlk(ROOT));
    }

    // ---- Tokens ----

    method NextToken(dot: bool) returns (err: Option<Error>)
      requires Within(env.inp, tok)
      modifies this`tok
      ensures Ended(err, Fetch(env.inp, heap, old(tok), dot))
      ensures err == None ==> TokenOk(env.inp, tok)
      ensures err != None ==> tok == old(tok)
    {
      var r := Lexer.NextToken(env.inp, tok, dot);
      if r.LexError? {
        return Some(Error(SyntaxError, r.line));
      }
      NextOk(env.inp, tok, dot);
      tok := r.tok;
      err := None;
    }

    /** SKIP_NEWLINES; the test for `eof` is the guard the source lacks. */
    method SkipNewlineTokens() returns (err: Option<Error>)
      requires Valid()
      modifies this`tok
      ensures Valid() && old(tok).ptr <= tok.ptr
      ensures match SkipNewlines(env, old(tok))
              case To(t) => err == None && tok == t
              case Halt(e) => err == Some(e)
    {
      while tok.kind == Newline && !tok.eof
        invariant Valid() && old(tok).ptr <= tok.ptr
        invariant SkipNewlines(env, tok) == SkipNewlines(env, old(tok))
        decreases |env.inp| - tok.ptr
      {
        err := NextToken(false);
        if err.Some? {
          return;
        }
      }
      err := None;
    }

    // ---- Building ----

    method CheckKeyIn(i: nat, key: Str) returns (f: Found)
      requires i < |heap| && heap[i].Tab?
      ensures f == CheckKey(heap, heap[i], key)
    {
      var t := heap[i];
      var j := 0;
      while j < |t.kvals|
        invariant j <= |t.kvals| && FindVal(t.kvals, key, j) == FindVal(t.kvals, key, 0)
      {
        if t.kvals[j].key == key { return FoundVal(j); }
        j := j + 1;
      }
      j := 0;
      while j < |t.arrs|
        invariant j <= |t.arrs| && FindId(heap, t.arrs, key, j) == FindId(heap, t.arrs, key, 0)
      {
        if KeyAt(heap, t.arrs[j]) == key { return FoundArr(t.arrs[j]); }
        j := j + 1;
      }
      j := 0;
      while j < |t.tabs|
        invariant j <= |t.tabs| && FindId(heap, t.tabs, key, j) == FindId(heap, t.tabs, key, 0)
      {
        if KeyAt(heap, t.tabs[j]) == key { return FoundTab(t.tabs[j]); }
        j := j + 1;
      }
      f := Absent;
    }

    /** `normalize_key`: on success the caller owns one more block. */
    method TakeKey(key: Token) returns (k: Keys.KeyRead)
      requires TokenOk(env.inp, key) && key.kind == String && Balanced()
      modifies alloc
      ensures k == Keys.KeyOf(Text(env.inp, key))
      ensures if k.Key? then BalancedBut() else Balanced()
    {
      k := Keys.NormalizeKey(env.inp, key, alloc);
    }

    /** A key that is not needed any more. */
    method DropKey()
      requires BalancedBut()
      modifies alloc
      ensures Balanced()
    {
      alloc.Free(Scratch);
    }

    /** A new table, which gets the key just allocated. */
    method LinkTable(i: nat, key: Str, implicit: bool) returns (id: nat)
      requires BalancedBut() && i < |heap| && heap[i].Tab?
      modifies this`heap, alloc
      ensures Balanced() && id == |old(heap)| && heap == AddTab(old(heap), i, key, implicit)
    {
      id := |heap|;
      AddTabBlocks(heap, i, key, implicit);
      alloc.Grow(TabVec(i), heap[i].tabs == []);
      alloc.Alloc(NodeBlk(id));
      alloc.Give(Scratch, KeyBlk(id));
      heap := heap[i := heap[i].(tabs := heap[i].tabs + [id])] + [NewTab(Some(key), implicit)];
    }

    /** A new array, which gets the key just allocated. */
    method LinkArray(i: nat, key: Str) returns (id: nat)
      requires BalancedBut() && i < |heap| && heap[i].Tab?
      modifies this`heap, alloc
      ensures Balanced() && id == |old(heap)| && heap == AddArr(old(heap), i, key)
    {
      id := |heap|;
      AddArrBlocks(heap, i, key);
      alloc.Grow(ArrVec(i), heap[i].arrs == []);
      alloc.Alloc(NodeBlk(id));
      alloc.Give(Scratch, KeyBlk(id));
      heap := heap[i := heap[i].(arrs := heap[i].arrs + [id])] + [NewArr(Some(key))];
    }

    /** A new key-value, which gets the key just allocated, and a copy of the value. */
    method LinkKeyval(i: nat, key: Str, val: Str)
      requires BalancedBut() && i < |heap| && heap[i].Tab?
      modifies this`heap, alloc
      ensures Balanced() && heap == AddVal(old(heap), i, key, val)
    {
      ghost var n := |heap[i].kvals|;
      AddValBlocks(heap, i, key, val);
      alloc.Grow(KvalVec(i), heap[i].kvals == []);
      alloc.Alloc(KvBlk(i, n));
      alloc.Give(Scratch, KvKey(i, n));
      alloc.Alloc(KvVal(i, n));
      heap := heap[i := heap[i].(kvals := heap[i].kvals + [KeyVal(key, val)])];
    }

    /** A builder step ended as `b` says; a refusal is raised on the key's line. */
    ghost predicate BuiltAs(err: Option<Error>, id: nat, b: Built, line: nat)
      reads this
    {
      heap == b.heap && match b
                        case Done(_, n) => err == None && id == n
                        case Refused(_, why) => err == Some(Raised(why, line))
    }

    /** `create_keyval_in_table`, and the copy of the value its caller stores. */
    method CreateKeyvalInTable(i: nat, key: Token, val: Token) returns (err: Option<Error>)
      requires Valid() && TokenOk(env.inp, key) && key.kind == String && TokenOk(env.inp, val) && i < |heap|
      requires heap[i].Tab?
      modifies this`heap, alloc
      ensures Balanced()
      ensures BuiltAs(err, i, CreateVal(old(heap), i, Text(env.inp, key), Text(env.inp, val)), key.lineno)
    {
      var k := TakeKey(key);
      if !k.Key? {
        return Some(Raised(UnusableKey(k), key.lineno));
      }
      var found := CheckKeyIn(i, k.name);
      if !found.Absent? {
        DropKey();
        return Some(Error(KeyExists, key.lineno));
      }
      LinkKeyval(i, k.name, Text(env.inp, val));
      err := None;
    }

    /** The look-up and promotion of `create_keytable_in_table`, for a key that has been allocated. */
    method ClaimKeyTable(i: nat, k: Str) returns (err: bool, id: nat)
      requires StateOk(St()) && BalancedBut() && i < |heap| && heap[i].Tab?
      modifies this`heap, alloc
      ensures Balanced()
      ensures heap == ClaimTable(old(heap), i, k).heap
      ensures err == ClaimTable(old(heap), i, k).Refused?
      ensures !err ==> id == ClaimTable(old(heap), i, k).id
    {
      var found := CheckKeyIn(i, k);
      if !found.Absent? {
        DropKey();
        // a table that was made implicitly is made explicit now
        if found.FoundTab? && found.id < |heap| && heap[found.id].Tab? && heap[found.id].implicit {
          id := found.id;
          PromoteBlocks(heap, id);
          heap := heap[id := heap[id].(implicit := false)];
          return false, id;
        }
        return true, 0;
      }
      id := LinkTable(i, k, false);
      err := false;
    }

    method CreateKeytableInTable(i: nat, key: Token) returns (err: Option<Error>, id: nat)
      requires Valid() && TokenOk(env.inp, key) && key.kind == String && i < |heap| && heap[i].Tab?
      modifies this`heap, alloc
      ensures Balanced()
      ensures BuiltAs(err, id, CreateTable(old(heap), i, Text(env.inp, key)), key.lineno)
    {
      id := 0;
      var k := TakeKey(key);
      if !k.Key? {
        return Some(Raised(UnusableKey(k), key.lineno)), 0;
      }
      var taken;
      taken, id := ClaimKeyTable(i, k.name);
      assert ClaimTable(old(heap), i, k.name).Refused? ==> ClaimTable(old(heap), i, k.name).why == KeyTaken;
      err := if taken then Some(Error(KeyExists, key.lineno)) else None;
    }

    /** `create_keyarray_in_table` without `skip_if_exist`. */
    method CreateKeyarrayInTable(i: nat, key: Token) returns (err: Option<Error>, id: nat)
      requires Valid() && TokenOk(env.inp, key) && key.kind == String && i < |heap| && heap[i].Tab?
      modifies this`heap, alloc
      ensures Balanced()
      ensures BuiltAs(err, id, CreateArray(old(heap), i, Text(env.inp, key)), key.lineno)
    {
      id := 0;
      var k := TakeKey(key);
      if !k.Key? {
        return Some(Raised(UnusableKey(k), key.lineno)), 0;
      }
      var found := CheckKeyIn(i, k.name);
      if !found.Absent? {
        DropKey();
        return Some(Error(KeyExists, key.lineno)), 0;
      }
      id := LinkArray(i, k.name);
      err := None;
    }

    /** `create_array_in_array`, after the kind is set and checked. */
    method CreateArrayInArray(a: nat, line: nat) returns (err: Option<Error>, id: nat)
      requires Valid() && a < |heap| && heap[a].Arr?
      modifies this`heap, alloc
      ensures Balanced()
      ensures BuiltAs(err, id, AppendArray(old(heap), a), line)
    {
      id := |heap|;
      if heap[a].kind != NoKind && heap[a].kind != Arrays {
        return Some(Error(SyntaxError, line)), id;
      }
      PushArrBlocks(heap, a);
      alloc.Grow(ElemVec(a), heap[a].elems == []);
      alloc.Alloc(NodeBlk(id));
      heap := heap[a := heap[a].(kind := Arrays, elems := heap[a].elems + [A(id)])] + [NewArr(None)];
      err := None;
    }

    /** `create_table_in_array`, after the kind is set and checked. */
    method CreateTableInArray(a: nat, line: nat) returns (err: Option<Error>, id: nat)
      requires Valid() && a < |heap| && heap[a].Arr?
      modifies this`heap, alloc
      ensures Balanced()
      ensures BuiltAs(err, id, AppendTable(old(heap), a), line)
    {
      id := |heap|;
      if heap[a].kind != NoKind && heap[a].kind != Tables {
        return Some(Error(SyntaxError, line)), id;
      }
      PushTabBlocks(heap, a, None);
      alloc.Grow(ElemVec(a), heap[a].elems == []);
      alloc.Alloc(NodeBlk(id));
      heap := heap[a := heap[a].(kind := Tables, elems := heap[a].elems + [T(id)])] + [NewTab(None, false)];
      err := None;
    }

    /** The STRING case of `parse_array`: the value is stored before its type is compared. */
    method AppendValue(a: nat) returns (err: Option<Error>)
      requires Valid() && tok.kind == String && a < |heap| && heap[a].Arr?
      modifies this`heap, alloc
      ensures Balanced()
      ensures BuiltAs(err, a, AppendScalar(env.foreign, old(heap), a, Text(env.inp, tok)), tok.lineno)
    {
      if heap[a].kind != NoKind && heap[a].kind != Values {
        return Some(Error(SyntaxError, tok.lineno));
      }
      var val := Text(env.inp, tok);
      var typ := TypeOf(env.foreign, val);
      PushValue(a, val, typ);
      err := if heap[a].typ != typ then Some(Error(SyntaxError, tok.lineno)) else None;
    }

    /** A value at the end of an array, which takes the type of its first. */
    method PushValue(a: nat, val: Str, typ: ValType)
      requires Balanced() && a < |heap| && heap[a].Arr?
      modifies this`heap, alloc
      ensures Balanced() && heap == PushVal(old(heap), a, val, typ)
    {
      var first := heap[a].elems == [];
      var n := heap[a].(kind := Values, elems := heap[a].elems + [V(val)], typ := if first then typ else heap[a].typ);
      PushValBlocks(heap, a, val, typ);
      alloc.Grow(ElemVec(a), first);
      alloc.Alloc(ElemStr(a, |heap[a].elems|));
      heap := heap[a := n];
    }

    // ---- The descent ----

    /** `parse_array`, at `[`. */
    method ParseArray(a: nat) returns (err: Option<Error>)
      requires Valid() && tok.kind == LBracket && a < |heap| && heap[a].Arr?
      modifies this`tok, this`heap, alloc
      ensures Valid()
      ensures Ended(err, match Fetch(env.inp, old(heap), old(tok), false)
                         case Ok(s, t) => ParseElems(env, s, t, a)
                         case Fail(s, e) => Fail(s, e))
      decreases |env.inp| - tok.ptr, 1
    {
      err := NextToken(false);
      if err.Some? { return; }
      ghost var start := tok;
      ghost var goal := ParseElems(env, heap, tok, a);
      var more := true;
      while more
        invariant Valid() && a < |heap| && heap[a].Arr? && start.ptr <= tok.ptr
        invariant more ==> ParseElems(env, heap, tok, a) == goal
        invariant !more ==> Closing(RBracket) == goal
        decreases more, |env.inp| - tok.ptr
      {
        err, more := ArrayRound(a);
        if err.Some? { return; }
      }
      err := CloseWith(RBracket);
    }

    /** What is left to do once the loop over elements or fields is over. */
    ghost function Closing(bracket: Kind): Parsed
      requires TokenOk(env.inp, tok)
      reads this
    {
      if tok.kind == bracket then Fetch(env.inp, heap, tok, false) else Fail(heap, Error(SyntaxError, tok.lineno))
    }

    method CloseWith(bracket: Kind) returns (err: Option<Error>)
      requires Valid()
      modifies this`tok
      ensures Valid() && Ended(err, old(Closing(bracket)))
    {
      if tok.kind != bracket {
        return Some(Error(SyntaxError, tok.lineno));
      }
      err := NextToken(false);
    }

    /** One round of its loop: `more` says that a comma was read. */
    method ArrayRound(a: nat) returns (err: Option<Error>, more: bool)
      requires Valid() && a < |heap| && heap[a].Arr?
      modifies this`tok, this`heap, alloc
      ensures Valid()
      ensures err.Some? ==> Ended(err, ParseElems(env, old(heap), old(tok), a))
      ensures err.None? ==> a < |heap| && heap[a].Arr? && old(tok).ptr <= tok.ptr && (more ==> old(tok).ptr < tok.ptr)
      ensures err.None? ==>
                (if more then ParseElems(env, heap, tok, a) else Closing(RBracket))
                == ParseElems(env, old(heap), old(tok), a)
      decreases |env.inp| - tok.ptr, 4
    {
      more := false;
      err := SkipNewlineTokens();
      if err.Some? || tok.kind == RBracket { return; }
      ghost var r := ElemsRound(env, heap, old(tok), tok, a);
      err := ParseElement(a);
      if err.Some? { return; }
      err, more := ArrayRoundEnd(a);
    }

    /** After the element. */
    method ArrayRoundEnd(a: nat) returns (err: Option<Error>, more: bool)
      requires Valid() && a < |heap| && heap[a].Arr?
      modifies this`tok
      ensures Valid() && old(tok).ptr <= tok.ptr && (err.None? && more ==> old(tok).ptr < tok.ptr)
      ensures err.Some? ==> Ended(err, ElemsTail(env, heap, old(tok), a))
      ensures err.None? ==>
                (if more then ParseElems(env, heap, tok, a) else Closing(RBracket)) == ElemsTail(env, heap, old(tok), a)
    {
      more := false;
      err := SkipNewlineTokens();
      if err.Some? { return; }
      if tok.kind == Kind.Comma {
        more := true;
        err := NextToken(false);
      }
    }

    /** One element. */
    method ParseElement(a: nat) returns (err: Option<Error>)
      requires Valid() && a < |heap| && heap[a].Arr?
      modifies this`tok, this`heap, alloc
      ensures Valid() && Ended(err, ParseElem(env, old(heap), old(tok), a))
      decreases |env.inp| - tok.ptr, 3
    {
      match tok.kind {
        case String => err := ValueElement(a);
        case LBracket => err := ArrayElement(a);
        case LBrace => err := TableElement(a);
        case _ => err := Some(Error(SyntaxError, tok.lineno));
      }
    }

    method ValueElement(a: nat) returns (err: Option<Error>)
      requires Valid() && tok.kind == String && a < |heap| && heap[a].Arr?
      modifies this`tok, this`heap, alloc
      ensures Valid() && Ended(err, ParseElem(env, old(heap), old(tok), a))
    {
      ghost var s := heap;
      err := AppendValue(a);
      GrownStateOk(s);
      if err.Some? { return; }
      err := NextToken(false);
    }

    method ArrayElement(a: nat) returns (err: Option<Error>)
      requires Valid() && tok.kind == LBracket && a < |heap| && heap[a].Arr?
      modifies this`tok, this`heap, alloc
      ensures Valid() && Ended(err, ParseElem(env, old(heap), old(tok), a))
      decreases |env.inp| - tok.ptr, 2
    {
      ghost var s := heap;
      var id;
      err, id := CreateArrayInArray(a, tok.lineno);
      GrownStateOk(s);
      if err.Some? { return; }
      err := ParseArray(id);
    }

    method TableElement(a: nat) returns (err: Option<Error>)
      requires Valid() && tok.kind == LBrace && a < |heap| && heap[a].Arr?
      modifies this`tok, this`heap, alloc
      ensures Valid() && Ended(err, ParseElem(env, old(heap), old(tok), a))
      decreases |env.inp| - tok.ptr, 2
    {
      ghost var s := heap;
      var id;
      err, id := CreateTableInArray(a, tok.lineno);
      GrownStateOk(s);
      if err.Some? { return; }
      err := ParseTable(id);
    }

    /** The root and the current table are still tables after the document has grown. */
    lemma GrownStateOk(s: Heap)
      requires Grows(s, heap) && StateOk(State(s, curtab, path))
      ensures StateOk(St())
    {
      assert NodeGrows(s[ROOT], heap[ROOT]) && NodeGrows(s[curtab], heap[curtab]);
    }

    /** `parse_table`, at `{`. */
    method ParseTable(i: nat) returns (err: Option<Error>)
      requires Valid() && tok.kind == LBrace && i < |heap| && heap[i].Tab?
      modifies this`tok, this`heap, alloc
      ensures Valid()
      ensures Ended(err, match Fetch(env.inp, old(heap), old(tok), false)
                         case Ok(s, t) => ParseFields(env, s, t, i)
                         case Fail(s, e) => Fail(s, e))
      decreases |env.inp| - tok.ptr, 1
    {
      err := NextToken(false);
      if err.Some? { return; }
      ghost var start := tok;
      ghost var goal := ParseFields(env, heap, tok, i);
      var more := true;
      while more
        invariant Valid() && i < |heap| && heap[i].Tab? && start.ptr <= tok.ptr
        invariant more ==> ParseFields(env, heap, tok, i) == goal
        invariant !more ==> Closing(RBrace) == goal
        decreases more, |env.inp| - tok.ptr
      {
        err, more := TableRound(i);
        if err.Some? { return; }
      }
      err := CloseWith(RBrace);
    }

    /** One round of its loop: `more` says that a comma was read. */
    method TableRound(i: nat) returns (err: Option<Error>, more: bool)
      requires Valid() && i < |heap| && heap[i].Tab?
      modifies this`tok, this`heap, alloc
      ensures Valid()
      ensures err.Some? ==> Ended(err, ParseFields(env, old(heap), old(tok), i))
      ensures err.None? ==> i < |heap| && heap[i].Tab? && old(tok).ptr <= tok.ptr && (more ==> old(tok).ptr < tok.ptr)
      ensures err.None? ==>
                (if more then ParseFields(env, heap, tok, i) else Closing(RBrace))
                == ParseFields(env, old(heap), old(tok), i)
      decreases |env.inp| - tok.ptr, 4
    {
      more := false;
      err := SkipNewlineTokens();
      if err.Some? || tok.kind == RBrace { return; }
      if tok.kind != String {
        return Some(Error(SyntaxError, tok.lineno)), false;
      }
      ghost var r := Parser.ParseKeyval(env, heap, tok, i);
      assert r.Ok? ==> NodeGrows(heap[i], r.heap[i]);
      err := ParseKeyval(i);
      if err.Some? { return; }
      err, more := TableRoundEnd(i);
    }

    /** After the key-value. */
    method TableRoundEnd(i: nat) returns (err: Option<Error>, more: bool)
      requires Valid() && i < |heap| && heap[i].Tab?
      modifies this`tok
      ensures Valid() && old(tok).ptr <= tok.ptr && (err.None? && more ==> old(tok).ptr < tok.ptr)
      ensures err.Some? ==> Ended(err, FieldsTail(env, heap, old(tok), i))
      ensures err.None? ==>
                (if more then ParseFields(env, heap, tok, i) else Closing(RBrace)) == FieldsTail(env, heap, old(tok), i)
    {
      more := false;
      err := SkipNewlineTokens();
      if err.Some? { return; }
      if tok.kind == Kind.Comma {
        more := true;
        err := NextToken(false);
      }
    }

    /** `parse_keyval`, at a key. */
    method ParseKeyval(i: nat) returns (err: Option<Error>)
      requires Valid() && tok.kind == String && i < |heap| && heap[i].Tab?
      modifies this`tok, this`heap, alloc
      ensures Valid() && Ended(err, Parser.ParseKeyval(env, old(heap), old(tok), i))
      decreases |env.inp| - tok.ptr, 1
    {
      var key := tok;
      err := NextToken(false);
      if err.Some? { return; }
      if tok.kind != Equal {
        return Some(Error(SyntaxError, tok.lineno));
      }
      err := NextToken(false);
      if err.Some? { return; }
      err := ParseValue(i, key);
    }

    /** Its last step: the value. */
    method ParseValue(i: nat, key: Token) returns (err: Option<Error>)
      requires Valid() && TokenOk(env.inp, key) && key.kind == String && i < |heap| && heap[i].Tab?
      modifies this`tok, this`heap, alloc
      ensures Valid() && Ended(err, ParseEntry(env, old(heap), key, old(tok), i))
      decreases |env.inp| - tok.ptr, 3
    {
      match tok.kind {
        case String => err := StringEntry(i, key);
        case LBracket => err := ArrayEntry(i, key);
        case LBrace => err := TableEntry(i, key);
        case _ => err := Some(Error(SyntaxError, tok.lineno));
      }
    }

    method StringEntry(i: nat, key: Token) returns (err: Option<Error>)
      requires Valid() && TokenOk(env.inp, key) && key.kind == String && tok.kind == String && i < |heap|
      requires heap[i].Tab?
      modifies this`tok, this`heap, alloc
      ensures Valid() && Ended(err, ParseEntry(env, old(heap), key, old(tok), i))
    {
      ghost var s := heap;
      err := CreateKeyvalInTable(i, key, tok);
      GrownStateOk(s);
      if err.Some? { return; }
      err := NextToken(false);
    }

    method ArrayEntry(i: nat, key: Token) returns (err: Option<Error>)
      requires Valid() && TokenOk(env.inp, key) && key.kind == String && tok.kind == LBracket && i < |heap|
      requires heap[i].Tab?
      modifies this`tok, this`heap, alloc
      ensures Valid() && Ended(err, ParseEntry(env, old(heap), key, old(tok), i))
      decreases |env.inp| - tok.ptr, 2
    {
      ghost var s, goal := heap, ParseEntry(env, heap, key, tok, i);
      var id;
      err, id := CreateKeyarrayInTable(i, key);
      assert err.None? ==> goal == match Fetch(env.inp, heap, tok, false)
                                   case Ok(h, t) => ParseElems(env, h, t, id)
                                   case Fail(h, e) => Fail(h, e);
      GrownStateOk(s);
      if err.Some? { return; }
      err := ParseArray(id);
    }

    method TableEntry(i: nat, key: Token) returns (err: Option<Error>)
      requires Valid() && TokenOk(env.inp, key) && key.kind == String && tok.kind == LBrace && i < |heap|
      requires heap[i].Tab?
      modifies this`tok, this`heap, alloc
      ensures Valid() && Ended(err, ParseEntry(env, old(heap), key, old(tok), i))
      decreases |env.inp| - tok.ptr, 2
    {
      ghost var s := heap;
      var id;
      err, id := CreateKeytableInTable(i, key);
      GrownStateOk(s);
      if err.Some? { return; }
      err := ParseTable(id);
    }

    // ---- Headers ----

    /** The token names this key. */
    ghost predicate Names(t: Token, key: Str) {
      TokenOk(env.inp, t) && t.kind == String && Keys.KeyOf(Text(env.inp, t)) == Keys.Key(key)
    }

    /** The last key of `tpath` is the one its token names. */
    ghost predicate PathOk()
      reads this
    {
      |path| == |pathToks| && (path != [] ==> Names(pathToks[|path| - 1], path[|path| - 1]))
    }

    /** Freeing the keys of `tpath`. */
    method ClearPath()
      requires Balanced()
      modifies this`path, this`pathToks, alloc
      ensures Balanced() && path == [] && pathToks == []
    {
      ghost var live := alloc.live;
      for k := 0 to |path|
        invariant forall b {:trigger b in alloc.live} :: b in alloc.live <==> b in live && !(b.PathKey? && b.top < k)
      {
        alloc.Free(PathKey(k));
      }
      path, pathToks := [], [];
    }

    /** `fill_tabpath`. */
    method FillTabpath() returns (err: Option<Error>)
      requires Valid()
      modifies this`tok, this`path, this`pathToks, alloc
      ensures Valid()
      ensures match FillPath(env.inp, old(tok), old(tok).lineno, [], [])
              case Path(names, toks, t) => err == None && path == names && pathToks == toks && tok == t && PathOk()
              case NoPath(names, e) => err == Some(e) && path == names
    {
      var lineno := tok.lineno;
      ClearPath();
      var more := true;
      while more
        invariant Valid() && PathOk() && |path| <= MAX_PATH
        invariant more ==> FillPath(env.inp, tok, lineno, path, pathToks) == FillPath(env.inp, old(tok), lineno, [], [])
        invariant !more ==> Path(path, pathToks, tok) == FillPath(env.inp, old(tok), lineno, [], [])
        decreases more, |env.inp| - tok.ptr
      {
        err, more := PathRound(lineno);
        if err.Some? { return; }
      }
      err := None;
    }

    /** A key is read into `tpath`. */
    method PushKey() returns (err: Option<Error>)
      requires Valid() && |path| == |pathToks| && tok.kind == String
      modifies this`path, this`pathToks, alloc
      ensures Valid()
      ensures match Keys.KeyOf(Text(env.inp, tok))
              case Key(k) => err == None && path == old(path) + [k] && pathToks == old(pathToks) + [tok] && PathOk()
              case bad =>
                err == Some(Raised(UnusableKey(bad), tok.lineno)) && path == old(path) && pathToks == old(pathToks)
    {
      var k := TakeKey(tok);
      if !k.Key? {
        return Some(Raised(UnusableKey(k), tok.lineno));
      }
      alloc.Give(Scratch, PathKey(|path|));
      path, pathToks := path + [k.name], pathToks + [tok];
      err := None;
    }

    /** One round of its loop: a key, and `]` or a dot. */
    method PathRound(lineno: nat) returns (err: Option<Error>, more: bool)
      requires Valid() && PathOk() && |path| <= MAX_PATH
      modifies this`tok, this`path, this`pathToks, alloc
      ensures Valid()
      ensures err.Some? ==> NoPath(path, err.value) == FillPath(env.inp, old(tok), lineno, old(path), old(pathToks))
      ensures err.None? ==> PathOk() && |path| <= MAX_PATH && (more ==> old(tok).ptr < tok.ptr)
      ensures err.None? ==>
                ((if more then FillPath(env.inp, tok, lineno, path, pathToks) else Path(path, pathToks, tok))
                 == FillPath(env.inp, old(tok), lineno, old(path), old(pathToks)))
    {
      more := false;
      if |path| >= MAX_PATH {
        return Some(Error(SyntaxError, lineno)), more;
      }
      if tok.kind != String {
        return Some(Error(SyntaxError, lineno)), more;
      }
      err := PushKey();
      if err.Some? { return; }
      err, more := AfterKey(lineno);
    }

    /** What comes after a key: `]`, or a dot and one more token. */
    method AfterKey(lineno: nat) returns (err: Option<Error>, more: bool)
      requires TokenOk(env.inp, tok)
      modifies this`tok
      ensures TokenOk(env.inp, tok)
      ensures match Next(env.inp, old(tok), true)
              case LexError(l) => err == Some(Error(SyntaxError, l))
              case Tok(u) =>
                if u.kind == RBracket then err == None && !more && tok == u
                else if u.kind != Dot then err == Some(Error(SyntaxError, lineno))
                else match Next(env.inp, u, true)
                  case LexError(l) => err == Some(Error(SyntaxError, l))
                  case Tok(w) => err == None && more && tok == w
    {
      more := false;
      err := NextToken(true);
      if err.Some? || tok.kind == RBracket { return; }
      if tok.kind != Dot {
        return Some(Error(SyntaxError, lineno)), more;
      }
      more := true;
      err := NextToken(true);
    }

    /** `walk_tabpath`. */
    method WalkTabpath() returns (err: Option<Error>)
      requires Valid() && |path| <= |pathToks|
      modifies this`heap, this`curtab, alloc
      ensures Valid()
      ensures match Walk(old(heap), ROOT, path, 0)
              case Reached(h, id) => err == None && heap == h && curtab == id
              case Blocked(h, at, why) => err == Some(Error(why, pathToks[at].lineno)) && heap == h
    {
      var cur: nat, i := ROOT, 0;
      while i < |path|
        invariant 0 <= i <= |path| && Valid() && cur < |heap| && heap[cur].Tab?
        invariant Walk(heap, cur, path, i) == Walk(old(heap), ROOT, path, 0)
      {
        err, cur := WalkStep(cur, i);
        if err.Some? { return; }
        i := i + 1;
      }
      curtab := cur;
      err := None;
    }

    /** One step of the walk: the table under key `i` of the path, made if there is none. */
    method WalkStep(cur: nat, i: nat) returns (err: Option<Error>, next: nat)
      requires Valid() && i < |path| <= |pathToks| && cur < |heap| && heap[cur].Tab?
      modifies this`heap, alloc
      ensures Valid()
      ensures err.Some? ==> exists why :: err == Some(Error(why, pathToks[i].lineno))
                                          && Walk(old(heap), cur, path, i) == Blocked(heap, i, why)
      ensures err.None? ==>
                next < |heap| && heap[next].Tab? && Walk(heap, next, path, i + 1) == Walk(old(heap), cur, path, i)
    {
      next := cur;
      var found := CheckKeyIn(cur, path[i]);
      match found {
        case FoundTab(id) =>
          if !(id < |heap| && heap[id].Tab?) { return Some(Error(InternalError, pathToks[i].lineno)), cur; }
          next := id;
        case FoundArr(id) =>
          // the last table of an array of tables
          var last := LastTable(heap, id);
          if last.None? { return Some(Error(InternalError, pathToks[i].lineno)), cur; }
          next := last.value;
        case FoundVal(_) =>
          return Some(Error(KeyExists, pathToks[i].lineno)), cur;
        case Absent =>
          next := LinkImplicit(cur, path[i]);
      }
      err := None;
    }

    /** An implicit table, and a copy of its key. */
    method LinkImplicit(cur: nat, key: Str) returns (id: nat)
      requires Valid() && cur < |heap| && heap[cur].Tab?
      modifies this`heap, alloc
      ensures Valid() && id == |old(heap)| && heap == AddTab(old(heap), cur, key, true)
    {
      ghost var s := heap;
      id := |heap|;
      AddTabBlocks(heap, cur, key, true);
      alloc.Grow(TabVec(cur), heap[cur].tabs == []);
      alloc.Alloc(NodeBlk(id));
      alloc.Alloc(KeyBlk(id));
      heap := heap[cur := heap[cur].(tabs := heap[cur].tabs + [id])] + [NewTab(Some(key), true)];
      GrownStateOk(s);
    }

    /** `[[x.y.z]]`, in x.y: `create_keyarray_in_table` with `skip_if_exist`, and a new table in the array. */
    method AppendElementOf(i: nat, z: Token, ghost name: Str) returns (err: Option<Error>, id: nat)
      requires Valid() && Names(z, name)
      requires i < |heap| && heap[i].Tab?
      modifies this`heap, alloc
      ensures Balanced()
      ensures match AppendElement(old(heap), i, name)
              case Done(h, n) => err == None && heap == h && id == n
              case Refused(h, _) => err == Some(Error(SyntaxError, z.lineno)) && heap == h
    {
      id := 0;
      var k := TakeKey(z);
      var found := CheckKeyIn(i, k.name);
      var a;
      if !found.Absent? {
        DropKey();
        if !(found.FoundArr? && found.id < |heap| && heap[found.id].Arr?) {
          return Some(Error(SyntaxError, z.lineno)), 0;
        }
        a := found.id;
      } else {
        a := LinkArray(i, k.name);
      }
      if heap[a].kind != NoKind && heap[a].kind != Tables {
        return Some(Error(SyntaxError, z.lineno)), 0;
      }
      id := PushElement(a);
      err := None;
    }

    /** A new table, keyed `__anon__`, at the end of an array. */
    method PushElement(a: nat) returns (id: nat)
      requires Balanced() && a < |heap| && heap[a].Arr?
      modifies this`heap, alloc
      ensures Balanced() && id == |old(heap)| && heap == PushTab(old(heap), a, Some(ANON))
    {
      id := |heap|;
      PushTabBlocks(heap, a, Some(ANON));
      alloc.Grow(ElemVec(a), heap[a].elems == []);
      alloc.Alloc(NodeBlk(id));
      alloc.Alloc(KeyBlk(id));
      heap := heap[a := heap[a].(kind := Tables, elems := heap[a].elems + [T(id)])] + [NewTab(Some(ANON), false)];
    }

    /** A statement ended as `r` says; after an error the current table no longer matters. */
    ghost predicate EndedAs(err: Option<Error>, r: Result)
      reads this
    {
      heap == r.st.heap && path == r.st.path && match r
                                                case Going(st, t) => err == None && curtab == st.cur && tok == t
                                                case Raise(_, e) => err == Some(e)
    }

    /** `parse_select`, at `[`. */
    method ParseSelect() returns (err: Option<Error>)
      requires Valid() && tok.kind == LBracket
      modifies this`tok, this`heap, this`curtab, this`path, this`pathToks, alloc
      ensures Valid() && EndedAs(err, Document.ParseSelect(env.inp, old(St()), old(tok)))
    {
      var double := false;
      err := NextToken(true);
      if err.Some? { return; }
      if tok.kind == LBracket {
        double := true;
        err := NextToken(true);
        if err.Some? { return; }
      }
      err := SelectPath(double);
    }

    /** Its path, and the table it selects. */
    method SelectPath(double: bool) returns (err: Option<Error>)
      requires Valid()
      modifies this`tok, this`heap, this`curtab, this`path, this`pathToks, alloc
      ensures Valid() && EndedAs(err, FillAndEnter(env.inp, old(St()), old(tok), double))
    {
      ghost var st, t := St(), tok;
      err := FillTabpath();
      if err.Some? { return; }
      assert FillAndEnter(env.inp, st, t, double) == Enter(env.inp, st, Path(path, pathToks, tok), double);
      EnterIgnoresPath(env.inp, st, path, Path(path, pathToks, tok), double);
      err := EnterAndClose(double);
    }

    /** The table the path selects, and the closing brackets. */
    method EnterAndClose(double: bool) returns (err: Option<Error>)
      requires Valid() && path != [] && PathOk() && tok.kind == RBracket
      modifies this`tok, this`heap, this`curtab, this`path, alloc
      ensures Valid()
      ensures EndedAs(err, Enter(env.inp, State(old(heap), old(curtab), old(path)),
                                 Path(old(path), pathToks, old(tok)), double))
    {
      err := EnterTable(double);
      if err.Some? { return; }
      err := CloseBrackets(double);
    }

    /** Removing z from `tpath`, walking to x.y, and making z there. */
    method EnterTable(double: bool) returns (err: Option<Error>)
      requires Valid() && path != [] && PathOk()
      modifies this`heap, this`curtab, this`path, alloc
      ensures Valid() && path == old(path)[..|old(path)| - 1]
      ensures match (if double then SelectElement(old(heap), old(path)) else SelectTable(old(heap), old(path)))
              case Current(h, id) => err == None && heap == h && curtab == id
              case Unselected(h, at, why) => err == Some(Error(why, pathToks[at].lineno)) && heap == h
    {
      var last := |path| - 1;
      ghost var name := path[last];
      assert path == path[..last] + [name];
      var z := pathToks[last];
      alloc.Free(PathKey(last));
      path := path[..last];
      err := EnterPath(double, z, name);
    }

    /** Walking to x.y, and making z there. */
    method EnterPath(double: bool, z: Token, ghost name: Str) returns (err: Option<Error>)
      requires Valid() && |pathToks| == |path| + 1 && pathToks[|path|] == z
      requires Names(z, name)
      modifies this`heap, this`curtab, alloc
      ensures Valid()
      ensures match (if double then SelectElement(old(heap), path + [name]) else SelectTable(old(heap), path + [name]))
              case Current(h, id) => err == None && heap == h && curtab == id
              case Unselected(h, at, why) => err == Some(Error(why, pathToks[at].lineno)) && heap == h
    {
      assert (path + [name])[..|path|] == path;
      err := WalkTabpath();
      if err.Some? { return; }
      err := MakeLast(double, z, name);
    }

    /** Making z in the current table, and moving there. */
    method MakeLast(double: bool, z: Token, ghost name: Str) returns (err: Option<Error>)
      requires Valid() && Names(z, name)
      modifies this`heap, this`curtab, alloc
      ensures Valid()
      ensures match (if double then AppendElement(old(heap), old(curtab), name)
                     else ClaimTable(old(heap), old(curtab), name))
              case Done(h, id) => err == None && heap == h && curtab == id
              case Refused(h, why) =>
                err == Some(Error(if double then SyntaxError else KeyExists, z.lineno)) && heap == h
    {
      ghost var s := heap;
      var id;
      if double {
        err, id := AppendElementOf(curtab, z, name);
      } else {
        err, id := CreateKeytableInTable(curtab, z);
      }
      GrownStateOk(s);
      if err.Some? { return; }
      curtab := id;
    }

    /** `]` or `]]`, and the end of the line. */
    method CloseBrackets(double: bool) returns (err: Option<Error>)
      requires Valid() && tok.kind == RBracket
      modifies this`tok
      ensures Valid() && EndedAs(err, CloseHeader(env.inp, St(), old(tok), double))
    {
      err := NextToken(false);
      if err.Some? { return; }
      if double {
        if tok.kind != RBracket {
          return Some(Error(SyntaxError, tok.lineno));
        }
        err := NextToken(false);
        if err.Some? { return; }
      }
      if tok.kind != Newline {
        return Some(Error(SyntaxError, tok.lineno));
      }
    }

    // ---- toml_parse and toml_free ----

    /** One round of the loop of `toml_parse`. */
    method ParseStatement() returns (err: Option<Error>)
      requires Valid() && !tok.eof
      modifies this`tok, this`heap, this`curtab, this`path, this`pathToks, alloc
      ensures Valid() && EndedAs(err, Statement(env, old(St()), old(tok)))
    {
      match tok.kind {
        case Newline =>
          err := NextToken(true);
        case String =>
          err := ParseKeyval(curtab);
          if err.Some? { return; }
          if tok.kind != Newline {
            return Some(Error(SyntaxError, tok.lineno));
          }
          err := NextToken(false);
        case LBracket =>
          err := ParseSelect();
        case _ =>
          err := Some(Error(SyntaxError, tok.lineno));
      }
    }

    /** The loop of `toml_parse`. */
    method ParseStatements() returns (err: Option<Error>)
      requires Valid()
      modifies this`tok, this`heap, this`curtab, this`path, this`pathToks, alloc
      ensures Valid() && EndedAs(err, Statements(env, old(St()), old(tok)))
    {
      err := None;
      while !tok.eof
        invariant Valid() && err == None
        invariant Statements(env, St(), tok) == Statements(env, old(St()), old(tok))
        decreases |env.inp| - tok.ptr
      {
        err := ParseStatement();
        if err.Some? { return; }
      }
    }

    /** Everything up to the end of the file or the first error. */
    method ParseText() returns (err: Option<Error>)
      requires env.guard && tok == START && St() == INITIAL && Balanced()
      modifies this`tok, this`heap, this`curtab, this`path, this`pathToks, alloc
      ensures Balanced() && EndedAs(err, Document.Parse(env))
    {
      err := NextToken(true);
      if err.None? {
        err := ParseStatements();
      }
    }

    /**
      * `toml_parse`: on success exactly the document's blocks are alive; at an error
      * none is, and the nodes have been freed each once, in the order of `toml_free`.
      */
    method TomlParse() returns (err: Option<Error>)
      requires env.guard && tok == START && St() == INITIAL && Balanced() && freed == []
      modifies this, alloc
      ensures heap == Document.Parse(env).st.heap && Inv(heap) && Ordered(heap)
      ensures match Document.Parse(env)
              case Going(_, _) => err == None && freed == [] && forall b :: b in alloc.live <==> Below(heap, ROOT, b)
              case Raise(_, e) => err == Some(e) && freed == FreeOrder(heap, ROOT) && alloc.live == {}
    {
      ParsedInOrder(env);
      err := ParseText();
      CleanUp(err.Some?);
    }

    /** Whichever way it ends, `tpath` is freed, and after an error the document. */
    method CleanUp(failed: bool)
      requires Balanced() && Inv(heap) && freed == []
      modifies this`path, this`pathToks, this`freed, alloc
      ensures Ordered(heap)
      ensures !failed ==> freed == [] && forall b :: b in alloc.live <==> Below(heap, ROOT, b)
      ensures failed ==> freed == FreeOrder(heap, ROOT) && alloc.live == {}
    {
      ClearPath();
      InvOrdered(heap);
      forall b ensures Owned(heap, b) <==> Below(heap, ROOT, b) { OwnedIsReached(heap, b); }
      if failed {
        XFreeTab(ROOT);
      }
    }

    /** Every block of node `id` and below is alive. */
    ghost predicate Whole(id: nat)
      requires Inv(heap)
      reads this, alloc
    {
      forall b :: Below(heap, id, b) ==> b in alloc.live
    }

    /** Just these blocks have been freed since `live`. */
    ghost predicate FreedFrom(live: set<Block>, id: nat)
      requires Inv(heap)
      reads this, alloc
    {
      forall b {:trigger b in alloc.live} :: b in alloc.live <==> b in live && !Below(heap, id, b)
    }

    ghost predicate FreedFromAny(live: set<Block>, id: nat, kids: seq<nat>)
      requires Inv(heap)
      reads this, alloc
    {
      forall b {:trigger b in alloc.live} :: b in alloc.live <==> b in live && !BelowAny(heap, id, kids, b)
    }

    /** `xfree_tab`: its key, its key-values, its arrays, its tables, and itself. */
    method XFreeTab(id: nat)
      requires Inv(heap) && Ordered(heap) && id < |heap| && heap[id].Tab? && Whole(id)
      modifies this`freed, alloc
      ensures FreedFrom(old(alloc.live), id)
      ensures freed == old(freed) + FreeOrder(heap, id)
      decreases |heap| - id, 3
    {
      OwnBlocksLive(id);
      FreeFirst(id);
      ghost var l1 := alloc.live;
      ListsLive(heap, id, old(alloc.live), l1);
      FreeLists(l1, old(freed), id);
      ghost var l2 := alloc.live;
      NodeLive(heap, id, l1, l2);
      FreeNode(old(freed), id);
      TableIsGone(heap, id, old(alloc.live), l1, l2);
    }

    /** The arrays and the tables of a table, each with their vector. */
    method FreeLists(ghost live: set<Block>, ghost before: seq<nat>, id: nat)
      requires Inv(heap) && Ordered(heap) && id < |heap| && heap[id].Tab? && alloc.live == live && freed == before
      requires forall b | BelowAny(heap, id, Kids(heap[id]), b) :: b in live
      requires (heap[id].arrs != [] ==> ArrVec(id) in live) && (heap[id].tabs != [] ==> TabVec(id) in live)
      requires NodeBlk(id) in live
      modifies this`freed, alloc
      ensures ListsFreed(heap, id, live, alloc.live) && FreedSince(heap, before, id, Kids(heap[id]), freed)
      decreases |heap| - id, 2
    {
      FreeArrs(live, before, id);
      ghost var l := live - if heap[id].arrs != [] then {ArrVec(id)} else {};
      StillLive(heap, id, live, l);
      FreeTabs(l, before, id);
      ListsAreGone(heap, id, live, l - (if heap[id].tabs != [] then {TabVec(id)} else {}), alloc.live);
    }

    method FreeArrs(ghost live: set<Block>, ghost before: seq<nat>, id: nat)
      requires Inv(heap) && Ordered(heap) && id < |heap| && heap[id].Tab? && alloc.live == live && freed == before
      requires forall b | BelowAny(heap, id, Kids(heap[id]), b) :: b in live
      requires (heap[id].arrs != [] ==> ArrVec(id) in live) && NodeBlk(id) in live
      modifies this`freed, alloc
      ensures FreedFromAny(live - (if heap[id].arrs != [] then {ArrVec(id)} else {}), id, heap[id].arrs)
      ensures FreedSince(heap, before, id, heap[id].arrs, freed)
      decreases |heap| - id, 1, 2
    {
      NothingFreed(heap, before, id);
      TabKids(heap, id);
      FreeEntries(live, before, id, [], heap[id].arrs, heap[id].arrs, ArrVec(id));
    }

    method FreeTabs(ghost live: set<Block>, ghost before: seq<nat>, id: nat)
      requires Inv(heap) && Ordered(heap) && id < |heap| && heap[id].Tab?
      requires forall b | BelowAny(heap, id, Kids(heap[id]), b) :: b in live
      requires (heap[id].tabs != [] ==> TabVec(id) in live) && NodeBlk(id) in live
      requires FreedFromAny(live, id, heap[id].arrs) && FreedSince(heap, before, id, heap[id].arrs, freed)
      modifies this`freed, alloc
      ensures FreedFromAny(live - (if heap[id].tabs != [] then {TabVec(id)} else {}), id, Kids(heap[id]))
      ensures FreedSince(heap, before, id, Kids(heap[id]), freed)
      decreases |heap| - id, 1, 2
    {
      TabKids(heap, id);
      FreeEntries(live, before, id, heap[id].arrs, heap[id].tabs, Kids(heap[id]), TabVec(id));
    }

    /** One list of a table, and its vector. */
    method FreeEntries(ghost live: set<Block>, ghost before: seq<nat>, ghost id: nat, ghost done: seq<nat>,
                       ids: seq<nat>, ghost all: seq<nat>, ghost vec: Block)
      requires Inv(heap) && Ordered(heap) && id < |heap| && all == done + ids <= Kids(heap[id])
      requires forall b | BelowAny(heap, id, Kids(heap[id]), b) :: b in live
      requires (vec == ArrVec(id) || vec == TabVec(id)) && (ids != [] ==> vec in live) && NodeBlk(id) in live
      requires FreedFromAny(live, id, done) && FreedSince(heap, before, id, done, freed)
      modifies this`freed, alloc
      ensures FreedFromAny(live - (if ids != [] then {vec} else {}), id, all)
      ensures FreedSince(heap, before, id, all, freed)
      decreases |heap| - id, 1, 1
    {
      XFreeList(live, before, id, done, ids, vec);
      if ids != [] { alloc.Free(vec); }
    }

    /** The node's own struct, after everything else. */
    method FreeNode(ghost before: seq<nat>, id: nat)
      requires Ordered(heap) && id < |heap| && NodeBlk(id) in alloc.live
      requires FreedSince(heap, before, id, Kids(heap[id]), freed)
      modifies this`freed, alloc
      ensures alloc.live == old(alloc.live) - {NodeBlk(id)} && freed == before + FreeOrder(heap, id)
    {
      alloc.Free(NodeBlk(id));
      Assoc(before, FreeAll(heap, id, Kids(heap[id])), [id]);
      freed := freed + [id];
    }

    /** What node `id` itself consists of is alive. */
    lemma OwnBlocksLive(id: nat)
      requires Inv(heap) && id < |heap| && Whole(id)
      ensures forall b | OfNode(b) && b.id == id && Has(heap[id], b) :: b in alloc.live
      ensures forall b | BelowAny(heap, id, Kids(heap[id]), b) :: b in alloc.live
    {
      forall b | OfNode(b) && b.id == id && Has(heap[id], b) ensures b in alloc.live { BelowSplit(heap, id, b); }
      forall b | BelowAny(heap, id, Kids(heap[id]), b) ensures b in alloc.live { BelowSplit(heap, id, b); }
    }

    /** The key of a table, and its key-values. */
    method FreeFirst(id: nat)
      requires id < |heap| && heap[id].Tab?
      requires forall b | (b == KeyBlk(id) || KvalPart(id, b)) && Has(heap[id], b) :: b in alloc.live
      requires NodeBlk(id) in alloc.live
      modifies alloc
      ensures FirstFreed(heap, id, old(alloc.live), alloc.live)
    {
      assert heap[id].key.Some? ==> Has(heap[id], KeyBlk(id));
      FreeKey(id);
      FreeKeyvals(id);
    }

    /** `xfree(p->key)`, which may be NULL. */
    method FreeKey(id: nat)
      requires id < |heap| && (heap[id].key.Some? ==> KeyBlk(id) in alloc.live) && NodeBlk(id) in alloc.live
      modifies alloc
      ensures alloc.live == old(alloc.live) - if heap[id].key.Some? then {KeyBlk(id)} else {}
    {
      if heap[id].key.Some? { alloc.Free(KeyBlk(id)); }
    }

    /** `xfree_kval`. */
    method XFreeKval(id: nat, i: nat)
      requires {KvKey(id, i), KvVal(id, i), KvBlk(id, i), KvalVec(id)} <= alloc.live
      modifies alloc
      ensures alloc.live == old(alloc.live) - {KvKey(id, i), KvVal(id, i), KvBlk(id, i)}
    {
      alloc.Free(KvKey(id, i));
      alloc.Free(KvVal(id, i));
      alloc.Free(KvBlk(id, i));
    }

    /** The key-values of a table, and the vector of them. */
    method FreeKeyvals(id: nat)
      requires id < |heap| && heap[id].Tab? && NodeBlk(id) in alloc.live
      requires forall b | KvalPart(id, b) && Has(heap[id], b) :: b in alloc.live
      modifies alloc
      ensures forall b {:trigger b in alloc.live} ::
                b in alloc.live <==> b in old(alloc.live) && !(KvalPart(id, b) && Has(heap[id], b))
    {
      var kvals := heap[id].kvals;
      for i := 0 to |kvals|
        invariant forall b {:trigger b in alloc.live} ::
                    b in alloc.live <==> b in old(alloc.live) && !(KvalPart(id, b) && !b.KvalVec? && b.i < i)
      {
        assert Has(heap[id], KvKey(id, i)) && Has(heap[id], KvVal(id, i)) && Has(heap[id], KvBlk(id, i));
        assert Has(heap[id], KvalVec(id));
        XFreeKval(id, i);
      }
      if kvals != [] {
        assert Has(heap[id], KvalVec(id));
        alloc.Free(KvalVec(id));
      }
    }

    /** One of its loops over arrays or tables; their vector is still there. */
    method XFreeList(ghost live: set<Block>, ghost before: seq<nat>, ghost id: nat, ghost done: seq<nat>, ids: seq<nat>,
                     ghost vec: Block)
      requires Inv(heap) && Ordered(heap) && id < |heap| && done + ids <= Kids(heap[id])
      requires forall b | BelowAny(heap, id, Kids(heap[id]), b) :: b in live
      requires FreedFromAny(live, id, done) && FreedSince(heap, before, id, done, freed)
      requires ids != [] ==> {vec, Holder(vec)} <= alloc.live
      modifies this`freed, alloc
      ensures FreedFromAny(live, id, done + ids) && FreedSince(heap, before, id, done + ids, freed)
      decreases |heap| - id, 1, 0
    {
      assert done + ids[..0] == done;
      for j := 0 to |ids|
        invariant FreedFromAny(live, id, done + ids[..j]) && FreedSince(heap, before, id, done + ids[..j], freed)
      {
        NextChild(heap, id, done, ids, j);
        XFreeChild(live, before, id, done + ids[..j], ids[j]);
        assert done + ids[..j + 1] == done + ids[..j] + [ids[j]];
      }
      assert ids[..|ids|] == ids;
    }

    /** One more child of node `id`. */
    method XFreeChild(ghost live: set<Block>, ghost before: seq<nat>, ghost id: nat, ghost kids: seq<nat>, k: nat)
      requires Inv(heap) && Ordered(heap) && id < k < |heap| && Owns(heap, id, k) && k !in kids
      requires forall b | BelowAny(heap, id, Kids(heap[id]), b) :: b in live
      requires FreedFromAny(live, id, kids) && FreedSince(heap, before, id, kids, freed)
      modifies this`freed, alloc
      ensures FreedFromAny(live, id, kids + [k]) && FreedSince(heap, before, id, kids + [k], freed)
      decreases |heap| - id, 0
    {
      ChildWhole(id, kids, k, live);
      OneMoreFreed(heap, before, id, kids, k, freed);
      ghost var l := alloc.live;
      if heap[k].Tab? { XFreeTab(k); } else { XFreeArr(k); }
      forall b ensures b in alloc.live <==> b in live && !BelowAny(heap, id, kids + [k], b) {
        BelowStep(heap, id, kids, k, b);
        assert b in l <==> b in live && !BelowAny(heap, id, kids, b);
      }
    }

    lemma ChildWhole(id: nat, kids: seq<nat>, k: nat, live: set<Block>)
      requires Inv(heap) && id < |heap| && k < |heap| && Owns(heap, id, k) && k !in kids
      requires forall b | BelowAny(heap, id, Kids(heap[id]), b) :: b in live
      requires FreedFromAny(live, id, kids)
      ensures Whole(k)
    {
      forall b | Below(heap, k, b) ensures b in alloc.live {
        BelowStep(heap, id, kids, k, b);
        AboveIsToward(heap, id, k, b.id);
        assert BelowAny(heap, id, Kids(heap[id]), b);
      }
    }

    /** `xfree_arr`: its key, its elements by kind, and itself. */
    method XFreeArr(id: nat)
      requires Inv(heap) && Ordered(heap) && id < |heap| && heap[id].Arr? && Whole(id)
      modifies this`freed, alloc
      ensures FreedFrom(old(alloc.live), id)
      ensures freed == old(freed) + FreeOrder(heap, id)
      decreases |heap| - id, 2
    {
      OwnBlocksLive(id);
      FreeKey(id);
      ghost var l1 := alloc.live;
      FreeByKind(id);
      ghost var l2 := alloc.live;
      FreeNode(old(freed), id);
      ArrayIsGone(heap, id, old(alloc.live), l1, l2);
    }

    /** The elements of an array, by its kind. */
    method FreeByKind(id: nat)
      requires Inv(heap) && Ordered(heap) && id < |heap| && heap[id].Arr?
      requires forall b | BelowAny(heap, id, Kids(heap[id]), b) :: b in alloc.live
      requires (forall b | ElemPart(id, b) && Has(heap[id], b) :: b in alloc.live) && NodeBlk(id) in alloc.live
      modifies this`freed, alloc
      ensures ElemsFreed(heap, id, old(alloc.live), alloc.live)
      ensures FreedSince(heap, old(freed), id, Kids(heap[id]), freed)
      decreases |heap| - id, 1, 3
    {
      ElemsOfKind(heap, id);
      match heap[id].kind {
        case NoKind =>
          NoChildren(heap, freed, id, alloc.live, alloc.live);
        case Values =>
          ghost var l := alloc.live;
          FreeValues(id);
          NoChildren(heap, freed, id, l, alloc.live);
        case _ =>
          assert Has(heap[id], ElemVec(id));
          FreeElems(alloc.live, freed, id);
      }
    }

    /** The values of an array, and the vector of them. */
    method FreeValues(id: nat)
      requires Inv(heap) && id < |heap| && heap[id].Arr? && heap[id].kind == Values
      requires (forall b | ElemPart(id, b) && Has(heap[id], b) :: b in alloc.live) && NodeBlk(id) in alloc.live
      modifies alloc
      ensures forall b {:trigger b in alloc.live} ::
                b in alloc.live <==> b in old(alloc.live) && !(ElemPart(id, b) && Has(heap[id], b))
    {
      var elems := heap[id].elems;
      ElemsOfKind(heap, id);
      for j := 0 to |elems|
        invariant forall b {:trigger b in alloc.live} ::
                    b in alloc.live <==> b in old(alloc.live) && !(b.ElemStr? && b.id == id && b.i < j)
      {
        assert Has(heap[id], ElemStr(id, j)) && Has(heap[id], ElemVec(id));
        alloc.Free(ElemStr(id, j));
      }
      assert Has(heap[id], ElemVec(id));
      alloc.Free(ElemVec(id));
    }

    /** The arrays or tables of an array, and the vector of them. */
    method FreeElems(ghost live: set<Block>, ghost before: seq<nat>, id: nat)
      requires Inv(heap) && Ordered(heap) && id < |heap| && heap[id].Arr? && heap[id].kind != Values
      requires heap[id].elems != []
      requires (forall b | BelowAny(heap, id, Kids(heap[id]), b) :: b in live) && {ElemVec(id), NodeBlk(id)} <= live
      requires alloc.live == live && freed == before
      modifies this`freed, alloc
      ensures ElemsFreed(heap, id, live, alloc.live) && FreedSince(heap, before, id, Kids(heap[id]), freed)
      decreases |heap| - id, 1, 2
    {
      ElemsOfKind(heap, id);
      XFreeElems(live, before, id);
      alloc.Free(ElemVec(id));
      ElemsAreGone(heap, id, live, alloc.live);
    }

    /** Its loop over the elements; their vector is still there. */
    method XFreeElems(ghost live: set<Block>, ghost before: seq<nat>, id: nat)
      requires Inv(heap) && Ordered(heap) && id < |heap| && heap[id].Arr? && heap[id].kind != Values
      requires |Kids(heap[id])| == |heap[id].elems|
      requires forall j | 0 <= j < |heap[id].elems| ::
                 !heap[id].elems[j].V? && heap[id].elems[j].id == Kids(heap[id])[j]
      requires {ElemVec(id), NodeBlk(id)} <= alloc.live
      requires forall b | BelowAny(heap, id, Kids(heap[id]), b) :: b in live
      requires alloc.live == live && freed == before
      modifies this`freed, alloc
      ensures FreedFromAny(live, id, Kids(heap[id])) && FreedSince(heap, before, id, Kids(heap[id]), freed)
      decreases |heap| - id, 1, 1
    {
      var n := |heap[id].elems|;
      NothingFreed(heap, before, id);
      for j := 0 to n
        invariant FreedFromAny(live, id, Kids(heap[id])[..j])
        invariant FreedSince(heap, before, id, Kids(heap[id])[..j], freed)
      {
        XFreeElem(live, before, id, j);
      }
      assert Kids(heap[id])[..n] == Kids(heap[id]);
    }

    method XFreeElem(ghost live: set<Block>, ghost before: seq<nat>, id: nat, j: nat)
      requires Inv(heap) && Ordered(heap) && id < |heap| && heap[id].Arr? && heap[id].kind != Values
      requires j < |heap[id].elems|
      requires |Kids(heap[id])| == |heap[id].elems| && !heap[id].elems[j].V?
      requires heap[id].elems[j].id == Kids(heap[id])[j]
      requires forall b | BelowAny(heap, id, Kids(heap[id]), b) :: b in live
      requires FreedFromAny(live, id, Kids(heap[id])[..j]) && FreedSince(heap, before, id, Kids(heap[id])[..j], freed)
      modifies this`freed, alloc
      ensures FreedFromAny(live, id, Kids(heap[id])[..j + 1])
      ensures FreedSince(heap, before, id, Kids(heap[id])[..j + 1], freed)
      decreases |heap| - id, 1, 0
    {
      NthChild(heap, id, j);
      XFreeChild(live, before, id, Kids(heap[id])[..j], heap[id].elems[j].id);
    }

    /** `toml_free`, of a document returned by `toml_parse`: no block is left. */
    method TomlFree()
      requires Inv(heap) && freed == [] && forall b :: b in alloc.live <==> Below(heap, ROOT, b)
      modifies this`freed, alloc
      ensures alloc.live == {} && Ordered(heap) && multiset(freed) == multiset(seq(|heap|, i => i))
    {
      FreeIsExact(heap);
      XFreeTab(ROOT);
    }
  }

  lemma ParsedInOrder(env: Env)
    ensures Inv(Document.Parse(env).st.heap)
  {
    Reachable.ParseKeepsDocument(env);
  }

  /** A key-value of table `id`, or the vector of them. */
  predicate KvalPart(id: nat, b: Block) { (b.KvalVec? || b.KvBlk? || b.KvKey? || b.KvVal?) && b.id == id }

  /** A value of array `id`, or the vector of its elements. */
  predicate ElemPart(id: nat, b: Block) { (b.ElemVec? || b.ElemStr?) && b.id == id }

  /** From `live` to `now` a table's key and key-values have been freed. */
  ghost predicate FirstFreed(s: Heap, id: nat, live: set<Block>, now: set<Block>)
    requires id < |s|
  {
    forall b {:trigger b in now} :: b in now <==> b in live && !((b == KeyBlk(id) || KvalPart(id, b)) && Has(s[id], b))
  }

  /** From `live` to `now` a table's arrays and tables have been freed. */
  ghost predicate ListsFreed(s: Heap, id: nat, live: set<Block>, now: set<Block>)
    requires Inv(s) && id < |s|
  {
    forall b {:trigger b in now} ::
      (b in now <==>
       b in live && !((b == ArrVec(id) || b == TabVec(id)) && Has(s[id], b)) && !BelowAny(s, id, Kids(s[id]), b))
  }

  /** From `live` to `now` an array's elements have been freed. */
  ghost predicate ElemsFreed(s: Heap, id: nat, live: set<Block>, now: set<Block>)
    requires Inv(s) && id < |s|
  {
    forall b {:trigger b in now} ::
      b in now <==> b in live && !(ElemPart(id, b) && Has(s[id], b)) && !BelowAny(s, id, Kids(s[id]), b)
  }

  lemma TabKids(s: Heap, id: nat)
    requires id < |s| && s[id].Tab?
    ensures s[id].arrs == [] + s[id].arrs && Kids(s[id]) == s[id].arrs + s[id].tabs && s[id].arrs <= Kids(s[id])
  {
  }

  lemma NothingFreed(s: Heap, before: seq<nat>, id: nat)
    requires Ordered(s) && id < |s|
    ensures FreedSince(s, before, id, [], before)
  {
  }

  /** With a table's key and key-values freed, its other vectors, its struct and its children are alive. */
  lemma ListsLive(s: Heap, id: nat, live: set<Block>, now: set<Block>)
    requires Inv(s) && id < |s| && s[id].Tab? && FirstFreed(s, id, live, now)
    requires forall b | OfNode(b) && b.id == id && Has(s[id], b) :: b in live
    requires forall b | BelowAny(s, id, Kids(s[id]), b) :: b in live
    ensures (s[id].arrs != [] ==> ArrVec(id) in now) && (s[id].tabs != [] ==> TabVec(id) in now) && NodeBlk(id) in now
    ensures forall b | BelowAny(s, id, Kids(s[id]), b) :: b in now
  {
    assert Has(s[id], NodeBlk(id));
    assert s[id].arrs != [] ==> Has(s[id], ArrVec(id));
    assert s[id].tabs != [] ==> Has(s[id], TabVec(id));
  }

  lemma NodeLive(s: Heap, id: nat, live: set<Block>, now: set<Block>)
    requires Inv(s) && id < |s| && ListsFreed(s, id, live, now) && NodeBlk(id) in live
    ensures NodeBlk(id) in now
  {
  }

  lemma StillLive(s: Heap, id: nat, live: set<Block>, now: set<Block>)
    requires Inv(s) && id < |s| && now >= live - {ArrVec(id)}
    requires forall b | BelowAny(s, id, Kids(s[id]), b) :: b in live
    ensures forall b | BelowAny(s, id, Kids(s[id]), b) :: b in now
  {
  }

  lemma ListsAreGone(s: Heap, id: nat, live: set<Block>, l: set<Block>, now: set<Block>)
    requires Inv(s) && id < |s| && s[id].Tab?
    requires l == live - (if s[id].arrs != [] then {ArrVec(id)} else {})
                  - (if s[id].tabs != [] then {TabVec(id)} else {})
    requires forall b {:trigger b in now} :: b in now <==> b in l && !BelowAny(s, id, Kids(s[id]), b)
    ensures ListsFreed(s, id, live, now)
  {
  }

  /** An array of values leads to no other node. */
  lemma NoChildren(s: Heap, before: seq<nat>, id: nat, live: set<Block>, now: set<Block>)
    requires Inv(s) && Ordered(s) && id < |s| && s[id].Arr? && Kids(s[id]) == []
    requires forall b :: b in now <==> b in live && !(ElemPart(id, b) && Has(s[id], b))
    ensures ElemsFreed(s, id, live, now) && FreedSince(s, before, id, Kids(s[id]), before)
  {
    NothingFreed(s, before, id);
  }

  /** After an array's elements and the vector of them have been freed. */
  lemma ElemsAreGone(s: Heap, id: nat, live: set<Block>, now: set<Block>)
    requires Inv(s) && id < |s| && s[id].Arr? && s[id].kind != Values && s[id].elems != []
    requires forall b :: b in now <==> b in live && !BelowAny(s, id, Kids(s[id]), b) && b != ElemVec(id)
    ensures ElemsFreed(s, id, live, now)
  {
  }

  /** After an array's key, its elements and the array itself have been freed. */
  lemma ArrayIsGone(s: Heap, id: nat, l0: set<Block>, l1: set<Block>, l2: set<Block>)
    requires Inv(s) && id < |s| && s[id].Arr?
    requires l1 == l0 - (if s[id].key.Some? then {KeyBlk(id)} else {}) && ElemsFreed(s, id, l1, l2)
    ensures forall b {:trigger b in l2} :: b in l2 - {NodeBlk(id)} <==> b in l0 && !Below(s, id, b)
  {
    forall b ensures b in l2 - {NodeBlk(id)} <==> b in l0 && !Below(s, id, b) {
      BelowSplit(s, id, b);
      assert b in l2 ==> b in l1;
    }
  }

  /** After a table's key, its entries and the table itself have been freed. */
  lemma TableIsGone(s: Heap, id: nat, l0: set<Block>, l1: set<Block>, l2: set<Block>)
    requires Inv(s) && id < |s| && s[id].Tab?
    requires FirstFreed(s, id, l0, l1) && ListsFreed(s, id, l1, l2)
    ensures forall b {:trigger b in l2} :: b in l2 - {NodeBlk(id)} <==> b in l0 && !Below(s, id, b)
  {
    forall b ensures b in l2 - {NodeBlk(id)} <==> b in l0 && !Below(s, id, b) {
      BelowSplit(s, id, b);
      assert b in l1 <==> b in l0 && !((b == KeyBlk(id) || KvalPart(id, b)) && Has(s[id], b));
      assert b in l2 ==> b in l1;
    }
  }

  /** Since `before`, exactly the nodes these references of node `id` lead to have been freed. */
  ghost predicate FreedSince(s: Heap, before: seq<nat>, id: nat, kids: seq<nat>, freed: seq<nat>) {
    && Ordered(s) && id < |s| && (forall a | 0 <= a < |kids| :: id < kids[a] < |s|)
    && freed == before + FreeAll(s, id, kids)
  }

  lemma OneMoreFreed(s: Heap, before: seq<nat>, id: nat, kids: seq<nat>, k: nat, freed: seq<nat>)
    requires FreedSince(s, before, id, kids, freed) && id < k < |s|
    ensures FreedSince(s, before, id, kids + [k], freed + FreeOrder(s, k))
  {
    assert (kids + [k])[..|kids|] == kids;
    Assoc(before, FreeAll(s, id, kids), FreeOrder(s, k));
  }

  /** Each reference of a node is a later node, and none of those before. */
  lemma NthChild(s: Heap, id: nat, j: nat)
    requires Inv(s) && Ordered(s) && id < |s| && j < |Kids(s[id])|
    ensures var kids := Kids(s[id]);
            && id < kids[j] < |s| && Owns(s, id, kids[j]) && kids[j] !in kids[..j]
            && kids[..j + 1] == kids[..j] + [kids[j]]
  {
    KidsDistinct(s, id, j);
  }

  /** The next reference of a node is a later node, and none of those before. */
  lemma NextChild(s: Heap, id: nat, done: seq<nat>, ids: seq<nat>, j: nat)
    requires Inv(s) && Ordered(s) && id < |s| && done + ids <= Kids(s[id]) && j < |ids|
    ensures id < ids[j] < |s| && Owns(s, id, ids[j]) && ids[j] !in done + ids[..j]
  {
    var n := |done| + j;
    assert (done + ids)[n] == ids[j] == Kids(s[id])[n];
    assert Kids(s[id])[..n] == done + ids[..j];
    KidsDistinct(s, id, n);
  }

  /** The elements of an array are all in the arm its kind names; there are children in two of the arms. */
  lemma ElemsOfKind(s: Heap, id: nat)
    requires Inv(s) && id < |s| && s[id].Arr?
    ensures s[id].kind == NoKind <==> s[id].elems == []
    ensures s[id].kind == Values || s[id].kind == NoKind ==> Kids(s[id]) == []
    ensures s[id].kind == Values ==> forall j | 0 <= j < |s[id].elems| :: s[id].elems[j].V?
    ensures s[id].kind != Values ==> |Kids(s[id])| == |s[id].elems|
    ensures s[id].kind != Values ==>
              forall j | 0 <= j < |s[id].elems| :: !s[id].elems[j].V? && s[id].elems[j].id == Kids(s[id])[j]
  {
    var elems, kind := s[id].elems, s[id].kind;
    assert NodeOk(s, id, s[id]);
    forall j | 0 <= j < |elems| ensures elems[j].V? <==> kind == Values { assert SlotOk(s, id, kind, elems[j]); }
    if kind == Values {
      NoSlotIds(elems);
    } else {
      AllSlotIds(elems);
    }
  }

  lemma {:induction false} NoSlotIds(elems: seq<Slot>)
    requires forall j | 0 <= j < |elems| :: elems[j].V?
    ensures SlotIds(elems) == []
  {
    if elems != [] { NoSlotIds(elems[..|elems| - 1]); }
  }

  lemma {:induction false} AllSlotIds(elems: seq<Slot>)
    requires forall j | 0 <= j < |elems| :: !elems[j].V?
    ensures |SlotIds(elems)| == |elems| && forall j | 0 <= j < |elems| :: SlotIds(elems)[j] == elems[j].id
  {
    if elems != [] { AllSlotIds(elems[..|elems| - 1]); }
  }
}
