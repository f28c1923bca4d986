/**
  * What a whole document means, told without nodes and cursors: a map from paths
  * to what stands there, which every statement extends.
  */
module Meaning {
  import opened Bytes
  import opened Store
  import opened Keys
  import opened Grammar
  import opened Eval
  import opened Parser
  import opened Document
  import opened Language
  import opened Faithful
  import opened Paths
  import Unambiguous

  // ---- Values ----

  /** The kind of array a value goes into. */
  function KindFor(v: Value): ElemKind {
    match v
    case Scalar(_) => Values
    case Array(_) => Arrays
    case Inline(_) => Tables
  }

  /** The map after the elements are appended to the array at `p`; None when one is refused. */
  function PutElems(f: Foreign, d: Doc, p: Way, e: Elems): Option<Doc>
    decreases e
  {
    match e
    case NoElem(_) => Some(d)
    case LastElem(_, v, _) => PutElem(f, d, p, v)
    case MoreElems(_, v, _, rest) =>
      match PutElem(f, d, p, v)
      case None => None
      case Some(d') => PutElems(f, d', p, rest)
  }

  function PutElem(f: Foreign, d: Doc, p: Way, v: Value): Option<Doc>
    decreases v
  {
    if p !in d || !d[p].ArrayAt? || !(d[p].kind == NoKind || d[p].kind == KindFor(v)) then None
    else
      var n, q := d[p].size, p + [Nth(d[p].size)];
      match v
      case Scalar(text) =>
        if n > 0 && d[p].typ != TypeOf(f, text) then None
        else Some(d[p := ArrayAt(Values, TypeOf(f, text), n + 1)][q := Paths.Value(text)])
      case Array(elems) =>
        PutElems(f, d[p := ArrayAt(Arrays, d[p].typ, n + 1)][q := ArrayAt(NoKind, Unset, 0)], q, elems)
      case Inline(fields) =>
        PutFields(f, d[p := ArrayAt(Tables, d[p].typ, n + 1)][q := TableAt(false)], q, fields)
  }

  function PutFields(f: Foreign, d: Doc, p: Way, fs: Fields): Option<Doc>
    decreases fs
  {
    match fs
    case NoField(_) => Some(d)
    case LastField(_, k, v, _) => PutField(f, d, p, k, v)
    case MoreFields(_, k, v, _, rest) =>
      match PutField(f, d, p, k, v)
      case None => None
      case Some(d') => PutFields(f, d', p, rest)
  }

  function PutField(f: Foreign, d: Doc, p: Way, key: Str, v: Value): Option<Doc>
    decreases v
  {
    if !KeyOf(key).Key? then None
    else
      var q := p + [Named(KeyOf(key).name)];
      match v
      case Scalar(text) => if q in d then None else Some(d[q := Paths.Value(text)])
      case Array(elems) => if q in d then None else PutElems(f, d[q := ArrayAt(NoKind, Unset, 0)], q, elems)
      case Inline(fields) => if Claimable(d, q) then PutFields(f, d[q := TableAt(false)], q, fields) else None
  }

  /** There is nothing at the path, or a table that only paths have named. */
  predicate Claimable(d: Doc, q: Way) { q in d ==> d[q] == TableAt(true) }

  // ---- Statements ----

  /** The document so far, and the path of the current table. */
  datatype Cursor = Cursor(doc: Doc, way: Way)

  /** Following names from the table at `c`: missing tables are made, and an array of tables leads to its last one. */
  function PutWalk(d: Doc, c: Way, names: seq<Str>, at: nat): Option<Cursor>
    requires at <= |names|
    decreases |names| - at
  {
    if at == |names| then Some(Cursor(d, c))
    else
      var q := c + [Named(names[at])];
      if q !in d then PutWalk(d[q := TableAt(true)], q, names, at + 1)
      else match d[q]
        case TableAt(_) => PutWalk(d, q, names, at + 1)
        case ArrayAt(kind, _, n) =>
          if kind == Tables && n > 0 then PutWalk(d, q + [Nth(n - 1)], names, at + 1) else None
        case Value(_) => None
  }

  function PutTable(d: Doc, q: Way): Option<Cursor> {
    if Claimable(d, q) then Some(Cursor(d[q := TableAt(false)], q)) else None
  }

  /** A table at the end of the array at `q`, which is made if there is none. */
  function PutElement(d: Doc, q: Way): Option<Cursor> {
    AddTable(if q in d then d else d[q := ArrayAt(NoKind, Unset, 0)], q)
  }

  function AddTable(d: Doc, q: Way): Option<Cursor>
    requires q in d
  {
    if !d[q].ArrayAt? || !(d[q].kind == NoKind || d[q].kind == Tables) then None
    else
      var n := d[q].size;
      Some(Cursor(d[q := ArrayAt(Tables, d[q].typ, n + 1)][q + [Nth(n)] := TableAt(false)], q + [Nth(n)]))
  }

  function PutHeader(d: Doc, double: bool, names: seq<Str>): Option<Cursor>
    requires names != []
  {
    match PutWalk(d, [], names[..|names| - 1], 0)
    case None => None
    case Some(w) =>
      var q := w.way + [Named(names[|names| - 1])];
      if double then PutElement(w.doc, q) else PutTable(w.doc, q)
  }

  function PutStmt(f: Foreign, cu: Cursor, s: Stmt): Option<Cursor> {
    match s
    case Blank => Some(cu)
    case Entry(k, v, _) =>
      (match PutField(f, cu.doc, cu.way, k, v)
       case None => None
       case Some(d) => Some(Cursor(d, cu.way)))
    case Header(double, keys) =>
      match KeyNames(keys)
      case None => None
      case Some(names) => if 0 < |names| <= MAX_PATH then PutHeader(cu.doc, double, names) else None
  }

  function PutAll(f: Foreign, cu: Cursor, ss: seq<Stmt>): Option<Cursor>
    decreases |ss|
  {
    if ss == [] then Some(cu)
    else match PutStmt(f, cu, ss[0])
      case None => None
      case Some(cu') => PutAll(f, cu', ss[1..])
  }

  // ---- The builder extends the map ----

  /** The map shows the document, and the path leads to the node. */
  ghost predicate Maps(s: Heap, d: Doc, p: Way, id: nat) {
    Inv(s) && Shows(s, d) && Follow(s, ROOT, p) == Some(Inner(id))
  }

  lemma CellAt(s: Heap, d: Doc, p: Way, id: nat)
    requires Maps(s, d, p, id)
    ensures id < |s| && p in d && d[p] == NodeCell(s[id])
  {
    assert ShowsAt(s, d, p);
  }

  lemma MapsMore(s: Heap, s': Heap, d: Doc, d': Doc, p: Way, id: nat)
    requires Maps(s, d, p, id) && |s| <= |s'| && Inv(s') && Shows(s', d') && Stays(s, s')
    ensures Maps(s', d', p, id)
  {
  }

  /** What stands under a key. */
  lemma KeyMaps(s: Heap, d: Doc, p: Way, i: nat, key: Str)
    requires Maps(s, d, p, i) && s[i].Tab?
    ensures var q := p + [Named(key)];
            match CheckKey(s, s[i], key)
            case Absent => q !in d
            case FoundVal(_) => q in d && d[q].Value?
            case FoundArr(x) => x < |s| && s[x].Arr? && Maps(s, d, q, x) && q in d && d[q] == NodeCell(s[x])
            case FoundTab(x) => x < |s| && s[x].Tab? && Maps(s, d, q, x) && q in d && d[q] == NodeCell(s[x])
  {
    var q := p + [Named(key)];
    FollowConcat(s, ROOT, p, [Named(key)]);
    assert Follow(s, i, [Named(key)]) == Follow(s, ROOT, q);
    assert NodeOk(s, i, s[i]);
    assert ShowsAt(s, d, q);
  }

  lemma EntryMapped(s: Heap, d: Doc, p: Way, i: nat, key: Str, v: Value, s': Heap, spot: Spot)
    requires Maps(s, d, p, i) && s[i].Tab? && CheckKey(s, s[i], key).Absent?
    requires s' == Entered(s, i, key, v) || (v.Inline? && s' == AddTab(s, i, key, true))
    requires spot == if v.Scalar? then Leaf(v.text) else Inner(|s|)
    ensures |s| <= |s'| && (spot.Inner? ==> |s| < |s'|) && Stays(s, s')
    ensures Shows(s', d[p + [Named(key)] := CellOf(s', spot)]) && Follow(s', ROOT, p + [Named(key)]) == Some(spot)
  {
    EntryGains(s, i, key, v, s', spot);
    EntryMade(s, i, key, v, s', spot);
    ShowsGained(s, s', i, p, Named(key), spot, d);
    CellAt(s, d, p, i);
    assert NodeCell(s'[i]) == d[p] && d[p := d[p]] == d;
  }

  lemma ValueMade(s: Heap, d: Doc, p: Way, i: nat, key: Str, text: Str)
    requires Maps(s, d, p, i) && s[i].Tab? && CheckKey(s, s[i], key).Absent?
    ensures var s' := AddVal(s, i, key, text);
            Inv(s') && Shows(s', d[p + [Named(key)] := Paths.Value(text)]) && Stays(s, s')
  {
    AddValInv(s, i, key, text);
    EntryMapped(s, d, p, i, key, Scalar(text), AddVal(s, i, key, text), Leaf(text));
  }

  lemma ArrayMade(s: Heap, d: Doc, p: Way, i: nat, key: Str)
    requires Maps(s, d, p, i) && s[i].Tab? && CheckKey(s, s[i], key).Absent?
    ensures var s', q := AddArr(s, i, key), p + [Named(key)];
            Maps(s', d[q := ArrayAt(NoKind, Unset, 0)], q, |s|) && Stays(s, s')
  {
    AddArrInv(s, i, key);
    EntryMapped(s, d, p, i, key, Array(NoElem(0)), AddArr(s, i, key), Inner(|s|));
  }

  lemma TableMade(s: Heap, d: Doc, p: Way, i: nat, key: Str, implicit: bool)
    requires Maps(s, d, p, i) && s[i].Tab? && CheckKey(s, s[i], key).Absent?
    ensures var s', q := AddTab(s, i, key, implicit), p + [Named(key)];
            Maps(s', d[q := TableAt(implicit)], q, |s|) && Stays(s, s')
  {
    AddTabInv(s, i, key, implicit);
    EntryMapped(s, d, p, i, key, Inline(NoField(0)), AddTab(s, i, key, implicit), Inner(|s|));
  }

  lemma TablePromoted(s: Heap, d: Doc, q: Way, x: nat)
    requires Maps(s, d, q, x) && s[x].Tab?
    ensures Maps(Promote(s, x), d[q := TableAt(false)], q, x) && Stays(s, Promote(s, x))
  {
    PromoteInv(s, x);
    PromoteKeeps(s, x);
    ShowsChanged(s, Promote(s, x), x, q, d);
  }

  /** `create_keytable_in_table`: a table is made or promoted if and only if the path is free for one. */
  lemma TableClaimed(s: Heap, d: Doc, p: Way, i: nat, key: Str)
    requires Maps(s, d, p, i) && s[i].Tab?
    ensures var b, q := ClaimTable(s, i, key), p + [Named(key)];
            && (b.Done? <==> Claimable(d, q))
            && (b.Done? ==> Maps(b.heap, d[q := TableAt(false)], q, b.id) && Stays(s, b.heap))
  {
    KeyMaps(s, d, p, i, key);
    match CheckKey(s, s[i], key)
    case Absent => TableMade(s, d, p, i, key, false);
    case FoundTab(x) => if s[x].implicit { TablePromoted(s, d, p + [Named(key)], x); }
    case _ =>
  }

  // ---- Elements ----

  lemma ElementMapped(s: Heap, d: Doc, p: Way, a: nat, slot: Slot, s': Heap, spot: Spot)
    requires Maps(s, d, p, a) && s[a].Arr? && KeysStay(s, s') && OnlyAt(s, s', a)
    requires s'[a].Arr? && s'[a].elems == s[a].elems + [slot]
    requires spot == if slot.V? then Leaf(slot.text) else Inner(slot.id)
    requires spot.Inner? ==> spot.id == |s| < |s'| && forall u :: Child(s', |s|, u) == None
    ensures var q := p + [Nth(|s[a].elems|)];
            && Shows(s', d[p := NodeCell(s'[a])][q := CellOf(s', spot)]) && Stays(s, s')
            && Follow(s', ROOT, q) == Some(spot)
  {
    ElementGains(s, a, slot, s', spot);
    ShowsGained(s, s', a, p, Nth(|s[a].elems|), spot, d);
  }

  lemma ValuePushed(f: Foreign, s: Heap, d: Doc, p: Way, a: nat, text: Str, s': Heap)
    requires Maps(s, d, p, a) && s[a].Arr? && AppendScalar(f, s, a, text) == Done(s', a)
    ensures var n := |s[a].elems|;
            && |s'| == |s| && Inv(s') && Stays(s, s')
            && Shows(s', d[p := ArrayAt(Values, TypeOf(f, text), n + 1)][p + [Nth(n)] := Paths.Value(text)])
  {
    PushValInv(s, a, text, TypeOf(f, text));
    ValuePush(s, a, text, TypeOf(f, text), s');
    ElementMapped(s, d, p, a, V(text), s', Leaf(text));
  }

  lemma ArrayPushed(s: Heap, d: Doc, p: Way, a: nat, s': Heap)
    requires Maps(s, d, p, a) && Takes(s[a], Arrays) && s' == PushArr(s, a)
    ensures var n, q := |s[a].elems|, p + [Nth(|s[a].elems|)];
            && |s| < |s'| && Stays(s, s')
            && Maps(s', d[p := ArrayAt(Arrays, s[a].typ, n + 1)][q := ArrayAt(NoKind, Unset, 0)], q, |s|)
  {
    PushArrInv(s, a);
    ArrayPush(s, a, s');
    ElementMapped(s, d, p, a, A(|s|), s', Inner(|s|));
  }

  lemma TablePushed(s: Heap, d: Doc, p: Way, a: nat, key: Option<Str>, s': Heap)
    requires Maps(s, d, p, a) && Takes(s[a], Tables) && s' == PushTab(s, a, key)
    ensures var n := |s[a].elems|;
            && |s| < |s'| && Stays(s, s')
            && Maps(s', d[p := ArrayAt(Tables, s[a].typ, n + 1)][p + [Nth(n)] := TableAt(false)], p + [Nth(n)], |s|)
  {
    PushTabInv(s, a, key);
    TablePush(s, a, key, s');
    ElementMapped(s, d, p, a, T(|s|), s', Inner(|s|));
  }

  // ---- Values mean what the map says ----

  /** Both refuse, or both go on to documents that agree. */
  ghost predicate Agree(s: Heap, r: Option<Heap>, m: Option<Doc>)
    requires |s| > 0
  {
    match (r, m)
    case (None, None) => true
    case (Some(s'), Some(d')) => |s| <= |s'| && Inv(s') && Shows(s', d') && Stays(s, s')
    case _ => false
  }

  lemma AgreeTrans(s: Heap, s2: Heap, r: Option<Heap>, m: Option<Doc>)
    requires 0 < |s| <= |s2| && Stays(s, s2) && Agree(s2, r, m)
    ensures Agree(s, r, m)
  {
    if r.Some? { StaysTrans(s, s2, r.value); }
  }

  lemma {:induction false} ElemsMean(f: Foreign, s: Heap, d: Doc, p: Way, a: nat, e: Elems)
    requires Maps(s, d, p, a) && s[a].Arr?
    ensures Agree(s, EvalElems(f, s, a, e), PutElems(f, d, p, e))
    decreases e, 1
  {
    match e
    case NoElem(_) =>
    case LastElem(_, v, _) => ElemMeans(f, s, d, p, a, v);
    case MoreElems(_, v, _, rest) =>
      ElemMeans(f, s, d, p, a, v);
      if EvalElem(f, s, a, v).Some? {
        var s2, d2 := EvalElem(f, s, a, v).value, PutElem(f, d, p, v).value;
        assert NodeGrows(s[a], s2[a]);
        MapsMore(s, s2, d, d2, p, a);
        ElemsMean(f, s2, d2, p, a, rest);
        AgreeTrans(s, s2, EvalElems(f, s2, a, rest), PutElems(f, d2, p, rest));
      }
  }

  lemma ScalarMeans(f: Foreign, s: Heap, d: Doc, p: Way, a: nat, text: Str)
    requires Maps(s, d, p, a) && s[a].Arr?
    ensures Agree(s, EvalElem(f, s, a, Scalar(text)), PutElem(f, d, p, Scalar(text)))
  {
    CellAt(s, d, p, a);
    KindIsSet(s, a);
    ScalarElem(f, s, d, p, a, text);
    var b := AppendScalar(f, s, a, text);
    if b.Done? { ValuePushed(f, s, d, p, a, text, b.heap); }
  }

  lemma KindIsSet(s: Heap, a: nat)
    requires Inv(s) && a < |s| && s[a].Arr?
    ensures s[a].kind == NoKind <==> s[a].elems == []
  {
    assert NodeOk(s, a, s[a]);
  }

  lemma ScalarElem(f: Foreign, s: Heap, d: Doc, p: Way, a: nat, text: Str)
    requires a < |s| && s[a].Arr? && (s[a].kind == NoKind <==> s[a].elems == []) && p in d && d[p] == NodeCell(s[a])
    ensures var b, n := AppendScalar(f, s, a, text), |s[a].elems|;
            && EvalElem(f, s, a, Scalar(text)) == (if b.Done? then Some(b.heap) else None)
            && PutElem(f, d, p, Scalar(text)) ==
               if b.Done? then Some(d[p := ArrayAt(Values, TypeOf(f, text), n + 1)][p + [Nth(n)] := Paths.Value(text)])
               else None
  {
  }

  /** An array in an array is made, for its own elements. */
  lemma ArrayElem(f: Foreign, s: Heap, d: Doc, p: Way, a: nat, elems: Elems, h: Heap, d': Doc, q: Way)
    requires a < |s| && s[a].Arr? && p in d && d[p] == NodeCell(s[a]) && q == p + [Nth(d[p].size)]
    requires h == PushArr(s, a)
    requires d' == d[p := ArrayAt(Arrays, d[p].typ, d[p].size + 1)][q := ArrayAt(NoKind, Unset, 0)]
    ensures |s| < |h| && h[|s|].Arr?
    ensures EvalElem(f, s, a, Array(elems)) == if Takes(s[a], Arrays) then EvalElems(f, h, |s|, elems) else None
    ensures PutElem(f, d, p, Array(elems)) == if Takes(s[a], Arrays) then PutElems(f, d', q, elems) else None
  {
  }

  lemma TableElem(f: Foreign, s: Heap, d: Doc, p: Way, a: nat, fields: Fields, h: Heap, d': Doc, q: Way)
    requires a < |s| && s[a].Arr? && p in d && d[p] == NodeCell(s[a]) && q == p + [Nth(d[p].size)]
    requires h == PushTab(s, a, None)
    requires d' == d[p := ArrayAt(Tables, d[p].typ, d[p].size + 1)][q := TableAt(false)]
    ensures |s| < |h| && h[|s|].Tab?
    ensures EvalElem(f, s, a, Inline(fields)) == if Takes(s[a], Tables) then EvalFields(f, h, |s|, fields) else None
    ensures PutElem(f, d, p, Inline(fields)) == if Takes(s[a], Tables) then PutFields(f, d', q, fields) else None
  {
  }

  lemma {:induction false} ElemMeans(f: Foreign, s: Heap, d: Doc, p: Way, a: nat, v: Value)
    requires Maps(s, d, p, a) && s[a].Arr?
    ensures Agree(s, EvalElem(f, s, a, v), PutElem(f, d, p, v))
    decreases v, 0
  {
    CellAt(s, d, p, a);
    match v
    case Scalar(text) => ScalarMeans(f, s, d, p, a, text);
    case Array(elems) =>
      var h, q := PushArr(s, a), p + [Nth(d[p].size)];
      var d' := d[p := ArrayAt(Arrays, d[p].typ, d[p].size + 1)][q := ArrayAt(NoKind, Unset, 0)];
      ArrayElem(f, s, d, p, a, elems, h, d', q);
      if Takes(s[a], Arrays) {
        ArrayPushed(s, d, p, a, h);
        ElemsMean(f, h, d', q, |s|, elems);
        AgreeTrans(s, h, EvalElems(f, h, |s|, elems), PutElems(f, d', q, elems));
      }
    case Inline(fields) =>
      var h, q := PushTab(s, a, None), p + [Nth(d[p].size)];
      var d' := d[p := ArrayAt(Tables, d[p].typ, d[p].size + 1)][q := TableAt(false)];
      TableElem(f, s, d, p, a, fields, h, d', q);
      if Takes(s[a], Tables) {
        TablePushed(s, d, p, a, None, h);
        FieldsMean(f, h, d', q, |s|, fields);
        AgreeTrans(s, h, EvalFields(f, h, |s|, fields), PutFields(f, d', q, fields));
      }
  }

  lemma {:induction false} FieldsMean(f: Foreign, s: Heap, d: Doc, p: Way, i: nat, fs: Fields)
    requires Maps(s, d, p, i) && s[i].Tab?
    ensures Agree(s, EvalFields(f, s, i, fs), PutFields(f, d, p, fs))
    decreases fs, 1
  {
    match fs
    case NoField(_) =>
    case LastField(_, k, v, _) => FieldMeans(f, s, d, p, i, k, v);
    case MoreFields(_, k, v, _, rest) =>
      FieldMeans(f, s, d, p, i, k, v);
      if EvalField(f, s, i, k, v).Some? {
        var s2, d2 := EvalField(f, s, i, k, v).value, PutField(f, d, p, k, v).value;
        assert NodeGrows(s[i], s2[i]);
        MapsMore(s, s2, d, d2, p, i);
        FieldsMean(f, s2, d2, p, i, rest);
        AgreeTrans(s, s2, EvalFields(f, s2, i, rest), PutFields(f, d2, p, rest));
      }
  }

  lemma {:induction false} FieldMeans(f: Foreign, s: Heap, d: Doc, p: Way, i: nat, k: Str, v: Value)
    requires Maps(s, d, p, i) && s[i].Tab?
    ensures Agree(s, EvalField(f, s, i, k, v), PutField(f, d, p, k, v))
    decreases v, 0
  {
    if KeyOf(k).Key? {
      var key := KeyOf(k).name;
      var q := p + [Named(key)];
      KeyMaps(s, d, p, i, key);
      match v
      case Scalar(text) => if CheckKey(s, s[i], key).Absent? { ValueMade(s, d, p, i, key, text); }
      case Array(elems) =>
        if CheckKey(s, s[i], key).Absent? {
          var h, d' := AddArr(s, i, key), d[q := ArrayAt(NoKind, Unset, 0)];
          ArrayMade(s, d, p, i, key);
          ElemsMean(f, h, d', q, |s|, elems);
          AgreeTrans(s, h, EvalElems(f, h, |s|, elems), PutElems(f, d', q, elems));
        }
      case Inline(fields) =>
        var b, d' := ClaimTable(s, i, key), d[q := TableAt(false)];
        TableClaimed(s, d, p, i, key);
        InlineField(f, s, d, p, i, k, fields, b, d', q);
        if b.Done? {
          FieldsMean(f, b.heap, d', q, b.id, fields);
          AgreeTrans(s, b.heap, EvalFields(f, b.heap, b.id, fields), PutFields(f, d', q, fields));
        }
    }
  }

  lemma InlineField(f: Foreign, s: Heap, d: Doc, p: Way, i: nat, k: Str, fields: Fields, b: Built, d': Doc, q: Way)
    requires i < |s| && s[i].Tab? && KeyOf(k).Key? && q == p + [Named(KeyOf(k).name)]
    requires b == ClaimTable(s, i, KeyOf(k).name) && d' == d[q := TableAt(false)] && (b.Done? <==> Claimable(d, q))
    ensures b.Done? ==> |s| <= |b.heap| && b.id < |b.heap| && b.heap[b.id].Tab?
    ensures EvalField(f, s, i, k, Inline(fields)) == if b.Done? then EvalFields(f, b.heap, b.id, fields) else None
    ensures PutField(f, d, p, k, Inline(fields)) == if b.Done? then PutFields(f, d', q, fields) else None
  {
  }

  // ---- Statements mean what the map says ----

  /** Both are refused, or both lead to the same table. */
  ghost predicate Meet(r: Walked, w: Option<Cursor>) {
    match r
    case Blocked(_, _, _) => w.None?
    case Reached(h, id) => w.Some? && Maps(h, w.value.doc, w.value.way, id)
  }

  lemma {:induction false} WalkMeans(s: Heap, d: Doc, c: Way, cur: nat, names: seq<Str>, at: nat)
    requires Maps(s, d, c, cur) && s[cur].Tab? && at <= |names|
    ensures Meet(Walk(s, cur, names, at), PutWalk(d, c, names, at))
    decreases |names| - at
  {
    if at < |names| {
      var key, q := names[at], c + [Named(names[at])];
      KeyMaps(s, d, c, cur, key);
      match CheckKey(s, s[cur], key)
      case FoundTab(x) =>
        TableStep(s, d, c, cur, names, at, q, x);
        WalkMeans(s, d, q, x, names, at + 1);
      case FoundArr(x) =>
        LastMapped(s, d, q, x);
        ArrayStep(s, d, c, cur, names, at, q, x);
        if LastTable(s, x).Some? {
          WalkMeans(s, d, q + [Nth(|s[x].elems| - 1)], LastTable(s, x).value, names, at + 1);
        }
      case FoundVal(_) =>
      case Absent =>
        var s2, d2 := AddTab(s, cur, key, true), d[q := TableAt(true)];
        TableMade(s, d, c, cur, key, true);
        NewStep(s, d, c, cur, names, at, q, s2, d2);
        WalkMeans(s2, d2, q, |s|, names, at + 1);
    }
  }

  // One key of a path.

  lemma TableStep(s: Heap, d: Doc, c: Way, cur: nat, names: seq<Str>, at: nat, q: Way, x: nat)
    requires cur < |s| && s[cur].Tab? && at < |names| && q == c + [Named(names[at])]
    requires CheckKey(s, s[cur], names[at]) == FoundTab(x) && x < |s| && s[x].Tab? && q in d && d[q].TableAt?
    ensures Walk(s, cur, names, at) == Walk(s, x, names, at + 1)
    ensures PutWalk(d, c, names, at) == PutWalk(d, q, names, at + 1)
  {
  }

  lemma ArrayStep(s: Heap, d: Doc, c: Way, cur: nat, names: seq<Str>, at: nat, q: Way, x: nat)
    requires cur < |s| && s[cur].Tab? && at < |names| && q == c + [Named(names[at])]
    requires CheckKey(s, s[cur], names[at]) == FoundArr(x) && x < |s| && s[x].Arr? && q in d && d[q] == NodeCell(s[x])
    requires LastTable(s, x).Some? <==> s[x].kind == Tables && |s[x].elems| > 0
    ensures Walk(s, cur, names, at) == match LastTable(s, x)
                                       case Some(last) => Walk(s, last, names, at + 1)
                                       case None => Blocked(s, at, InternalError)
    ensures PutWalk(d, c, names, at) ==
            if LastTable(s, x).Some? then PutWalk(d, q + [Nth(|s[x].elems| - 1)], names, at + 1) else None
  {
  }

  lemma NewStep(s: Heap, d: Doc, c: Way, cur: nat, names: seq<Str>, at: nat, q: Way, s2: Heap, d2: Doc)
    requires cur < |s| && s[cur].Tab? && at < |names| && q == c + [Named(names[at])]
    requires CheckKey(s, s[cur], names[at]).Absent? && q !in d
    requires s2 == AddTab(s, cur, names[at], true) && d2 == d[q := TableAt(true)]
    ensures |s| < |s2| && s2[|s|].Tab?
    ensures Walk(s, cur, names, at) == Walk(s2, |s|, names, at + 1)
    ensures PutWalk(d, c, names, at) == PutWalk(d2, q, names, at + 1)
  {
  }

  /** The last table of an array of tables. */
  lemma LastMapped(s: Heap, d: Doc, q: Way, x: nat)
    requires Maps(s, d, q, x) && s[x].Arr?
    ensures LastTable(s, x).Some? <==> s[x].kind == Tables && |s[x].elems| > 0
    ensures LastTable(s, x).Some? ==> Maps(s, d, q + [Nth(|s[x].elems| - 1)], LastTable(s, x).value)
  {
    var elems := s[x].elems;
    assert NodeOk(s, x, s[x]);
    if s[x].kind == Tables && elems != [] {
      assert SlotOk(s, x, Tables, elems[|elems| - 1]);
      FollowConcat(s, ROOT, q, [Nth(|elems| - 1)]);
      assert Follow(s, x, [Nth(|elems| - 1)]) == Some(Inner(elems[|elems| - 1].id));
    }
  }

  lemma TableAdded(s: Heap, d: Doc, q: Way, x: nat)
    requires Maps(s, d, q, x) && s[x].Arr? && q in d
    ensures AddTable(d, q).Some? <==> Takes(s[x], Tables)
    ensures AddTable(d, q).Some? ==>
              Maps(PushTab(s, x, Some(ANON)), AddTable(d, q).value.doc, AddTable(d, q).value.way, |s|)
  {
    CellAt(s, d, q, x);
    if Takes(s[x], Tables) { TablePushed(s, d, q, x, Some(ANON), PushTab(s, x, Some(ANON))); }
  }

  lemma ElementMeans(s: Heap, d: Doc, p: Way, i: nat, key: Str)
    requires Maps(s, d, p, i) && s[i].Tab?
    ensures var b, w := AppendElement(s, i, key), PutElement(d, p + [Named(key)]);
            if b.Done? then w.Some? && Maps(b.heap, w.value.doc, w.value.way, b.id) else w.None?
  {
    var q := p + [Named(key)];
    KeyMaps(s, d, p, i, key);
    match CheckKey(s, s[i], key)
    case Absent =>
      ArrayMade(s, d, p, i, key);
      TableAdded(AddArr(s, i, key), d[q := ArrayAt(NoKind, Unset, 0)], q, |s|);
    case FoundArr(x) => TableAdded(s, d, q, x);
    case _ =>
  }

  lemma HeaderMeans(s: Heap, d: Doc, double: bool, names: seq<Str>)
    requires Inv(s) && Shows(s, d) && names != []
    ensures var r, w := if double then SelectElement(s, names) else SelectTable(s, names), PutHeader(d, double, names);
            if r.Current? then w.Some? && Maps(r.heap, w.value.doc, w.value.way, r.id) else w.None?
  {
    var init, key := names[..|names| - 1], names[|names| - 1];
    assert Maps(s, d, [], ROOT);
    WalkMeans(s, d, [], ROOT, init, 0);
    var r := Walk(s, ROOT, init, 0);
    if r.Reached? {
      var w := PutWalk(d, [], init, 0).value;
      if double {
        ElementMeans(r.heap, w.doc, w.way, r.id, key);
      } else {
        TableClaimed(r.heap, w.doc, w.way, r.id, key);
      }
    }
  }

  lemma StmtMeans(f: Foreign, p: Place, cu: Cursor, st: Stmt)
    requires PlaceOk(p) && Maps(p.heap, cu.doc, cu.way, p.cur)
    ensures var r, w := Exec(f, p, st), PutStmt(f, cu, st);
            if r.Some? then w.Some? && Maps(r.value.heap, w.value.doc, w.value.way, r.value.cur) else w.None?
  {
    match st
    case Blank =>
    case Entry(k, v, _) => FieldMeans(f, p.heap, cu.doc, cu.way, p.cur, k, v);
    case Header(double, keys) =>
      if KeyNames(keys).Some? && 0 < |KeyNames(keys).value| <= MAX_PATH {
        HeaderMeans(p.heap, cu.doc, double, KeyNames(keys).value);
      }
  }

  lemma {:induction false} AllMean(f: Foreign, p: Place, cu: Cursor, ss: seq<Stmt>)
    requires PlaceOk(p) && Maps(p.heap, cu.doc, cu.way, p.cur)
    ensures var r, w := ExecAll(f, p, ss), PutAll(f, cu, ss);
            if r.Some? then w.Some? && Maps(r.value.heap, w.value.doc, w.value.way, r.value.cur) else w.None?
    decreases |ss|
  {
    if ss != [] {
      StmtMeans(f, p, cu, ss[0]);
      if Exec(f, p, ss[0]).Some? {
        AllMean(f, Exec(f, p, ss[0]).value, PutStmt(f, cu, ss[0]).value, ss[1..]);
      }
    }
  }

  // ---- Main result ----

  const EMPTY_DOC: Doc := map[[] := TableAt(false)]

  /** What statements mean, from the empty document on. */
  function MeaningOf(f: Foreign, ss: seq<Stmt>): Option<Doc> {
    match PutAll(f, Cursor(EMPTY_DOC, []), ss)
    case None => None
    case Some(cu) => Some(cu.doc)
  }

  lemma EmptyMaps()
    ensures Maps(EMPTY, EMPTY_DOC, [], ROOT)
  {
    EmptyInv();
    forall p: Way ensures ShowsAt(EMPTY, EMPTY_DOC, p) {
      if p != [] { assert Child(EMPTY, ROOT, p[0]) == None; }
    }
  }

  /**
    * `toml_parse` accepts an input that spells statements if and only if these have
    * a meaning, and then the document it returns shows just that: every path of it
    * leads to what the meaning says, and no other path leads anywhere.
    */
  lemma ParseMeans(env: Env, ss: seq<Stmt>)
    requires Spells(env.inp, ss)
    ensures Parse(env).Going? <==> MeaningOf(env.foreign, ss).Some?
    ensures Parse(env).Going? ==> Shows(Parse(env).st.heap, MeaningOf(env.foreign, ss).value)
  {
    EmptyMaps();
    Unambiguous.ParseDecides(env, ss);
    AllMean(env.foreign, Place(EMPTY, ROOT), Cursor(EMPTY_DOC, []), ss);
  }

  /** No other input is accepted. */
  lemma AcceptsWhatMeans(env: Env)
    ensures Parse(env).Going? <==> exists ss :: Spells(env.inp, ss) && MeaningOf(env.foreign, ss).Some?
  {
    if Parse(env).Going? {
      ParseAcceptsOnly(env);
      var ss :| Spells(env.inp, ss) && ExecAll(env.foreign, Place(EMPTY, ROOT), ss).Some?;
      ParseMeans(env, ss);
    }
    if exists ss :: Spells(env.inp, ss) && MeaningOf(env.foreign, ss).Some? {
      var ss :| Spells(env.inp, ss) && MeaningOf(env.foreign, ss).Some?;
      ParseMeans(env, ss);
    }
  }
}
