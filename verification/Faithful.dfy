/**
  * When evaluation accepts a syntax tree, and what the document then holds.
  *
  * Built into a fresh array or table, a tree is accepted exactly when its arrays
  * are uniform and its tables' keys are usable and distinct; the document then
  * represents it, element by element, and nothing else has changed.
  */
module Faithful {
  import opened Bytes
  import opened Store
  import opened Keys
  import opened Grammar
  import opened Eval

  // ---- Well-formed syntax trees ----

  datatype Class = OfValues(typ: ValType) | OfArrays | OfTables

  function ClassOf(f: Foreign, v: Value): Class {
    match v
    case Scalar(text) => OfValues(TypeOf(f, text))
    case Array(_) => OfArrays
    case Inline(_) => OfTables
  }

  function Classes(f: Foreign, e: Elems): seq<Class> {
    match e
    case NoElem(_) => []
    case LastElem(_, v, _) => [ClassOf(f, v)]
    case MoreElems(_, v, _, rest) => [ClassOf(f, v)] + Classes(f, rest)
  }

  function FieldKeys(fs: Fields): seq<KeyRead> {
    match fs
    case NoField(_) => []
    case LastField(_, k, _, _) => [KeyOf(k)]
    case MoreFields(_, k, _, _, rest) => [KeyOf(k)] + FieldKeys(rest)
  }

  ghost predicate AllSame(cs: seq<Class>) { forall i, j | 0 <= i < j < |cs| :: cs[i] == cs[j] }

  ghost predicate UsableKeys(ks: seq<KeyRead>) {
    && (forall i | 0 <= i < |ks| :: ks[i].Key?)
    && (forall i, j | 0 <= i < j < |ks| :: ks[i] != ks[j])
  }

  ghost predicate WfValue(f: Foreign, v: Value)
    decreases v, 0
  {
    match v
    case Scalar(_) => true
    case Array(e) => AllSame(Classes(f, e)) && WfElems(f, e)
    case Inline(fs) => UsableKeys(FieldKeys(fs)) && WfFields(f, fs)
  }

  /** Each element is well-formed. */
  ghost predicate WfElems(f: Foreign, e: Elems)
    decreases e, 0
  {
    match e
    case NoElem(_) => true
    case LastElem(_, v, _) => WfValue(f, v)
    case MoreElems(_, v, _, rest) => WfValue(f, v) && WfElems(f, rest)
  }

  /** The value of each key is well-formed. */
  ghost predicate WfFields(f: Foreign, fs: Fields)
    decreases fs, 0
  {
    match fs
    case NoField(_) => true
    case LastField(_, _, v, _) => WfValue(f, v)
    case MoreFields(_, _, v, _, rest) => WfValue(f, v) && WfFields(f, rest)
  }

  // ---- What evaluation leaves alone ----

  /** Only node `i` may differ among the old nodes. */
  ghost predicate OnlyAt(s: Heap, s': Heap, i: nat) {
    |s| <= |s'| && forall j | 0 <= j < |s| && j != i :: s'[j] == s[j]
  }

  /** No table directly in table `i` waits to be promoted. */
  ghost predicate NoneImplicit(s: Heap, i: nat) {
    && i < |s| && s[i].Tab?
    && (forall a | 0 <= a < |s[i].arrs| :: s[i].arrs[a] < |s|)
    && forall a | 0 <= a < |s[i].tabs| ::
         s[i].tabs[a] < |s| && s[i].tabs[a] != i && s[s[i].tabs[a]].Tab? && !s[s[i].tabs[a]].implicit
  }

  lemma {:induction false} ElemsFrame(f: Foreign, s: Heap, a: nat, e: Elems)
    requires a < |s| && s[a].Arr? && EvalElems(f, s, a, e).Some?
    ensures OnlyAt(s, EvalElems(f, s, a, e).value, a)
    decreases e, 1
  {
    match e
    case NoElem(_) =>
    case LastElem(_, v, _) => ElemFrame(f, s, a, v);
    case MoreElems(_, v, _, rest) =>
      ElemFrame(f, s, a, v);
      var s2 := EvalElem(f, s, a, v).value;
      assert NodeGrows(s[a], s2[a]);
      ElemsFrame(f, s2, a, rest);
  }

  lemma {:induction false} ElemFrame(f: Foreign, s: Heap, a: nat, v: Value)
    requires a < |s| && s[a].Arr? && EvalElem(f, s, a, v).Some?
    ensures OnlyAt(s, EvalElem(f, s, a, v).value, a)
    decreases v, 0
  {
    match v
    case Scalar(_) =>
    case Array(elems) => ElemsFrame(f, AppendArray(s, a).heap, AppendArray(s, a).id, elems);
    case Inline(fields) => FieldsFrame(f, AppendTable(s, a).heap, AppendTable(s, a).id, fields);
  }

  lemma {:induction false} FieldsFrame(f: Foreign, s: Heap, i: nat, fs: Fields)
    requires NoneImplicit(s, i) && EvalFields(f, s, i, fs).Some?
    ensures OnlyAt(s, EvalFields(f, s, i, fs).value, i) && NoneImplicit(EvalFields(f, s, i, fs).value, i)
    decreases fs, 1
  {
    match fs
    case NoField(_) =>
    case LastField(_, k, v, _) => FieldFrame(f, s, i, k, v);
    case MoreFields(_, k, v, _, rest) =>
      FieldFrame(f, s, i, k, v);
      FieldsFrame(f, EvalField(f, s, i, k, v).value, i, rest);
  }

  lemma {:induction false} FieldFrame(f: Foreign, s: Heap, i: nat, k: Str, v: Value)
    requires NoneImplicit(s, i) && EvalField(f, s, i, k, v).Some?
    ensures OnlyAt(s, EvalField(f, s, i, k, v).value, i) && NoneImplicit(EvalField(f, s, i, k, v).value, i)
    decreases v, 1
  {
    EntryFrame(f, s, i, k, v);
    if v.Inline? {
      var h, s' := Entered(s, i, KeyOf(k).name, v), EvalField(f, s, i, k, v).value;
      assert NodeGrows(h[|s|], s'[|s|]);
    }
  }

  /** The document with an entry that its value is still to be built into. */
  function Entered(s: Heap, i: nat, key: Str, v: Value): Heap
    requires i < |s| && s[i].Tab?
  {
    match v
    case Scalar(text) => AddVal(s, i, key, text)
    case Array(_) => AddArr(s, i, key)
    case Inline(_) => AddTab(s, i, key, false)
  }

  /** The key is usable and the table has no entry under it. */
  predicate Fresh(s: Heap, i: nat, k: Str)
    requires i < |s| && s[i].Tab?
  {
    KeyOf(k).Key? && CheckKey(s, s[i], KeyOf(k).name).Absent?
  }

  /** A value under a fresh key is built where nothing was before. */
  lemma {:induction false} EntryFrame(f: Foreign, s: Heap, i: nat, k: Str, v: Value)
    requires i < |s| && s[i].Tab? && Fresh(s, i, k) && EvalField(f, s, i, k, v).Some?
    ensures var h, s' := Entered(s, i, KeyOf(k).name, v), EvalField(f, s, i, k, v).value;
            OnlyAt(s, s', i) && Grows(h, s') && s'[i] == h[i]
    decreases v, 0
  {
    var h := Entered(s, i, KeyOf(k).name, v);
    match v
    case Scalar(_) =>
    case Array(elems) => ElemsFrame(f, h, |s|, elems);
    case Inline(fields) =>
      assert h[|s|] == NewTab(Some(KeyOf(k).name), false);
      FieldsFrame(f, h, |s|, fields);
  }

  // ---- When it succeeds ----

  /** The array can take an element of this class. */
  predicate Accepts(arr: Node, c: Class)
    requires arr.Arr?
  {
    || (arr.kind == NoKind && arr.elems == [])
    || (arr.elems != [] && match c
        case OfValues(typ) => arr.kind == Values && arr.typ == typ
        case OfArrays => arr.kind == Arrays
        case OfTables => arr.kind == Tables)
  }

  /** An array's kind is set exactly when it has elements. */
  predicate KindSet(arr: Node)
    requires arr.Arr?
  {
    arr.kind == NoKind <==> arr.elems == []
  }

  lemma {:induction false} ElemsSucceed(f: Foreign, s: Heap, a: nat, e: Elems)
    requires a < |s| && s[a].Arr? && KindSet(s[a])
    ensures EvalElems(f, s, a, e).Some? <==>
              && WfElems(f, e) && AllSame(Classes(f, e))
              && (Classes(f, e) == [] || Accepts(s[a], Classes(f, e)[0]))
    decreases e, 1
  {
    match e
    case NoElem(_) =>
    case LastElem(_, v, _) => ElemSucceeds(f, s, a, v);
    case MoreElems(_, v, _, rest) =>
      ElemSucceeds(f, s, a, v);
      var cs := Classes(f, rest);
      var all := [ClassOf(f, v)] + cs;
      assert forall i | 0 <= i < |cs| :: all[i + 1] == cs[i];
      if EvalElem(f, s, a, v).Some? {
        var s2 := EvalElem(f, s, a, v).value;
        ElemSets(f, s, a, v);
        ElemsSucceed(f, s2, a, rest);
      }
      assert AllSame(all) <==> AllSame(cs) && (cs == [] || cs[0] == ClassOf(f, v)) by {
        if AllSame(all) && cs != [] { assert all[0] == all[1]; }
        if AllSame(all) { forall i, j | 0 <= i < j < |cs| ensures cs[i] == cs[j] { assert all[i + 1] == all[j + 1]; } }
      }
  }

  /** What an array accepts once it has an element: the same class again. */
  lemma ElemSets(f: Foreign, s: Heap, a: nat, v: Value)
    requires a < |s| && s[a].Arr? && KindSet(s[a]) && EvalElem(f, s, a, v).Some?
    ensures var s2 := EvalElem(f, s, a, v).value;
            && a < |s2| && s2[a].Arr? && KindSet(s2[a])
            && forall c :: Accepts(s2[a], c) <==> c == ClassOf(f, v)
  {
    var s2 := EvalElem(f, s, a, v).value;
    match v
    case Scalar(_) =>
    case Array(elems) =>
      ElemsFrame(f, AppendArray(s, a).heap, AppendArray(s, a).id, elems);
      assert s2[a] == AppendArray(s, a).heap[a];
    case Inline(fields) =>
      FieldsFrame(f, AppendTable(s, a).heap, AppendTable(s, a).id, fields);
      assert s2[a] == AppendTable(s, a).heap[a];
  }

  lemma {:induction false} ElemSucceeds(f: Foreign, s: Heap, a: nat, v: Value)
    requires a < |s| && s[a].Arr? && KindSet(s[a])
    ensures EvalElem(f, s, a, v).Some? <==> WfValue(f, v) && Accepts(s[a], ClassOf(f, v))
    decreases v, 0
  {
    match v
    case Scalar(_) =>
    case Array(elems) =>
      var b := AppendArray(s, a);
      if b.Done? { ElemsSucceed(f, b.heap, b.id, elems); }
    case Inline(fields) =>
      var b := AppendTable(s, a);
      if b.Done? { FieldsSucceed(f, b.heap, b.id, fields); }
  }

  /** Table `i` has no entry under this key. */
  predicate Free(s: Heap, i: nat, k: KeyRead)
    requires i < |s| && s[i].Tab?
  {
    k.Key? && CheckKey(s, s[i], k.name).Absent?
  }

  lemma {:induction false} FieldsSucceed(f: Foreign, s: Heap, i: nat, fs: Fields)
    requires NoneImplicit(s, i)
    ensures EvalFields(f, s, i, fs).Some? <==>
              && WfFields(f, fs) && UsableKeys(FieldKeys(fs))
              && forall j | 0 <= j < |FieldKeys(fs)| :: Free(s, i, FieldKeys(fs)[j])
    decreases fs, 1
  {
    match fs
    case NoField(_) =>
    case LastField(_, k, v, _) =>
      FieldSucceeds(f, s, i, k, v);
      assert FieldKeys(fs)[0] == KeyOf(k);
    case MoreFields(_, k, v, _, rest) =>
      FieldSucceeds(f, s, i, k, v);
      var ks := FieldKeys(rest);
      var all := [KeyOf(k)] + ks;
      assert forall j | 0 <= j < |ks| :: all[j + 1] == ks[j];
      assert UsableKeys(all) <==> KeyOf(k).Key? && UsableKeys(ks) && forall j | 0 <= j < |ks| :: ks[j] != KeyOf(k) by {
        OneMoreKey(KeyOf(k), ks);
      }
      AllFree(s, i, KeyOf(k), ks);
      if EvalField(f, s, i, k, v).Some? {
        var s2 := EvalField(f, s, i, k, v).value;
        FieldFrame(f, s, i, k, v);
        FieldSets(f, s, i, k, v);
        FieldsSucceed(f, s2, i, rest);
      }
  }

  lemma AllFree(s: Heap, i: nat, k: KeyRead, ks: seq<KeyRead>)
    requires i < |s| && s[i].Tab?
    ensures (forall j | 0 <= j < |[k] + ks| :: Free(s, i, ([k] + ks)[j]))
       <==> Free(s, i, k) && forall j | 0 <= j < |ks| :: Free(s, i, ks[j])
  {
    var all := [k] + ks;
    if forall j | 0 <= j < |all| :: Free(s, i, all[j]) {
      assert Free(s, i, all[0]);
      forall j | 0 <= j < |ks| ensures Free(s, i, ks[j]) { assert Free(s, i, all[j + 1]); }
    }
  }

  lemma OneMoreKey(k: KeyRead, ks: seq<KeyRead>)
    ensures UsableKeys([k] + ks) <==> k.Key? && UsableKeys(ks) && forall j | 0 <= j < |ks| :: ks[j] != k
  {
    var all := [k] + ks;
    assert forall j | 0 <= j < |ks| :: all[j + 1] == ks[j];
    if UsableKeys(all) {
      forall i, j | 0 <= i < j < |ks| ensures ks[i] != ks[j] { assert all[i + 1] != all[j + 1]; }
      forall j | 0 <= j < |ks| ensures ks[j] != k && ks[j].Key? { assert all[0] != all[j + 1]; }
      assert all[0] == k;
    }
  }

  /** After an entry is made, its key is taken and no other key's state has changed. */
  lemma FieldSets(f: Foreign, s: Heap, i: nat, k: Str, v: Value)
    requires NoneImplicit(s, i) && EvalField(f, s, i, k, v).Some?
    ensures var s2 := EvalField(f, s, i, k, v).value;
            i < |s2| && s2[i].Tab? && forall r: KeyRead :: Free(s2, i, r) <==> Free(s, i, r) && r != KeyOf(k)
  {
    var s2 := EvalField(f, s, i, k, v).value;
    EntryFrame(f, s, i, k, v);
    GrowthKeeps(Entered(s, i, KeyOf(k).name, v), s2);
    forall r: KeyRead ensures Free(s2, i, r) <==> Free(s, i, r) && r != KeyOf(k) {
      if r.Key? {
        EntryFound(s, s2, i, KeyOf(k).name, v, r.name);
      }
    }
  }

  /** What is found under an entry's key once it has been made. */
  function FoundEntry(s: Heap, i: nat, v: Value): Found
    requires i < |s| && s[i].Tab?
  {
    match v
    case Scalar(_) => FoundVal(|s[i].kvals|)
    case Array(_) => FoundArr(|s|)
    case Inline(_) => FoundTab(|s|)
  }

  /** The arrays and tables of table `i` are nodes of the document. */
  ghost predicate EntriesIn(s: Heap, i: nat)
    requires i < |s| && s[i].Tab?
  {
    (forall a | 0 <= a < |s[i].arrs| :: s[i].arrs[a] < |s|) && (forall a | 0 <= a < |s[i].tabs| :: s[i].tabs[a] < |s|)
  }

  /** The nodes of the document have the same keys later on. */
  ghost predicate KeysStay(s: Heap, s': Heap) {
    |s| <= |s'| && forall id: nat | id < |s| :: KeyAt(s', id) == KeyAt(s, id)
  }

  lemma GrowthKeeps(s: Heap, s': Heap)
    requires Grows(s, s')
    ensures KeysStay(s, s')
  {
    forall id: nat | id < |s| ensures KeyAt(s', id) == KeyAt(s, id) { assert NodeGrows(s[id], s'[id]); }
  }

  /** Looking a key up in a table to which one entry was added: only the new key's answer has changed. */
  lemma EntryFound(s: Heap, s2: Heap, i: nat, key: Str, v: Value, other: Str)
    requires i < |s| && s[i].Tab? && EntriesIn(s, i) && CheckKey(s, s[i], key).Absent?
    requires i < |s2| && s2[i] == Entered(s, i, key, v)[i] && KeysStay(Entered(s, i, key, v), s2)
    ensures CheckKey(s2, s2[i], other) == if other == key then FoundEntry(s, i, v) else CheckKey(s, s[i], other)
  {
    var h, t := Entered(s, i, key, v), s[i];
    forall id: nat | id < |s| ensures KeyAt(s2, id) == KeyAt(s, id) { assert KeyAt(s2, id) == KeyAt(h, id); }
    FindSame(s, s2, t.arrs, other, 0);
    FindSame(s, s2, t.tabs, other, 0);
    match v
    case Scalar(text) => FindValAppended(t.kvals, KeyVal(key, text), other, 0);
    case Array(_) =>
      assert KeyAt(s2, |s|) == KeyAt(h, |s|) == key;
      FindAppended(s2, t.arrs, |s|, other, 0);
    case Inline(_) =>
      assert KeyAt(s2, |s|) == KeyAt(h, |s|) == key;
      FindAppended(s2, t.tabs, |s|, other, 0);
  }

  lemma {:induction false} FieldSucceeds(f: Foreign, s: Heap, i: nat, k: Str, v: Value)
    requires NoneImplicit(s, i)
    ensures EvalField(f, s, i, k, v).Some? <==> WfValue(f, v) && Free(s, i, KeyOf(k))
    decreases v, 1
  {
    if Fresh(s, i, k) {
      EntrySucceeds(f, s, i, k, v);
    }
  }

  /** Under a fresh key a value can be built if and only if it is well-formed. */
  lemma {:induction false} EntrySucceeds(f: Foreign, s: Heap, i: nat, k: Str, v: Value)
    requires i < |s| && s[i].Tab? && Fresh(s, i, k)
    ensures EvalField(f, s, i, k, v).Some? <==> WfValue(f, v)
    decreases v, 0
  {
    var h := Entered(s, i, KeyOf(k).name, v);
    match v
    case Scalar(_) =>
    case Array(elems) => ElemsSucceed(f, h, |s|, elems);
    case Inline(fields) =>
      assert h[|s|] == NewTab(Some(KeyOf(k).name), false);
      FieldsSucceed(f, h, |s|, fields);
  }
}
