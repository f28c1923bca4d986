/** The document built from a syntax tree is that tree. */
module Represents {
  import opened Bytes
  import opened Lexer
  import opened Store
  import opened Keys
  import opened Grammar
  import opened Eval
  import opened Faithful
  import opened Parser
  import Recognizer

  /** A slot of an array, or an entry of a table, holds a value; nodes below it come at or after `lo`. */
  ghost predicate HoldsSlot(s: Heap, lo: nat, slot: Slot, v: Value)
    decreases v, 0
  {
    match v
    case Scalar(text) => slot == V(text)
    case Array(e) => slot.A? && HoldsArray(s, lo, slot.id, None, e)
    case Inline(fs) => slot.T? && HoldsTable(s, lo, slot.id, None, fs)
  }

  ghost predicate HoldsArray(s: Heap, lo: nat, id: nat, key: Option<Str>, e: Elems)
    decreases e, 1
  {
    lo <= id < |s| && s[id].Arr? && s[id].key == key && HoldsElems(s, id, 0, e)
  }

  ghost predicate HoldsTable(s: Heap, lo: nat, id: nat, key: Option<Str>, fs: Fields)
    decreases fs, 1
  {
    lo <= id < |s| && s[id].Tab? && s[id].key == key && !s[id].implicit && HoldsFields(s, id, 0, 0, 0, fs)
  }

  /** The elements of array `a` from index `k` on are exactly these. */
  ghost predicate HoldsElems(s: Heap, a: nat, k: nat, e: Elems)
    requires a < |s| && s[a].Arr?
    decreases e, 0
  {
    match e
    case NoElem(_) => |s[a].elems| == k
    case LastElem(_, v, _) => |s[a].elems| == k + 1 && HoldsSlot(s, a + 1, s[a].elems[k], v)
    case MoreElems(_, v, _, rest) =>
      k < |s[a].elems| && HoldsSlot(s, a + 1, s[a].elems[k], v) && HoldsElems(s, a, k + 1, rest)
  }

  /** How far an entry moves each of the three lists of a table. */
  function Step(v: Value): (int, int, int) {
    match v case Scalar(_) => (1, 0, 0) case Array(_) => (0, 1, 0) case Inline(_) => (0, 0, 1)
  }

  /** The entry at `x`, `y` or `z` of table `i`'s lists is this key and value. */
  ghost predicate HoldsField(s: Heap, i: nat, x: nat, y: nat, z: nat, k: Str, v: Value)
    requires i < |s| && s[i].Tab?
    decreases v, 0
  {
    KeyOf(k).Key? && match v
    case Scalar(text) => x < |s[i].kvals| && s[i].kvals[x] == KeyVal(KeyOf(k).name, text)
    case Array(e) => y < |s[i].arrs| && HoldsArray(s, i + 1, s[i].arrs[y], Some(KeyOf(k).name), e)
    case Inline(fs) => z < |s[i].tabs| && HoldsTable(s, i + 1, s[i].tabs[z], Some(KeyOf(k).name), fs)
  }

  /** The entries of table `i` from `x`, `y` and `z` on are exactly these. */
  ghost predicate HoldsFields(s: Heap, i: nat, x: nat, y: nat, z: nat, fs: Fields)
    requires i < |s| && s[i].Tab?
    decreases fs, 0
  {
    match fs
    case NoField(_) => |s[i].kvals| == x && |s[i].arrs| == y && |s[i].tabs| == z
    case LastField(_, k, v, _) =>
      && HoldsField(s, i, x, y, z, k, v)
      && |s[i].kvals| == x + Step(v).0 && |s[i].arrs| == y + Step(v).1 && |s[i].tabs| == z + Step(v).2
    case MoreFields(_, k, v, _, rest) =>
      && HoldsField(s, i, x, y, z, k, v)
      && HoldsFields(s, i, x + Step(v).0, y + Step(v).1, z + Step(v).2, rest)
  }

  // ---- Later building does not disturb what is built ----

  /** Nodes from `lo` on are as before. */
  ghost predicate SameFrom(s: Heap, s': Heap, lo: nat) {
    |s| <= |s'| && forall j | lo <= j < |s| :: s'[j] == s[j]
  }

  lemma {:induction false} SlotStable(s: Heap, s': Heap, lo: nat, slot: Slot, v: Value)
    requires SameFrom(s, s', lo) && HoldsSlot(s, lo, slot, v)
    ensures HoldsSlot(s', lo, slot, v)
    decreases v, 0
  {
    match v
    case Scalar(_) =>
    case Array(e) => ElemsStable(s, s', slot.id, 0, e);
    case Inline(fs) => FieldsStable(s, s', slot.id, 0, 0, 0, fs);
  }

  lemma {:induction false} ElemsStable(s: Heap, s': Heap, a: nat, k: nat, e: Elems)
    requires SameFrom(s, s', a) && a < |s| && s[a].Arr? && HoldsElems(s, a, k, e)
    ensures HoldsElems(s', a, k, e)
    decreases e, 0
  {
    match e
    case NoElem(_) =>
    case LastElem(_, v, _) => SlotStable(s, s', a + 1, s[a].elems[k], v);
    case MoreElems(_, v, _, rest) =>
      SlotStable(s, s', a + 1, s[a].elems[k], v);
      ElemsStable(s, s', a, k + 1, rest);
  }

  /** An entry survives: its own list keeps it, and the nodes below it are untouched. */
  lemma {:induction false} FieldStable(s: Heap, s': Heap, i: nat, x: nat, y: nat, z: nat, k: Str, v: Value)
    requires SameFrom(s, s', i + 1) && i < |s| && s[i].Tab? && NodeGrows(s[i], s'[i])
    requires HoldsField(s, i, x, y, z, k, v)
    ensures HoldsField(s', i, x, y, z, k, v)
    decreases v, 0
  {
    match v
    case Scalar(_) =>
    case Array(e) => ElemsStable(s, s', s[i].arrs[y], 0, e);
    case Inline(fs) => FieldsStable(s, s', s[i].tabs[z], 0, 0, 0, fs);
  }

  lemma {:induction false} FieldsStable(s: Heap, s': Heap, i: nat, x: nat, y: nat, z: nat, fs: Fields)
    requires SameFrom(s, s', i) && i < |s| && s[i].Tab? && HoldsFields(s, i, x, y, z, fs)
    ensures HoldsFields(s', i, x, y, z, fs)
    decreases fs, 0
  {
    match fs
    case NoField(_) =>
    case LastField(_, k, v, _) => FieldStable(s, s', i, x, y, z, k, v);
    case MoreFields(_, k, v, _, rest) =>
      FieldStable(s, s', i, x, y, z, k, v);
      FieldsStable(s, s', i, x + Step(v).0, y + Step(v).1, z + Step(v).2, rest);
  }

  // ---- What evaluation builds ----

  lemma {:induction false} ElemsBuilt(f: Foreign, s: Heap, a: nat, e: Elems, s': Heap)
    requires a < |s| && s[a].Arr? && EvalElems(f, s, a, e) == Some(s')
    ensures a < |s'| && s'[a].Arr? && HoldsElems(s', a, |s[a].elems|, e)
    decreases e, 1
  {
    var k := |s[a].elems|;
    match e
    case NoElem(_) =>
    case LastElem(_, v, _) => ElemBuilt(f, s, a, v, s');
    case MoreElems(_, v, _, rest) =>
      var s2 := EvalElem(f, s, a, v).value;
      ElemBuilt(f, s, a, v, s2);
      ElemsBuilt(f, s2, a, rest, s');
      ElemsFrame(f, s2, a, rest);
      assert NodeGrows(s2[a], s'[a]);
      SlotStable(s2, s', a + 1, s2[a].elems[k], v);
  }

  lemma {:induction false} ElemBuilt(f: Foreign, s: Heap, a: nat, v: Value, s': Heap)
    requires a < |s| && s[a].Arr? && EvalElem(f, s, a, v) == Some(s')
    ensures a < |s'| && s'[a].Arr? && |s'[a].elems| == |s[a].elems| + 1
    ensures HoldsSlot(s', a + 1, s'[a].elems[|s[a].elems|], v)
    decreases v, 0
  {
    match v
    case Scalar(_) =>
    case Array(e) =>
      var h := AppendArray(s, a).heap;
      ElemsBuilt(f, h, |s|, e, s');
      ElemsFrame(f, h, |s|, e);
      assert NodeGrows(h[|s|], s'[|s|]);
    case Inline(fs) =>
      var h := AppendTable(s, a).heap;
      FieldsBuilt(f, h, |s|, fs, s');
      FieldsFrame(f, h, |s|, fs);
      assert NodeGrows(h[|s|], s'[|s|]);
  }

  lemma {:induction false} FieldsBuilt(f: Foreign, s: Heap, i: nat, fs: Fields, s': Heap)
    requires NoneImplicit(s, i) && EvalFields(f, s, i, fs) == Some(s')
    ensures i < |s'| && s'[i].Tab? && HoldsFields(s', i, |s[i].kvals|, |s[i].arrs|, |s[i].tabs|, fs)
    decreases fs, 1
  {
    match fs
    case NoField(_) =>
    case LastField(_, k, v, _) => FieldBuilt(f, s, i, k, v, s');
    case MoreFields(_, k, v, _, rest) =>
      var s2 := EvalField(f, s, i, k, v).value;
      FieldBuilt(f, s, i, k, v, s2);
      FieldFrame(f, s, i, k, v);
      FieldsBuilt(f, s2, i, rest, s');
      FieldsFrame(f, s2, i, rest);
      FieldAndRest(s2, s', i, |s[i].kvals|, |s[i].arrs|, |s[i].tabs|, fs);
  }

  /** One entry built, and the rest after it. */
  lemma FieldAndRest(s2: Heap, s': Heap, i: nat, x: nat, y: nat, z: nat, fs: Fields)
    requires i < |s2| && s2[i].Tab? && Grows(s2, s') && OnlyAt(s2, s', i) && s'[i].Tab?
    requires fs.MoreFields? && HoldsField(s2, i, x, y, z, fs.key, fs.v)
    requires |s2[i].kvals| == x + Step(fs.v).0 && |s2[i].arrs| == y + Step(fs.v).1 && |s2[i].tabs| == z + Step(fs.v).2
    requires HoldsFields(s', i, |s2[i].kvals|, |s2[i].arrs|, |s2[i].tabs|, fs.rest)
    ensures HoldsFields(s', i, x, y, z, fs)
  {
    assert NodeGrows(s2[i], s'[i]);
    FieldStable(s2, s', i, x, y, z, fs.key, fs.v);
  }

  lemma {:induction false} FieldBuilt(f: Foreign, s: Heap, i: nat, k: Str, v: Value, s': Heap)
    requires NoneImplicit(s, i) && EvalField(f, s, i, k, v) == Some(s')
    ensures i < |s'| && s'[i].Tab? && HoldsField(s', i, |s[i].kvals|, |s[i].arrs|, |s[i].tabs|, k, v)
    ensures && |s'[i].kvals| == |s[i].kvals| + Step(v).0
            && |s'[i].arrs| == |s[i].arrs| + Step(v).1
            && |s'[i].tabs| == |s[i].tabs| + Step(v).2
    decreases v, 0
  {
    match v
    case Scalar(_) =>
    case Array(e) =>
      var h := CreateArray(s, i, k).heap;
      ElemsBuilt(f, h, |s|, e, s');
      ElemsFrame(f, h, |s|, e);
      assert s'[i] == h[i] && NodeGrows(h[|s|], s'[|s|]);
    case Inline(fs) =>
      var h := CreateTable(s, i, k).heap;
      assert CreateTable(s, i, k).id == |s| && h[|s|] == NewTab(Some(KeyOf(k).name), false);
      FieldsBuilt(f, h, |s|, fs, s');
      FieldsFrame(f, h, |s|, fs);
      assert s'[i] == h[i] && NodeGrows(h[|s|], s'[|s|]);
  }

  // ---- Main results: parsing a value ----

  /** The tokens from `t` on spell well-formed elements `e`, ending before `end`. */
  ghost predicate SpellsArray(env: Env, t: Token, e: Elems, end: Token) {
    Read(env.inp, t, PrintElems(e)) == Some(end) && WfElems(env.foreign, e) && AllSame(Classes(env.foreign, e))
  }

  /** The tokens from `t` on spell well-formed fields `fs`, ending before `end`. */
  ghost predicate SpellsTable(env: Env, t: Token, fs: Fields, end: Token) {
    Read(env.inp, t, PrintFields(fs)) == Some(end) && WfFields(env.foreign, fs) && UsableKeys(FieldKeys(fs))
  }

  /**
    * Into a fresh array, any well-formed elements, however their newlines and
    * trailing commas are placed, are parsed to exactly those elements, and exactly
    * their tokens are consumed; no other node changes.
    */
  lemma ArrayRoundTrip(env: Env, s: Heap, t: Token, a: nat, e: Elems, end: Token)
    requires Shaped(env.inp, t) && a < |s| && s[a] == NewArr(s[a].key) && SpellsArray(env, t, e, end)
    ensures var r := ParseElems(env, s, t, a);
            r.Ok? && r.tok == end && HoldsArray(r.heap, 0, a, s[a].key, e) && OnlyAt(s, r.heap, a)
  {
    ElemsSucceed(env.foreign, s, a, e);
    var s' := EvalElems(env.foreign, s, a, e).value;
    Recognizer.ElemsParsed(env, s, t, a, e, s', end);
    ElemsBuilt(env.foreign, s, a, e, s');
    ElemsFrame(env.foreign, s, a, e);
    assert NodeGrows(s[a], s'[a]);
  }

  /** The converse: an array is parsed only if its tokens spell well-formed elements. */
  lemma ArrayParsesOnlyIf(env: Env, s: Heap, t: Token, a: nat)
    requires Shaped(env.inp, t) && a < |s| && s[a] == NewArr(s[a].key) && ParseElems(env, s, t, a).Ok?
    ensures exists e :: SpellsArray(env, t, e, ParseElems(env, s, t, a).tok)
  {
    var r := ParseElems(env, s, t, a);
    var e := Recognizer.ElemsSpelled(env, s, t, a, r.heap, r.tok);
    ElemsSucceed(env.foreign, s, a, e);
    assert SpellsArray(env, t, e, r.tok);
  }

  /** Into a fresh table, any well-formed fields are parsed to exactly those fields, consuming exactly their tokens. */
  lemma TableRoundTrip(env: Env, s: Heap, t: Token, i: nat, fs: Fields, end: Token)
    requires Shaped(env.inp, t) && i < |s| && s[i] == NewTab(s[i].key, false) && SpellsTable(env, t, fs, end)
    ensures var r := ParseFields(env, s, t, i);
            r.Ok? && r.tok == end && HoldsTable(r.heap, 0, i, s[i].key, fs) && OnlyAt(s, r.heap, i)
  {
    FieldsSucceed(env.foreign, s, i, fs);
    var s' := EvalFields(env.foreign, s, i, fs).value;
    Recognizer.FieldsParsed(env, s, t, i, fs, s', end);
    FieldsBuilt(env.foreign, s, i, fs, s');
    FieldsFrame(env.foreign, s, i, fs);
    assert NodeGrows(s[i], s'[i]);
  }

  /** The converse: an inline table is parsed only if its tokens spell well-formed fields. */
  lemma TableParsesOnlyIf(env: Env, s: Heap, t: Token, i: nat)
    requires Shaped(env.inp, t) && i < |s| && s[i] == NewTab(s[i].key, false) && ParseFields(env, s, t, i).Ok?
    ensures exists fs :: SpellsTable(env, t, fs, ParseFields(env, s, t, i).tok)
  {
    var r := ParseFields(env, s, t, i);
    var fs := Recognizer.FieldsSpelled(env, s, t, i, r.heap, r.tok);
    FieldsSucceed(env.foreign, s, i, fs);
    assert SpellsTable(env, t, fs, r.tok);
  }
}
