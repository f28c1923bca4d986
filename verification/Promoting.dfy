/**
  * Inline values under keys of any table of a document: when they are accepted,
  * in one look at the document before the first of them is built.
  *
  * A key must be new to its table, or name an implicit table of it, which an
  * inline table then claims, on the same terms, whatever else that table holds.
  */
module Promoting {
  import opened Bytes
  import opened Lexer
  import opened Store
  import opened Ownership
  import opened Keys
  import opened Grammar
  import opened Eval
  import opened Parser
  import opened Faithful
  import Preservation
  import Recognizer

  // ---- What fits into a document ----

  /** These key-values can be entered in table `i`. */
  ghost predicate Fits(f: Foreign, s: Heap, i: nat, fs: Fields)
    requires i < |s| && s[i].Tab?
    decreases fs, 1
  {
    UsableKeys(FieldKeys(fs)) && EachFits(f, s, i, fs)
  }

  ghost predicate EachFits(f: Foreign, s: Heap, i: nat, fs: Fields)
    requires i < |s| && s[i].Tab?
    decreases fs, 0
  {
    match fs
    case NoField(_) => true
    case LastField(_, k, v, _) => FitsUnder(f, s, i, KeyOf(k), v)
    case MoreFields(_, k, v, _, rest) => FitsUnder(f, s, i, KeyOf(k), v) && EachFits(f, s, i, rest)
  }

  ghost predicate FitsUnder(f: Foreign, s: Heap, i: nat, k: KeyRead, v: Value)
    requires i < |s| && s[i].Tab?
    decreases v, 2
  {
    k.Key? && match CheckKey(s, s[i], k.name)
              case Absent => WfValue(f, v)
              case FoundTab(c) => c < |s| && s[c].Tab? && s[c].implicit && v.Inline? && Fits(f, s, c, v.fields)
              case _ => false
  }

  // ---- What evaluation keeps ----

  lemma {:induction false} ElemsKept(f: Foreign, s: Heap, a: nat, e: Elems)
    requires Inv(s) && a < |s| && s[a].Arr? && EvalElems(f, s, a, e).Some?
    ensures Inv(EvalElems(f, s, a, e).value)
    decreases e, 1
  {
    match e
    case NoElem(_) =>
    case LastElem(_, v, _) => ElemKept(f, s, a, v);
    case MoreElems(_, v, _, rest) =>
      var s2 := EvalElem(f, s, a, v).value;
      ElemKept(f, s, a, v);
      assert NodeGrows(s[a], s2[a]);
      ElemsKept(f, s2, a, rest);
  }

  lemma {:induction false} ElemKept(f: Foreign, s: Heap, a: nat, v: Value)
    requires Inv(s) && a < |s| && s[a].Arr? && EvalElem(f, s, a, v).Some?
    ensures Inv(EvalElem(f, s, a, v).value)
    decreases v, 0
  {
    match v
    case Scalar(text) => Preservation.AppendScalarInv(f, s, a, text);
    case Array(elems) =>
      Preservation.AppendArrayInv(f, s, a);
      ElemsKept(f, AppendArray(s, a).heap, |s|, elems);
    case Inline(fields) =>
      Preservation.AppendTableInv(f, s, a);
      FieldsKept(f, AppendTable(s, a).heap, |s|, fields);
  }

  lemma {:induction false} FieldsKept(f: Foreign, s: Heap, i: nat, fs: Fields)
    requires Inv(s) && i < |s| && s[i].Tab? && EvalFields(f, s, i, fs).Some?
    ensures Inv(EvalFields(f, s, i, fs).value)
    decreases fs, 1
  {
    match fs
    case NoField(_) =>
    case LastField(_, k, v, _) => FieldKept(f, s, i, k, v);
    case MoreFields(_, k, v, _, rest) =>
      var s2 := EvalField(f, s, i, k, v).value;
      FieldKept(f, s, i, k, v);
      assert NodeGrows(s[i], s2[i]);
      FieldsKept(f, s2, i, rest);
  }

  lemma {:induction false} FieldKept(f: Foreign, s: Heap, i: nat, k: Str, v: Value)
    requires Inv(s) && i < |s| && s[i].Tab? && EvalField(f, s, i, k, v).Some?
    ensures Inv(EvalField(f, s, i, k, v).value)
    decreases v, 0
  {
    match v
    case Scalar(text) => Preservation.CreateValInv(f, s, i, k, text);
    case Array(elems) =>
      Preservation.CreateArrayInv(f, s, i, k);
      ElemsKept(f, CreateArray(s, i, k).heap, CreateArray(s, i, k).id, elems);
    case Inline(fields) =>
      Preservation.CreateTableInv(f, s, i, k);
      FieldsKept(f, CreateTable(s, i, k).heap, CreateTable(s, i, k).id, fields);
  }

  // ---- Ancestors stay the same ----

  lemma {:induction false} SlotIdsGrow(a: seq<Slot>, b: seq<Slot>, x: nat)
    requires a <= b && x in SlotIds(a)
    ensures x in SlotIds(b)
    decreases |b|
  {
    if |a| < |b| {
      SlotIdsGrow(a, b[..|b| - 1], x);
    } else {
      assert a == b;
    }
  }

  lemma OwnsKept(s: Heap, s': Heap, i: nat, x: nat)
    requires Grows(s, s') && Owns(s, i, x)
    ensures Owns(s', i, x)
  {
    assert NodeGrows(s[i], s'[i]);
    if s[i].Arr? { SlotIdsGrow(s[i].elems, s'[i].elems, x); }
  }

  lemma {:induction false} AboveKept(s: Heap, s': Heap, id: nat, x: nat)
    requires Inv(s) && Inv(s') && Grows(s, s') && x < |s|
    ensures Above(s', id, x) <==> Above(s, id, x)
    decreases x
  {
    if x > 0 {
      var o := Owner(s, x);
      OwnsKept(s, s', o, x);
      OneOwner(s', o, Owner(s', x), x);
      AboveKept(s, s', id, o);
    }
  }

  lemma ChildOf(s: Heap, i: nat, key: Str, c: nat)
    requires Inv(s) && i < |s| && s[i].Tab? && CheckKey(s, s[i], key) == FoundTab(c)
    ensures i < c < |s| && s[c].Tab? && Owns(s, i, c) && KeyAt(s, c) == key
  {
    assert NodeOk(s, i, s[i]);
    var a :| 0 <= a < |s[i].tabs| && s[i].tabs[a] == c;
  }

  // ---- Tables that agree from here on down ----

  /** Table `i` has the same entries in both documents, and they are the same all the way down. */
  ghost predicate Alike(s: Heap, s': Heap, i: nat)
    requires Inv(s)
  {
    && i < |s| <= |s'| && s[i].Tab? && s'[i].Tab?
    && s'[i].kvals == s[i].kvals && s'[i].arrs == s[i].arrs && s'[i].tabs == s[i].tabs
    && forall x: nat | x < |s| && x != i && Above(s, i, x) :: s'[x] == s[x]
  }

  lemma ChildAlike(s: Heap, s': Heap, i: nat, c: nat)
    requires Inv(s) && Alike(s, s', i) && Owns(s, i, c) && i < c < |s|
    ensures s'[c] == s[c] && (s[c].Tab? ==> Alike(s, s', c))
  {
    forall x: nat | x < |s| && Above(s, c, x) ensures s'[x] == s[x] {
      OnlyToward(s, i, c, x);
    }
    assert Above(s, c, c);
  }

  lemma AlikeFound(s: Heap, s': Heap, i: nat, key: Str)
    requires Inv(s) && Alike(s, s', i)
    ensures CheckKey(s', s'[i], key) == CheckKey(s, s[i], key)
  {
    InvOrdered(s);
    var t := s[i];
    forall a | 0 <= a < |Kids(t)| ensures KeyAt(s', Kids(t)[a]) == KeyAt(s, Kids(t)[a]) {
      ChildAlike(s, s', i, Kids(t)[a]);
    }
    assert forall a | 0 <= a < |t.arrs| :: t.arrs[a] == Kids(t)[a];
    assert forall a | 0 <= a < |t.tabs| :: t.tabs[a] == Kids(t)[|t.arrs| + a];
    FindSame(s, s', t.arrs, key, 0);
    FindSame(s, s', t.tabs, key, 0);
  }

  lemma {:induction false} FitsAlike(f: Foreign, s: Heap, s': Heap, i: nat, fs: Fields)
    requires Inv(s) && Alike(s, s', i)
    ensures EachFits(f, s', i, fs) <==> EachFits(f, s, i, fs)
    decreases fs, 1
  {
    match fs
    case NoField(_) =>
    case LastField(_, k, v, _) => UnderAlike(f, s, s', i, KeyOf(k), v);
    case MoreFields(_, k, v, _, rest) =>
      UnderAlike(f, s, s', i, KeyOf(k), v);
      FitsAlike(f, s, s', i, rest);
  }

  lemma {:induction false} UnderAlike(f: Foreign, s: Heap, s': Heap, i: nat, k: KeyRead, v: Value)
    requires Inv(s) && Alike(s, s', i)
    ensures FitsUnder(f, s', i, k, v) <==> FitsUnder(f, s, i, k, v)
    decreases v, 0
  {
    if k.Key? {
      AlikeFound(s, s', i, k.name);
      if CheckKey(s, s[i], k.name).FoundTab? && v.Inline? {
        var c := CheckKey(s, s[i], k.name).id;
        ChildOf(s, i, k.name, c);
        ChildAlike(s, s', i, c);
        FitsAlike(f, s, s', c, v.fields);
      }
    }
  }

  // ---- What evaluation leaves alone ----

  /** Node `x` is the table, or at or below the table under this key. */
  ghost predicate Reaches(s: Heap, i: nat, k: Str, x: nat)
    requires Inv(s) && i < |s| && s[i].Tab? && KeyOf(k).Key? && x < |s|
  {
    x == i || match CheckKey(s, s[i], KeyOf(k).name)
              case FoundTab(c) => Above(s, c, x)
              case _ => false
  }

  lemma {:induction false} FieldLeaves(f: Foreign, s: Heap, i: nat, k: Str, v: Value, x: nat)
    requires Inv(s) && i < |s| && s[i].Tab? && EvalField(f, s, i, k, v).Some? && x < |s| && !Reaches(s, i, k, x)
    ensures EvalField(f, s, i, k, v).value[x] == s[x]
    decreases v, 0
  {
    if Fresh(s, i, k) {
      EntryFrame(f, s, i, k, v);
    } else {
      var c := CheckKey(s, s[i], KeyOf(k).name).id;
      ChildOf(s, i, KeyOf(k).name, c);
      PromoteInv(s, c);
      AboveKept(s, Promote(s, c), c, x);
      assert Above(s, c, c);
      FieldsLeave(f, Promote(s, c), c, v.fields, x);
    }
  }

  lemma {:induction false} FieldsLeave(f: Foreign, s: Heap, i: nat, fs: Fields, x: nat)
    requires Inv(s) && i < |s| && s[i].Tab? && EvalFields(f, s, i, fs).Some? && x < |s| && !Above(s, i, x)
    ensures EvalFields(f, s, i, fs).value[x] == s[x]
    decreases fs, 1
  {
    match fs
    case NoField(_) =>
    case LastField(_, k, v, _) => FieldLeavesOutside(f, s, i, k, v, EvalField(f, s, i, k, v).value, x);
    case MoreFields(_, k, v, _, rest) =>
      var s2 := EvalField(f, s, i, k, v).value;
      FieldLeavesOutside(f, s, i, k, v, s2, x);
      FieldsLeave(f, s2, i, rest, x);
  }

  lemma {:induction false} FieldLeavesOutside(f: Foreign, s: Heap, i: nat, k: Str, v: Value, s2: Heap, x: nat)
    requires Inv(s) && i < |s| && s[i].Tab? && EvalField(f, s, i, k, v) == Some(s2) && x < |s| && !Above(s, i, x)
    ensures Inv(s2) && |s| <= |s2| && s2[i].Tab? && s2[x] == s[x] && !Above(s2, i, x)
    decreases v, 1
  {
    assert NodeGrows(s[i], s2[i]);
    FieldKept(f, s, i, k, v);
    AboveKept(s, s2, i, x);
    NotReached(s, i, k, x);
    FieldLeaves(f, s, i, k, v, x);
  }

  lemma NotReached(s: Heap, i: nat, k: Str, x: nat)
    requires Inv(s) && i < |s| && s[i].Tab? && x < |s| && !Above(s, i, x)
    ensures KeyOf(k).Key? ==> !Reaches(s, i, k, x)
  {
    if KeyOf(k).Key? && CheckKey(s, s[i], KeyOf(k).name).FoundTab? {
      var c := CheckKey(s, s[i], KeyOf(k).name).id;
      ChildOf(s, i, KeyOf(k).name, c);
      if Above(s, c, x) { OnlyToward(s, i, c, x); }
    }
  }

  // ---- After one entry ----

  /** After an entry is made, other keys find what they found; its own key finds nothing that could be claimed. */
  lemma FoundAfter(f: Foreign, s: Heap, i: nat, k: Str, v: Value, s2: Heap, other: Str)
    requires Inv(s) && i < |s| && s[i].Tab? && EvalField(f, s, i, k, v) == Some(s2)
    ensures i < |s2| && s2[i].Tab? && KeyOf(k).Key?
    ensures other != KeyOf(k).name ==> CheckKey(s2, s2[i], other) == CheckKey(s, s[i], other)
    ensures other == KeyOf(k).name ==> match CheckKey(s2, s2[i], other)
                                       case Absent => false
                                       case FoundTab(c) => c < |s2| && s2[c].Tab? && !s2[c].implicit
                                       case _ => true
  {
    assert NodeGrows(s[i], s2[i]);
    if Fresh(s, i, k) {
      assert NodeOk(s, i, s[i]);
      EntryFrame(f, s, i, k, v);
      GrowthKeeps(Entered(s, i, KeyOf(k).name, v), s2);
      EntryFound(s, s2, i, KeyOf(k).name, v, other);
      if v.Inline? { assert NodeGrows(Entered(s, i, KeyOf(k).name, v)[|s|], s2[|s|]); }
    } else {
      var c := CheckKey(s, s[i], KeyOf(k).name).id;
      ChildOf(s, i, KeyOf(k).name, c);
      PromotedFound(f, s, i, c, v.fields, s2, other);
    }
  }

  lemma PromotedFound(f: Foreign, s: Heap, i: nat, c: nat, fs: Fields, s2: Heap, other: Str)
    requires Inv(s) && i < c < |s| && s[i].Tab? && s[c].Tab? && EvalFields(f, Promote(s, c), c, fs) == Some(s2)
    ensures |s| <= |s2| && s2[i] == s[i] && s2[c].Tab? && !s2[c].implicit
    ensures CheckKey(s2, s2[i], other) == CheckKey(s, s[i], other)
  {
    var h := Promote(s, c);
    PromoteInv(s, c);
    if Above(h, c, i) { AboveIsEarlier(h, c, i); }
    FieldsLeave(f, h, c, fs, i);
    assert NodeGrows(h[c], s2[c]);
    GrowsTrans(s, h, s2);
    GrowthKeeps(s, s2);
    assert NodeOk(s, i, s[i]);
    FindSame(s, s2, s[i].arrs, other, 0);
    FindSame(s, s2, s[i].tabs, other, 0);
  }

  /** What fits under another key fits there still, and nothing fits under the same key again. */
  lemma FitsAfter(f: Foreign, s: Heap, i: nat, k: Str, v: Value, s2: Heap, r: KeyRead, w: Value)
    requires Inv(s) && i < |s| && s[i].Tab? && EvalField(f, s, i, k, v) == Some(s2)
    ensures i < |s2| && s2[i].Tab? && (FitsUnder(f, s2, i, r, w) <==> r != KeyOf(k) && FitsUnder(f, s, i, r, w))
  {
    FoundAfter(f, s, i, k, v, s2, if r.Key? then r.name else []);
    if r.Key? && r != KeyOf(k) && CheckKey(s, s[i], r.name).FoundTab? && w.Inline? {
      var c := CheckKey(s, s[i], r.name).id;
      ChildOf(s, i, r.name, c);
      Untouched(f, s, i, k, v, s2, r.name, c);
      FitsAlike(f, s, s2, c, w.fields);
    }
  }

  /** The table under another key is as it was, all the way down. */
  lemma Untouched(f: Foreign, s: Heap, i: nat, k: Str, v: Value, s2: Heap, other: Str, c: nat)
    requires Inv(s) && i < |s| && s[i].Tab? && EvalField(f, s, i, k, v) == Some(s2)
    requires CheckKey(s, s[i], other) == FoundTab(c) && KeyOf(k).Key? && other != KeyOf(k).name
    ensures c < |s| && s[c].Tab? && |s| <= |s2| && s2[c] == s[c] && Alike(s, s2, c)
  {
    ChildOf(s, i, other, c);
    forall x: nat | x < |s| && Above(s, c, x) ensures s2[x] == s[x] {
      AboveIsEarlier(s, c, x);
      OnlyToward(s, i, c, x);
      if CheckKey(s, s[i], KeyOf(k).name).FoundTab? {
        var b := CheckKey(s, s[i], KeyOf(k).name).id;
        ChildOf(s, i, KeyOf(k).name, b);
        AboveIsToward(s, i, b, x);
      }
      FieldLeaves(f, s, i, k, v, x);
    }
    assert Above(s, c, c);
  }

  lemma {:induction false} EachFitsAfter(f: Foreign, s: Heap, i: nat, k: Str, v: Value, s2: Heap, fs: Fields)
    requires Inv(s) && i < |s| && s[i].Tab? && EvalField(f, s, i, k, v) == Some(s2)
    ensures i < |s2| && s2[i].Tab?
    ensures EachFits(f, s2, i, fs) <==> EachFits(f, s, i, fs) && KeyOf(k) !in FieldKeys(fs)
    decreases fs
  {
    match fs
    case NoField(_) => assert NodeGrows(s[i], s2[i]);
    case LastField(_, l, w, _) => FitsAfter(f, s, i, k, v, s2, KeyOf(l), w);
    case MoreFields(_, l, w, _, rest) =>
      FitsAfter(f, s, i, k, v, s2, KeyOf(l), w);
      EachFitsAfter(f, s, i, k, v, s2, rest);
  }

  // ---- Main results ----

  /** Key-values can be entered in a table of a document if and only if they fit into it. */
  lemma {:induction false} FieldsFit(f: Foreign, s: Heap, i: nat, fs: Fields)
    requires Inv(s) && i < |s| && s[i].Tab?
    ensures EvalFields(f, s, i, fs).Some? <==> Fits(f, s, i, fs)
    decreases fs, 1
  {
    match fs
    case NoField(_) =>
    case LastField(_, k, v, _) => FieldFits(f, s, i, k, v);
    case MoreFields(_, k, v, _, rest) =>
      FieldFits(f, s, i, k, v);
      OneMoreKey(KeyOf(k), FieldKeys(rest));
      if EvalField(f, s, i, k, v).Some? {
        var s2 := EvalField(f, s, i, k, v).value;
        FieldKept(f, s, i, k, v);
        EachFitsAfter(f, s, i, k, v, s2, rest);
        FieldsFit(f, s2, i, rest);
      }
  }

  lemma {:induction false} FieldFits(f: Foreign, s: Heap, i: nat, k: Str, v: Value)
    requires Inv(s) && i < |s| && s[i].Tab?
    ensures EvalField(f, s, i, k, v).Some? <==> FitsUnder(f, s, i, KeyOf(k), v)
    decreases v, 0
  {
    if Fresh(s, i, k) {
      EntrySucceeds(f, s, i, k, v);
    } else if KeyOf(k).Key? && CheckKey(s, s[i], KeyOf(k).name).FoundTab? && v.Inline? {
      var c := CheckKey(s, s[i], KeyOf(k).name).id;
      ChildOf(s, i, KeyOf(k).name, c);
      if s[c].implicit {
        PromoteInv(s, c);
        FieldsFit(f, Promote(s, c), c, v.fields);
        FitsAlike(f, s, Promote(s, c), c, v.fields);
      }
    }
  }

  /** `parse_table`, into any table of a document, accepts exactly the tokens that spell key-values that fit into it. */
  lemma FieldsParseWhenTheyFit(env: Env, s: Heap, t: Token, i: nat)
    requires Inv(s) && Shaped(env.inp, t) && i < |s| && s[i].Tab?
    ensures ParseFields(env, s, t, i).Ok? <==>
              exists fs :: Read(env.inp, t, PrintFields(fs)).Some? && Fits(env.foreign, s, i, fs)
  {
    var r := ParseFields(env, s, t, i);
    if r.Ok? {
      var fs := Recognizer.FieldsSpelled(env, s, t, i, r.heap, r.tok);
      FieldsFit(env.foreign, s, i, fs);
      assert Read(env.inp, t, PrintFields(fs)).Some? && Fits(env.foreign, s, i, fs);
    }
    if exists fs :: Read(env.inp, t, PrintFields(fs)).Some? && Fits(env.foreign, s, i, fs) {
      var fs :| Read(env.inp, t, PrintFields(fs)).Some? && Fits(env.foreign, s, i, fs);
      FieldsFit(env.foreign, s, i, fs);
      var s', end := EvalFields(env.foreign, s, i, fs).value, Read(env.inp, t, PrintFields(fs)).value;
      Recognizer.FieldsParsed(env, s, t, i, fs, s', end);
    }
  }
}
