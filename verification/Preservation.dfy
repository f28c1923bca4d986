/**
  * What every parsing step over values keeps, whether it succeeds or raises an
  * error: the document stays a tree without sharing, with distinct keys and with
  * array elements in the arm their array's kind names. On success, the values of
  * every value array are also of one type.
  */
module Preservation {
  import opened Bytes
  import opened Lexer
  import opened Store
  import opened Keys
  import opened Eval
  import opened Parser

  /** The values of a value array are of one type, the one it records. */
  ghost predicate NodeUniform(f: Foreign, n: Node) {
    n.Arr? && n.kind == Values ==> forall a | 0 <= a < |n.elems| :: n.elems[a].V? && TypeOf(f, n.elems[a].text) == n.typ
  }

  ghost predicate Uniform(f: Foreign, s: Heap) { forall i | 0 <= i < |s| :: NodeUniform(f, s[i]) }

  /** The document is still in order and, unless the step failed, as uniform as it was. */
  ghost predicate Sound(f: Foreign, s: Heap, s': Heap, ok: bool) {
    Inv(s') && (ok && Uniform(f, s) ==> Uniform(f, s'))
  }

  // ---- The builder steps ----

  lemma UniformStep(f: Foreign, s: Heap, i: nat, s': Heap)
    requires Uniform(f, s) && i < |s| <= |s'| && NodeUniform(f, s'[i])
    requires forall j | 0 <= j < |s| && j != i :: s'[j] == s[j]
    requires forall j | |s| <= j < |s'| :: NodeUniform(f, s'[j])
    ensures Uniform(f, s')
  {
    forall j | 0 <= j < |s'| ensures NodeUniform(f, s'[j]) {
      if j < |s| && j != i {
        assert NodeUniform(f, s[j]);
      }
    }
  }

  lemma AppendScalarUniform(f: Foreign, s: Heap, a: nat, text: Str)
    requires Shape(s) && a < |s| && s[a].Arr? && Uniform(f, s) && AppendScalar(f, s, a, text).Done?
    ensures Uniform(f, AppendScalar(f, s, a, text).heap)
  {
    var s' := AppendScalar(f, s, a, text).heap;
    assert NodeUniform(f, s[a]) && NodeOk(s, a, s[a]);
    assert NodeUniform(f, s'[a]);
    UniformStep(f, s, a, s');
  }

  lemma AppendScalarInv(f: Foreign, s: Heap, a: nat, text: Str)
    requires Inv(s) && a < |s| && s[a].Arr?
    ensures Sound(f, s, AppendScalar(f, s, a, text).heap, AppendScalar(f, s, a, text).Done?)
  {
    if Takes(s[a], Values) {
      PushValInv(s, a, text, TypeOf(f, text));
    }
    if Uniform(f, s) && AppendScalar(f, s, a, text).Done? {
      AppendScalarUniform(f, s, a, text);
    }
  }

  lemma AppendArrayInv(f: Foreign, s: Heap, a: nat)
    requires Inv(s) && a < |s| && s[a].Arr?
    ensures Sound(f, s, AppendArray(s, a).heap, AppendArray(s, a).Done?)
  {
    if Takes(s[a], Arrays) {
      PushArrInv(s, a);
      if Uniform(f, s) { UniformStep(f, s, a, PushArr(s, a)); }
    }
  }

  lemma AppendTableInv(f: Foreign, s: Heap, a: nat)
    requires Inv(s) && a < |s| && s[a].Arr?
    ensures Sound(f, s, AppendTable(s, a).heap, AppendTable(s, a).Done?)
  {
    if Takes(s[a], Tables) {
      PushTabInv(s, a, None);
      if Uniform(f, s) { UniformStep(f, s, a, PushTab(s, a, None)); }
    }
  }

  lemma AddValSound(f: Foreign, s: Heap, i: nat, key: Str, val: Str)
    requires Inv(s) && i < |s| && s[i].Tab? && CheckKey(s, s[i], key).Absent?
    ensures Sound(f, s, AddVal(s, i, key, val), true)
  {
    AddValInv(s, i, key, val);
    if Uniform(f, s) { UniformStep(f, s, i, AddVal(s, i, key, val)); }
  }

  lemma AddArrSound(f: Foreign, s: Heap, i: nat, key: Str)
    requires Inv(s) && i < |s| && s[i].Tab? && CheckKey(s, s[i], key).Absent?
    ensures Sound(f, s, AddArr(s, i, key), true)
  {
    AddArrInv(s, i, key);
    if Uniform(f, s) { UniformStep(f, s, i, AddArr(s, i, key)); }
  }

  lemma AddTabSound(f: Foreign, s: Heap, i: nat, key: Str, implicit: bool)
    requires Inv(s) && i < |s| && s[i].Tab? && CheckKey(s, s[i], key).Absent?
    ensures Sound(f, s, AddTab(s, i, key, implicit), true)
  {
    AddTabInv(s, i, key, implicit);
    if Uniform(f, s) { UniformStep(f, s, i, AddTab(s, i, key, implicit)); }
  }

  lemma PromoteSound(f: Foreign, s: Heap, i: nat)
    requires Inv(s) && i < |s| && s[i].Tab?
    ensures Sound(f, s, Promote(s, i), true)
  {
    PromoteInv(s, i);
    if Uniform(f, s) { UniformStep(f, s, i, Promote(s, i)); }
  }

  lemma CreateValInv(f: Foreign, s: Heap, i: nat, keytext: Str, val: Str)
    requires Inv(s) && i < |s| && s[i].Tab?
    ensures Sound(f, s, CreateVal(s, i, keytext, val).heap, CreateVal(s, i, keytext, val).Done?)
  {
    var k := KeyOf(keytext);
    if k.Key? && CheckKey(s, s[i], k.name).Absent? {
      AddValSound(f, s, i, k.name, val);
    }
  }

  lemma CreateArrayInv(f: Foreign, s: Heap, i: nat, keytext: Str)
    requires Inv(s) && i < |s| && s[i].Tab?
    ensures Sound(f, s, CreateArray(s, i, keytext).heap, CreateArray(s, i, keytext).Done?)
  {
    var k := KeyOf(keytext);
    if k.Key? && CheckKey(s, s[i], k.name).Absent? {
      AddArrSound(f, s, i, k.name);
    }
  }

  lemma ClaimTableInv(f: Foreign, s: Heap, i: nat, k: Str)
    requires Inv(s) && i < |s| && s[i].Tab?
    ensures Sound(f, s, ClaimTable(s, i, k).heap, ClaimTable(s, i, k).Done?)
  {
    match CheckKey(s, s[i], k)
    case Absent => AddTabSound(f, s, i, k, false);
    case FoundTab(id) =>
      assert NodeOk(s, i, s[i]);
      if s[id].implicit { PromoteSound(f, s, id); }
    case _ =>
  }

  lemma CreateTableInv(f: Foreign, s: Heap, i: nat, keytext: Str)
    requires Inv(s) && i < |s| && s[i].Tab?
    ensures Sound(f, s, CreateTable(s, i, keytext).heap, CreateTable(s, i, keytext).Done?)
  {
    var k := KeyOf(keytext);
    if k.Key? {
      ClaimTableInv(f, s, i, k.name);
    }
  }

  // ---- The descent ----

  ghost predicate SoundStep(env: Env, s: Heap, r: Parsed) { Sound(env.foreign, s, r.heap, r.Ok?) }

  lemma {:induction false} ElemsKept(env: Env, s: Heap, t: Token, a: nat)
    requires Shaped(env.inp, t) && a < |s| && s[a].Arr? && Inv(s)
    ensures SoundStep(env, s, ParseElems(env, s, t, a))
    decreases |env.inp| - t.ptr, 3
  {
    match SkipNewlines(env, t)
    case Halt(_) =>
    case To(t1) =>
      if t1.kind != RBracket {
        ElemKept(env, s, t1, a);
        var r := ParseElem(env, s, t1, a);
        if r.Ok? {
          assert NodeGrows(s[a], r.heap[a]);
          ElemsTailKept(env, r.heap, r.tok, a);
        }
      }
  }

  lemma {:induction false} ElemsTailKept(env: Env, s: Heap, t: Token, a: nat)
    requires Shaped(env.inp, t) && a < |s| && s[a].Arr? && Inv(s)
    ensures SoundStep(env, s, ElemsTail(env, s, t, a))
    decreases |env.inp| - t.ptr, 1
  {
    match SkipNewlines(env, t)
    case Halt(_) =>
    case To(t1) =>
      var c := Fetch(env.inp, s, t1, false);
      if t1.kind == Kind.Comma && c.Ok? {
        ElemsKept(env, s, c.tok, a);
      }
  }

  /** Past `[`, into the array just built. */
  lemma {:induction false} ArrayKept(env: Env, before: Heap, s: Heap, t: Token, a: nat)
    requires Shaped(env.inp, t) && t.kind == LBracket && a < |s| && s[a].Arr? && Sound(env.foreign, before, s, true)
    ensures var c := Fetch(env.inp, s, t, false);
            c.Ok? ==> SoundStep(env, before, ParseElems(env, s, c.tok, a))
    decreases |env.inp| - t.ptr, 1
  {
    var c := Fetch(env.inp, s, t, false);
    if c.Ok? {
      ElemsKept(env, s, c.tok, a);
    }
  }

  /** Past `{`, into the table just built. */
  lemma {:induction false} TableKept(env: Env, before: Heap, s: Heap, t: Token, i: nat)
    requires Shaped(env.inp, t) && t.kind == LBrace && i < |s| && s[i].Tab? && Sound(env.foreign, before, s, true)
    ensures var c := Fetch(env.inp, s, t, false);
            c.Ok? ==> SoundStep(env, before, ParseFields(env, s, c.tok, i))
    decreases |env.inp| - t.ptr, 1
  {
    var c := Fetch(env.inp, s, t, false);
    if c.Ok? {
      FieldsKept(env, s, c.tok, i);
    }
  }

  lemma {:induction false} ElemKept(env: Env, s: Heap, t: Token, a: nat)
    requires Shaped(env.inp, t) && a < |s| && s[a].Arr? && Inv(s)
    ensures SoundStep(env, s, ParseElem(env, s, t, a))
    decreases |env.inp| - t.ptr, 2
  {
    match t.kind
    case String =>
      AppendScalarInv(env.foreign, s, a, Text(env.inp, t));
    case LBracket =>
      AppendArrayInv(env.foreign, s, a);
      if AppendArray(s, a).Done? {
        ArrayKept(env, s, AppendArray(s, a).heap, t, AppendArray(s, a).id);
      }
    case LBrace =>
      AppendTableInv(env.foreign, s, a);
      if AppendTable(s, a).Done? {
        TableKept(env, s, AppendTable(s, a).heap, t, AppendTable(s, a).id);
      }
    case _ =>
  }

  lemma {:induction false} FieldsKept(env: Env, s: Heap, t: Token, i: nat)
    requires Shaped(env.inp, t) && i < |s| && s[i].Tab? && Inv(s)
    ensures SoundStep(env, s, ParseFields(env, s, t, i))
    decreases |env.inp| - t.ptr, 3
  {
    match SkipNewlines(env, t)
    case Halt(_) =>
    case To(t1) =>
      if t1.kind == Kind.String {
        KeyvalKept(env, s, t1, i);
        var r := ParseKeyval(env, s, t1, i);
        if r.Ok? {
          assert NodeGrows(s[i], r.heap[i]);
          FieldsTailKept(env, r.heap, r.tok, i);
        }
      }
  }

  lemma {:induction false} FieldsTailKept(env: Env, s: Heap, t: Token, i: nat)
    requires Shaped(env.inp, t) && i < |s| && s[i].Tab? && Inv(s)
    ensures SoundStep(env, s, FieldsTail(env, s, t, i))
    decreases |env.inp| - t.ptr, 1
  {
    match SkipNewlines(env, t)
    case Halt(_) =>
    case To(t1) =>
      var c := Fetch(env.inp, s, t1, false);
      if t1.kind == Kind.Comma && c.Ok? {
        FieldsKept(env, s, c.tok, i);
      }
  }

  lemma {:induction false} KeyvalKept(env: Env, s: Heap, t: Token, i: nat)
    requires Shaped(env.inp, t) && t.kind == Kind.String && i < |s| && s[i].Tab? && Inv(s)
    ensures SoundStep(env, s, ParseKeyval(env, s, t, i))
    decreases |env.inp| - t.ptr, 2
  {
    var c := Fetch(env.inp, s, t, false);
    if c.Ok? && c.tok.kind == Equal {
      var d := Fetch(env.inp, s, c.tok, false);
      if d.Ok? {
        EntryKept(env, s, t, d.tok, i);
      }
    }
  }

  lemma {:induction false} EntryKept(env: Env, s: Heap, key: Token, t: Token, i: nat)
    requires Shaped(env.inp, key) && key.kind == Kind.String
    requires Shaped(env.inp, t) && i < |s| && s[i].Tab? && Inv(s)
    ensures SoundStep(env, s, ParseEntry(env, s, key, t, i))
    decreases |env.inp| - t.ptr, 2
  {
    var k := Text(env.inp, key);
    match t.kind
    case String =>
      CreateValInv(env.foreign, s, i, k, Text(env.inp, t));
    case LBracket =>
      CreateArrayInv(env.foreign, s, i, k);
      if CreateArray(s, i, k).Done? {
        ArrayKept(env, s, CreateArray(s, i, k).heap, t, CreateArray(s, i, k).id);
      }
    case LBrace =>
      CreateTableInv(env.foreign, s, i, k);
      if CreateTable(s, i, k).Done? {
        TableKept(env, s, CreateTable(s, i, k).heap, t, CreateTable(s, i, k).id);
      }
    case _ =>
  }
}
