/**
  * The document: tables and arrays as the C heap holds them.
  *
  * Nodes live in one sequence and refer to each other by index, so that sharing,
  * cursors into the tree and blocks nobody reaches can all be expressed. A node
  * is never moved, and `calloc` hands out the next index.
  */
module Store {
  import opened Bytes

  datatype KeyVal = KeyVal(key: Str, val: Str)

  /** What `valtype` says of a raw value; Unset is the 0 an array starts with. */
  datatype ValType = Unset | Textual | Boolean | Integer | Double | Timestamp | Date | Time | Unknown

  datatype ElemKind = NoKind | Values | Arrays | Tables

  /** An element of the union inside an array, with the arm it was stored through. */
  datatype Slot = V(text: Str) | A(id: nat) | T(id: nat)

  datatype Node =
    | Tab(key: Option<Str>, implicit: bool, kvals: seq<KeyVal>, arrs: seq<nat>, tabs: seq<nat>)
    | Arr(key: Option<Str>, kind: ElemKind, typ: ValType, elems: seq<Slot>)

  type Heap = seq<Node>

  const ROOT: nat := 0

  /** A fresh table or array, as `calloc` leaves it. */
  function NewTab(key: Option<Str>, implicit: bool): Node { Tab(key, implicit, [], [], []) }

  function NewArr(key: Option<Str>): Node { Arr(key, NoKind, Unset, []) }

  /** The heap a parse starts with: an empty root table. */
  const EMPTY: Heap := [NewTab(None, false)]

  // ---- Looking things up ----

  function KeyAt(s: Heap, id: nat): Str {
    if id < |s| && s[id].key.Some? then s[id].key.value else []
  }

  /** What `check_key` returns. */
  datatype Found = Absent | FoundVal(index: nat) | FoundArr(id: nat) | FoundTab(id: nat)

  function FindVal(kvals: seq<KeyVal>, key: Str, from: nat): (r: Option<nat>)
    requires from <= |kvals|
    ensures r.Some? ==> from <= r.value < |kvals| && kvals[r.value].key == key
    ensures r.None? ==> forall i | from <= i < |kvals| :: kvals[i].key != key
    decreases |kvals| - from
  {
    if from == |kvals| then None
    else if kvals[from].key == key then Some(from)
    else FindVal(kvals, key, from + 1)
  }

  function FindId(s: Heap, ids: seq<nat>, key: Str, from: nat): (r: Option<nat>)
    requires from <= |ids|
    ensures r.Some? ==> r.value in ids && KeyAt(s, r.value) == key
    ensures r.None? ==> forall i | from <= i < |ids| :: KeyAt(s, ids[i]) != key
    decreases |ids| - from
  {
    if from == |ids| then None
    else if KeyAt(s, ids[from]) == key then Some(ids[from])
    else FindId(s, ids, key, from + 1)
  }

  function CheckKey(s: Heap, tab: Node, key: Str): Found
    requires tab.Tab?
  {
    match FindVal(tab.kvals, key, 0)
    case Some(i) => FoundVal(i)
    case None =>
      match FindId(s, tab.arrs, key, 0)
      case Some(id) => FoundArr(id)
      case None =>
        match FindId(s, tab.tabs, key, 0)
        case Some(id) => FoundTab(id)
        case None => Absent
  }

  // ---- Looking up again, in a later document ----

  lemma {:induction false} FindValAppended(kvals: seq<KeyVal>, kv: KeyVal, key: Str, from: nat)
    requires from <= |kvals|
    ensures FindVal(kvals + [kv], key, from) ==
            if FindVal(kvals, key, from).Some? then FindVal(kvals, key, from)
            else if kv.key == key then Some(|kvals|) else None
    decreases |kvals| - from
  {
    if from < |kvals| {
      FindValAppended(kvals, kv, key, from + 1);
    } else {
      assert (kvals + [kv])[from] == kv;
      assert FindVal(kvals + [kv], key, from + 1) == None;
    }
  }

  lemma {:induction false} FindSame(s: Heap, s': Heap, ids: seq<nat>, key: Str, from: nat)
    requires from <= |ids| && forall a | 0 <= a < |ids| :: KeyAt(s', ids[a]) == KeyAt(s, ids[a])
    ensures FindId(s', ids, key, from) == FindId(s, ids, key, from)
    decreases |ids| - from
  {
    if from < |ids| {
      FindSame(s, s', ids, key, from + 1);
    }
  }

  lemma {:induction false} FindAppended(s: Heap, ids: seq<nat>, id: nat, key: Str, from: nat)
    requires from <= |ids|
    ensures FindId(s, ids + [id], key, from) ==
            if FindId(s, ids, key, from).Some? then FindId(s, ids, key, from)
            else if KeyAt(s, id) == key then Some(id) else None
    decreases |ids| - from
  {
    if from < |ids| {
      FindAppended(s, ids, id, key, from + 1);
    } else {
      assert (ids + [id])[from] == id;
      assert FindId(s, ids + [id], key, from + 1) == None;
    }
  }

  // ---- The invariant ----

  function SlotIds(elems: seq<Slot>): seq<nat> {
    if elems == [] then []
    else SlotIds(elems[..|elems| - 1]) + match elems[|elems| - 1]
                                         case V(_) => []
                                         case A(id) => [id]
                                         case T(id) => [id]
  }

  /** Every reference a node holds to another. */
  function Kids(n: Node): seq<nat> {
    if n.Tab? then n.arrs + n.tabs else SlotIds(n.elems)
  }

  function Bag(n: Node): multiset<nat> { multiset(Kids(n)) }

  function Bags(s: Heap): seq<multiset<nat>> { seq(|s|, i requires 0 <= i < |s| => Bag(s[i])) }

  function Sum(bags: seq<multiset<nat>>): multiset<nat> {
    if bags == [] then multiset{} else Sum(bags[..|bags| - 1]) + bags[|bags| - 1]
  }

  /** How often a node is referred to, over all nodes. */
  function RefCount(s: Heap, id: nat): nat { Sum(Bags(s))[id] }

  function ValKeys(t: Node): seq<Str>
    requires t.Tab?
  {
    seq(|t.kvals|, i requires 0 <= i < |t.kvals| => t.kvals[i].key)
  }

  function IdKeys(s: Heap, ids: seq<nat>): seq<Str> {
    seq(|ids|, i requires 0 <= i < |ids| => KeyAt(s, ids[i]))
  }

  ghost predicate NoDup(xs: seq<Str>) { forall a, b | 0 <= a < b < |xs| :: xs[a] != xs[b] }

  ghost predicate Apart(xs: seq<Str>, ys: seq<Str>) {
    forall a, b | 0 <= a < |xs| && 0 <= b < |ys| :: xs[a] != ys[b]
  }

  /** The keys of a table are pairwise distinct, across key-values, arrays and tables. */
  ghost predicate DistinctKeys(s: Heap, t: Node)
    requires t.Tab?
  {
    && NoDup(ValKeys(t)) && NoDup(IdKeys(s, t.arrs)) && NoDup(IdKeys(s, t.tabs))
    && Apart(ValKeys(t), IdKeys(s, t.arrs))
    && Apart(ValKeys(t), IdKeys(s, t.tabs))
    && Apart(IdKeys(s, t.arrs), IdKeys(s, t.tabs))
  }

  /** The slot is in the arm of the union its array's kind names. */
  ghost predicate SlotOk(s: Heap, i: nat, kind: ElemKind, slot: Slot) {
    match slot
    case V(_) => kind == Values
    case A(id) => kind == Arrays && i < id < |s| && s[id].Arr?
    case T(id) => kind == Tables && i < id < |s| && s[id].Tab?
  }

  ghost predicate NodeOk(s: Heap, i: nat, n: Node) {
    match n
    case Tab(_, _, _, arrs, tabs) =>
      && (forall a | 0 <= a < |arrs| :: i < arrs[a] < |s| && s[arrs[a]].Arr? && s[arrs[a]].key.Some?)
      && (forall a | 0 <= a < |tabs| :: i < tabs[a] < |s| && s[tabs[a]].Tab? && s[tabs[a]].key.Some?)
      && DistinctKeys(s, n)
    case Arr(_, kind, _, elems) =>
      && (kind == NoKind <==> elems == [])
      && (forall a | 0 <= a < |elems| :: SlotOk(s, i, kind, elems[a]))
  }

  /** Every node is in order, with references to later nodes of the right sort only. */
  ghost predicate Shape(s: Heap) {
    |s| > 0 && s[ROOT].Tab? && forall i | 0 <= i < |s| :: NodeOk(s, i, s[i])
  }

  /** Every node but the root is referred to exactly once: nothing is shared, nothing is lost. */
  ghost predicate Tree(s: Heap) {
    forall id: nat {:trigger RefCount(s, id)} :: RefCount(s, id) == if 1 <= id < |s| then 1 else 0
  }

  /** What every reachable parser state keeps. */
  ghost predicate Inv(s: Heap) { Shape(s) && Tree(s) }

  // ---- Growth ----

  /** A node may gain entries at the end of its lists, lose `implicit`, and fix its kind and type once. */
  ghost predicate NodeGrows(n: Node, m: Node) {
    && n.key == m.key
    && match n
       case Tab(_, implicit, kvals, arrs, tabs) =>
         m.Tab? && (m.implicit ==> implicit) && kvals <= m.kvals && arrs <= m.arrs && tabs <= m.tabs
       case Arr(_, kind, typ, elems) =>
         m.Arr? && (kind != NoKind ==> m.kind == kind) && (elems != [] ==> m.typ == typ) && elems <= m.elems
  }

  ghost predicate Grows(s: Heap, s': Heap) {
    |s| <= |s'| && forall i | 0 <= i < |s| :: NodeGrows(s[i], s'[i])
  }

  lemma GrowsTrans(a: Heap, b: Heap, c: Heap)
    requires Grows(a, b) && Grows(b, c)
    ensures Grows(a, c)
  {
    forall i | 0 <= i < |a| ensures NodeGrows(a[i], c[i]) {
      assert NodeGrows(a[i], b[i]) && NodeGrows(b[i], c[i]);
    }
  }

  // ---- The primitives of the builder ----

  /** `create_keyval_in_table` and the store of its value, once the key is known to be new. */
  function AddVal(s: Heap, i: nat, key: Str, val: Str): Heap
    requires i < |s| && s[i].Tab?
  {
    s[i := s[i].(kvals := s[i].kvals + [KeyVal(key, val)])]
  }

  /** A new table at the end of a table's list of tables. */
  function AddTab(s: Heap, i: nat, key: Str, implicit: bool): Heap
    requires i < |s| && s[i].Tab?
  {
    s[i := s[i].(tabs := s[i].tabs + [|s|])] + [NewTab(Some(key), implicit)]
  }

  /** A new array at the end of a table's list of arrays. */
  function AddArr(s: Heap, i: nat, key: Str): Heap
    requires i < |s| && s[i].Tab?
  {
    s[i := s[i].(arrs := s[i].arrs + [|s|])] + [NewArr(Some(key))]
  }

  function Promote(s: Heap, i: nat): Heap
    requires i < |s| && s[i].Tab?
  {
    s[i := s[i].(implicit := false)]
  }

  function PushVal(s: Heap, a: nat, text: Str, typ: ValType): Heap
    requires a < |s| && s[a].Arr?
  {
    s[a := s[a].(kind := Values, elems := s[a].elems + [V(text)], typ := if s[a].elems == [] then typ else s[a].typ)]
  }

  function PushArr(s: Heap, a: nat): Heap
    requires a < |s| && s[a].Arr?
  {
    s[a := s[a].(kind := Arrays, elems := s[a].elems + [A(|s|)])] + [NewArr(None)]
  }

  function PushTab(s: Heap, a: nat, key: Option<Str>): Heap
    requires a < |s| && s[a].Arr?
  {
    s[a := s[a].(kind := Tables, elems := s[a].elems + [T(|s|)])] + [NewTab(key, false)]
  }

  // ---- What every primitive keeps ----

  lemma {:induction false} SumUpdate(bags: seq<multiset<nat>>, i: nat, b: multiset<nat>)
    requires i < |bags|
    ensures Sum(bags[i := b]) + bags[i] == Sum(bags) + b
  {
    var last := |bags| - 1;
    if i < last {
      assert bags[i := b][..last] == bags[..last][i := b];
      SumUpdate(bags[..last], i, b);
      var rest := Sum(bags[..last][i := b]);
      assert Sum(bags[i := b]) == rest + bags[last];
      assert rest + bags[last] + bags[i] == (rest + bags[i]) + bags[last];
    } else {
      assert bags[i := b][..last] == bags[..last];
    }
  }

  lemma SumAppend(bags: seq<multiset<nat>>, b: multiset<nat>)
    ensures Sum(bags + [b]) == Sum(bags) + b
  {
    assert (bags + [b])[..|bags|] == bags;
  }

  lemma RefsKept(s: Heap, i: nat, n: Node, id: nat)
    requires i < |s| && Bag(n) == Bag(s[i])
    ensures RefCount(s[i := n], id) == RefCount(s, id)
  {
    assert Bags(s[i := n]) == Bags(s);
  }

  /** Changing a node but not its references. */
  lemma TreeUpdate(s: Heap, i: nat, n: Node)
    requires Tree(s) && i < |s| && Bag(n) == Bag(s[i])
    ensures Tree(s[i := n])
  {
    var s' := s[i := n];
    forall id: nat ensures RefCount(s', id) == if 1 <= id < |s'| then 1 else 0 {
      RefsKept(s, i, n, id);
    }
  }

  lemma RefsLinked(s: Heap, i: nat, n: Node, m: Node, added: multiset<nat>, id: nat)
    requires i < |s| && Bag(n) == Bag(s[i]) + added && Bag(m) == multiset{}
    ensures RefCount(s[i := n] + [m], id) == RefCount(s, id) + added[id]
  {
    BagsLink(s, i, n, m);
    SumLink(Bags(s), i, Bag(n), added, id);
  }

  /** Changing a node to refer to one more, the new one. */
  lemma TreeLink(s: Heap, i: nat, n: Node, m: Node, added: multiset<nat>)
    requires Tree(s) && i < |s| && Bag(n) == Bag(s[i]) + added
    requires added == multiset([|s|]) && Bag(m) == multiset{}
    ensures Tree(s[i := n] + [m])
  {
    forall id: nat ensures RefCount(s[i := n] + [m], id) == RefCount(s, id) + if id == |s| then 1 else 0 {
      RefsLinked(s, i, n, m, added, id);
    }
    TreeOneMore(s, s[i := n] + [m]);
  }

  lemma TreeOneMore(s: Heap, s': Heap)
    requires Tree(s) && |s'| == |s| + 1 && |s| > 0
    requires forall id: nat {:trigger RefCount(s', id)} ::
               RefCount(s', id) == RefCount(s, id) + if id == |s| then 1 else 0
    ensures Tree(s')
  {
  }

  lemma BagsLink(s: Heap, i: nat, n: Node, m: Node)
    requires i < |s|
    ensures Bags(s[i := n] + [m]) == Bags(s)[i := Bag(n)] + [Bag(m)]
  {
  }

  lemma SumLink(bags: seq<multiset<nat>>, i: nat, b: multiset<nat>, added: multiset<nat>, id: nat)
    requires i < |bags| && b == bags[i] + added
    ensures Sum(bags[i := b] + [multiset{}])[id] == Sum(bags)[id] + added[id]
  {
    SumAppend(bags[i := b], multiset{});
    SumUpdate(bags, i, b);
    assert (Sum(bags[i := b]) + bags[i])[id] == (Sum(bags) + b)[id];
  }

  /** Nodes keep their sort and their key. */
  ghost predicate Keeps(s: Heap, s': Heap) {
    |s| <= |s'| && forall j | 0 <= j < |s| :: s'[j].key == s[j].key && (s'[j].Tab? <==> s[j].Tab?)
  }

  /** Keys stay what they were. */
  lemma KeysKept(s: Heap, s': Heap, ids: seq<nat>)
    requires Keeps(s, s') && forall a | 0 <= a < |ids| :: ids[a] < |s|
    ensures IdKeys(s', ids) == IdKeys(s, ids)
  {
  }

  lemma NodeOkKept(s: Heap, s': Heap, i: nat, n: Node)
    requires Keeps(s, s') && NodeOk(s, i, n)
    ensures NodeOk(s', i, n)
  {
    if n.Arr? {
      forall a | 0 <= a < |n.elems| ensures SlotOk(s', i, n.kind, n.elems[a]) {
        assert SlotOk(s, i, n.kind, n.elems[a]);
      }
    } else {
      KeysKept(s, s', n.arrs);
      KeysKept(s, s', n.tabs);
    }
  }

  /** Changing node `i` to `n`, which is in order, and adding nodes that are. */
  lemma ShapeStep(s: Heap, i: nat, s': Heap)
    requires Shape(s) && i < |s| && Keeps(s, s')
    requires forall j | 0 <= j < |s| && j != i :: s'[j] == s[j]
    requires NodeOk(s', i, s'[i])
    requires forall j | |s| <= j < |s'| :: NodeOk(s', j, s'[j])
    ensures Shape(s')
  {
    forall j | 0 <= j < |s'| ensures NodeOk(s', j, s'[j]) {
      if j < |s| && j != i {
        NodeOkKept(s, s', j, s[j]);
      }
    }
  }

  lemma GrowsStep(s: Heap, i: nat, s': Heap)
    requires i < |s| <= |s'| && NodeGrows(s[i], s'[i])
    requires forall j | 0 <= j < |s| && j != i :: s'[j] == s[j]
    ensures Grows(s, s')
  {
    forall j | 0 <= j < |s| ensures NodeGrows(s[j], s'[j]) {
    }
  }

  /** Where `check_key` finds nothing, no entry has the key. */
  lemma AbsentKey(s: Heap, t: Node, key: Str)
    requires t.Tab? && CheckKey(s, t, key).Absent?
    ensures Apart(ValKeys(t), [key]) && Apart(IdKeys(s, t.arrs), [key]) && Apart(IdKeys(s, t.tabs), [key])
  {
  }

  /** One more key, which was nowhere before. */
  lemma OneMore(xs: seq<Str>, ys: seq<Str>, zs: seq<Str>, key: Str)
    requires NoDup(xs) && Apart(xs, [key]) && Apart(ys, [key]) && Apart(zs, [key])
    ensures NoDup(xs + [key])
    ensures Apart(xs, ys) ==> Apart(xs + [key], ys)
    ensures Apart(ys, xs) ==> Apart(ys, xs + [key])
    ensures Apart(xs, zs) ==> Apart(xs + [key], zs)
    ensures Apart(zs, xs) ==> Apart(zs, xs + [key])
  {
    assert [key][0] == key;
    assert forall a | 0 <= a < |xs| :: xs[a] != key;
    assert forall a | 0 <= a < |ys| :: ys[a] != key;
    assert forall a | 0 <= a < |zs| :: zs[a] != key;
  }

  lemma AddValInv(s: Heap, i: nat, key: Str, val: Str)
    requires Inv(s) && i < |s| && s[i].Tab? && CheckKey(s, s[i], key).Absent?
    ensures Inv(AddVal(s, i, key, val)) && Grows(s, AddVal(s, i, key, val))
  {
    var s' := AddVal(s, i, key, val);
    assert NodeOk(s, i, s[i]);
    AbsentKey(s, s[i], key);
    OneMore(ValKeys(s[i]), IdKeys(s, s[i].arrs), IdKeys(s, s[i].tabs), key);
    assert ValKeys(s'[i]) == ValKeys(s[i]) + [key];
    assert NodeOk(s, i, s'[i]);
    NodeOkKept(s, s', i, s'[i]);
    ShapeStep(s, i, s');
    GrowsStep(s, i, s');
    TreeUpdate(s, i, s'[i]);
  }

  lemma LinkedArrKeys(s: Heap, i: nat, key: Str)
    requires i < |s| && s[i].Tab? && NodeOk(s, i, s[i]) && CheckKey(s, s[i], key).Absent? && Keeps(s, AddArr(s, i, key))
    ensures DistinctKeys(AddArr(s, i, key), AddArr(s, i, key)[i])
  {
    var t, s' := s[i], AddArr(s, i, key);
    AbsentKey(s, t, key);
    KeysKept(s, s', t.arrs);
    KeysKept(s, s', t.tabs);
    OneMore(IdKeys(s, t.arrs), ValKeys(t), IdKeys(s, t.tabs), key);
    assert ValKeys(s'[i]) == ValKeys(t) && IdKeys(s', t.arrs + [|s|]) == IdKeys(s, t.arrs) + [key];
  }

  lemma LinkedArrOk(s: Heap, i: nat, key: Str)
    requires Shape(s) && i < |s| && s[i].Tab? && CheckKey(s, s[i], key).Absent?
    ensures NodeOk(AddArr(s, i, key), i, AddArr(s, i, key)[i])
  {
    assert NodeOk(s, i, s[i]);
    LinkedArrKeys(s, i, key);
  }

  lemma LinkedTabKeys(s: Heap, i: nat, key: Str, implicit: bool)
    requires i < |s| && s[i].Tab? && NodeOk(s, i, s[i]) && CheckKey(s, s[i], key).Absent?
    requires Keeps(s, AddTab(s, i, key, implicit))
    ensures DistinctKeys(AddTab(s, i, key, implicit), AddTab(s, i, key, implicit)[i])
  {
    var t, s' := s[i], AddTab(s, i, key, implicit);
    AbsentKey(s, t, key);
    KeysKept(s, s', t.arrs);
    KeysKept(s, s', t.tabs);
    OneMore(IdKeys(s, t.tabs), ValKeys(t), IdKeys(s, t.arrs), key);
    assert ValKeys(s'[i]) == ValKeys(t) && IdKeys(s', t.tabs + [|s|]) == IdKeys(s, t.tabs) + [key];
  }

  lemma LinkedTabOk(s: Heap, i: nat, key: Str, implicit: bool)
    requires Shape(s) && i < |s| && s[i].Tab? && CheckKey(s, s[i], key).Absent?
    ensures NodeOk(AddTab(s, i, key, implicit), i, AddTab(s, i, key, implicit)[i])
  {
    assert NodeOk(s, i, s[i]);
    LinkedTabKeys(s, i, key, implicit);
  }

  lemma AddTabInv(s: Heap, i: nat, key: Str, implicit: bool)
    requires Inv(s) && i < |s| && s[i].Tab? && CheckKey(s, s[i], key).Absent?
    ensures Inv(AddTab(s, i, key, implicit)) && Grows(s, AddTab(s, i, key, implicit))
  {
    var s' := AddTab(s, i, key, implicit);
    LinkedTabOk(s, i, key, implicit);
    NewOk(s', |s|, s'[|s|]);
    ShapeStep(s, i, s');
    GrowsStep(s, i, s');
    AddTabTree(s, i, key, implicit);
  }

  lemma AddTabTree(s: Heap, i: nat, key: Str, implicit: bool)
    requires Tree(s) && i < |s| && s[i].Tab?
    ensures Tree(AddTab(s, i, key, implicit))
  {
    var s' := AddTab(s, i, key, implicit);
    assert Kids(s'[i]) == Kids(s[i]) + [|s|];
    TreeLink(s, i, s'[i], s'[|s|], multiset([|s|]));
  }

  lemma AddArrInv(s: Heap, i: nat, key: Str)
    requires Inv(s) && i < |s| && s[i].Tab? && CheckKey(s, s[i], key).Absent?
    ensures Inv(AddArr(s, i, key)) && Grows(s, AddArr(s, i, key))
  {
    var s' := AddArr(s, i, key);
    LinkedArrOk(s, i, key);
    NewOk(s', |s|, s'[|s|]);
    ShapeStep(s, i, s');
    GrowsStep(s, i, s');
    AddArrTree(s, i, key);
  }

  lemma AddArrTree(s: Heap, i: nat, key: Str)
    requires Tree(s) && i < |s| && s[i].Tab?
    ensures Tree(AddArr(s, i, key))
  {
    var s' := AddArr(s, i, key);
    assert Kids(s'[i]) == s[i].arrs + [|s|] + s[i].tabs;
    TreeLink(s, i, s'[i], s'[|s|], multiset([|s|]));
  }

  lemma NewOk(s: Heap, i: nat, n: Node)
    requires n == NewArr(n.key) || n == NewTab(n.key, true) || n == NewTab(n.key, false)
    ensures NodeOk(s, i, n)
  {
  }

  lemma PromoteInv(s: Heap, i: nat)
    requires Inv(s) && i < |s| && s[i].Tab?
    ensures Inv(Promote(s, i)) && Grows(s, Promote(s, i))
  {
    var s' := Promote(s, i);
    assert NodeOk(s, i, s[i]);
    NodeOkKept(s, s', i, s'[i]);
    ShapeStep(s, i, s');
    GrowsStep(s, i, s');
    TreeUpdate(s, i, s'[i]);
  }

  /** Appending a slot of the array's kind, or of any kind to an empty array. */
  lemma PushOk(s: Heap, s': Heap, a: nat, n: Node, slot: Slot)
    requires Shape(s) && a < |s| && s[a].Arr? && Keeps(s, s') && n.Arr?
    requires s[a].kind == NoKind || s[a].kind == n.kind
    requires n.elems == s[a].elems + [slot] && SlotOk(s', a, n.kind, slot)
    ensures NodeOk(s', a, n)
    ensures SlotIds(n.elems) == SlotIds(s[a].elems) + match slot case V(_) => [] case A(id) => [id] case T(id) => [id]
  {
    assert NodeOk(s, a, s[a]);
    NodeOkKept(s, s', a, s[a]);
    forall b | 0 <= b < |n.elems| ensures SlotOk(s', a, n.kind, n.elems[b]) {
      if b < |s[a].elems| { assert SlotOk(s', a, s[a].kind, s[a].elems[b]); }
    }
    assert n.elems[..|s[a].elems|] == s[a].elems;
  }

  lemma PushValInv(s: Heap, a: nat, text: Str, typ: ValType)
    requires Inv(s) && a < |s| && s[a].Arr? && (s[a].kind == NoKind || s[a].kind == Values)
    ensures Inv(PushVal(s, a, text, typ)) && Grows(s, PushVal(s, a, text, typ))
  {
    var s' := PushVal(s, a, text, typ);
    PushOk(s, s', a, s'[a], V(text));
    ShapeStep(s, a, s');
    GrowsStep(s, a, s');
    TreeUpdate(s, a, s'[a]);
  }

  lemma PushArrInv(s: Heap, a: nat)
    requires Inv(s) && a < |s| && s[a].Arr? && (s[a].kind == NoKind || s[a].kind == Arrays)
    ensures Inv(PushArr(s, a)) && Grows(s, PushArr(s, a))
  {
    var s' := PushArr(s, a);
    PushOk(s, s', a, s'[a], A(|s|));
    ShapeStep(s, a, s');
    GrowsStep(s, a, s');
    TreeLink(s, a, s'[a], s'[|s|], multiset([|s|]));
  }

  lemma PushTabInv(s: Heap, a: nat, key: Option<Str>)
    requires Inv(s) && a < |s| && s[a].Arr? && (s[a].kind == NoKind || s[a].kind == Tables)
    ensures Inv(PushTab(s, a, key)) && Grows(s, PushTab(s, a, key))
  {
    var s' := PushTab(s, a, key);
    PushOk(s, s', a, s'[a], T(|s|));
    ShapeStep(s, a, s');
    GrowsStep(s, a, s');
    TreeLink(s, a, s'[a], s'[|s|], multiset([|s|]));
  }

  lemma EmptyInv()
    ensures Inv(EMPTY)
  {
    assert Bags(EMPTY) == [multiset{}];
    assert Sum([multiset{}]) == Sum([]) + multiset{};
    forall id: nat ensures RefCount(EMPTY, id) == 0 {
    }
  }

  // ---- Keys, as callers enumerate them ----

  function EntryCount(t: Node): nat
    requires t.Tab?
  {
    |t.kvals| + |t.arrs| + |t.tabs|
  }

  /** `toml_key_in`: the key of entry `k`, key-values first, then arrays, then tables. */
  function KeyIn(s: Heap, t: Node, k: nat): Option<Str>
    requires t.Tab?
  {
    if k < |t.kvals| then Some(t.kvals[k].key)
    else if k - |t.kvals| < |t.arrs| then Some(KeyAt(s, t.arrs[k - |t.kvals|]))
    else if k - |t.kvals| - |t.arrs| < |t.tabs| then Some(KeyAt(s, t.tabs[k - |t.kvals| - |t.arrs|]))
    else None
  }

  /** Enumerating a table yields each key once, and a key is enumerated exactly when it can be looked up. */
  lemma KeysEnumerateOnce(s: Heap, i: nat, j: nat, k: nat, key: Str)
    requires Inv(s) && i < |s| && s[i].Tab?
    ensures j < k < EntryCount(s[i]) ==> KeyIn(s, s[i], j) != KeyIn(s, s[i], k)
    ensures KeyIn(s, s[i], k).Some? <==> k < EntryCount(s[i])
    ensures !CheckKey(s, s[i], key).Absent? <==> exists e: nat :: KeyIn(s, s[i], e) == Some(key)
  {
    var t := s[i];
    assert NodeOk(s, i, t);
    KeyInParts(s, t, j);
    KeyInParts(s, t, k);
    FoundIsEnumerated(s, t, key);
  }

  lemma KeyInParts(s: Heap, t: Node, k: nat)
    requires t.Tab?
    ensures var all := ValKeys(t) + IdKeys(s, t.arrs) + IdKeys(s, t.tabs);
            |all| == EntryCount(t) && KeyIn(s, t, k) == if k < |all| then Some(all[k]) else None
  {
  }

  lemma FoundIsEnumerated(s: Heap, t: Node, key: Str)
    requires t.Tab?
    ensures !CheckKey(s, t, key).Absent? <==> exists e: nat :: KeyIn(s, t, e) == Some(key)
  {
    match CheckKey(s, t, key) {
      case Absent =>
      case FoundVal(v) =>
        assert KeyIn(s, t, v) == Some(key);
      case FoundArr(id) =>
        var a :| 0 <= a < |t.arrs| && t.arrs[a] == id;
        assert KeyIn(s, t, |t.kvals| + a) == Some(key);
      case FoundTab(id) =>
        var a :| 0 <= a < |t.tabs| && t.tabs[a] == id;
        assert KeyIn(s, t, |t.kvals| + |t.arrs| + a) == Some(key);
    }
  }
}
