/** Which blocks of heap memory a document owns, and that each is reached from its root. */
module Memory {
  import opened Bytes
  import opened Store
  import opened Ownership
  import opened Blocks

  // ---- Ownership ----

  /** What a node consists of besides its children; `b` names the node by its number. */
  predicate Has(n: Node, b: Block) {
    match b
    case Scratch => false
    case PathKey(_) => false
    case NodeBlk(_) => true
    case KeyBlk(_) => n.key.Some?
    case KvalVec(_) => n.Tab? && n.kvals != []
    case ArrVec(_) => n.Tab? && n.arrs != []
    case TabVec(_) => n.Tab? && n.tabs != []
    case ElemVec(_) => n.Arr? && n.elems != []
    case KvBlk(_, i) => n.Tab? && i < |n.kvals|
    case KvKey(_, i) => n.Tab? && i < |n.kvals|
    case KvVal(_, i) => n.Tab? && i < |n.kvals|
    case ElemStr(_, i) => n.Arr? && i < |n.elems| && n.elems[i].V?
  }

  predicate OfNode(b: Block) { !b.Scratch? && !b.PathKey? }

  /** A block of the document. */
  predicate Owned(s: Heap, b: Block) { OfNode(b) && b.id < |s| && Has(s[b.id], b) }

  /**
    * The live blocks are those of the document, the first `top` keys of `tpath`, and, if so said,
    * one that nobody owns yet.
    */
  ghost predicate Holds(live: set<Block>, s: Heap, top: nat, loose: bool) {
    forall b {:trigger b in live} :: b in live <==> Owned(s, b) || (b.PathKey? && b.top < top) || (b.Scratch? && loose)
  }

  // ---- What building adds ----

  ghost predicate Adds(s: Heap, s': Heap, blocks: set<Block>) {
    forall b {:trigger Owned(s', b)} :: Owned(s', b) <==> Owned(s, b) || b in blocks
  }

  lemma AddValBlocks(s: Heap, i: nat, key: Str, val: Str)
    requires i < |s| && s[i].Tab?
    ensures var n := |s[i].kvals|; Adds(s, AddVal(s, i, key, val), {KvalVec(i), KvBlk(i, n), KvKey(i, n), KvVal(i, n)})
  {
  }

  lemma AddTabBlocks(s: Heap, i: nat, key: Str, implicit: bool)
    requires i < |s| && s[i].Tab?
    ensures Adds(s, AddTab(s, i, key, implicit), {TabVec(i), NodeBlk(|s|), KeyBlk(|s|)})
  {
  }

  lemma AddArrBlocks(s: Heap, i: nat, key: Str)
    requires i < |s| && s[i].Tab?
    ensures Adds(s, AddArr(s, i, key), {ArrVec(i), NodeBlk(|s|), KeyBlk(|s|)})
  {
  }

  lemma PromoteBlocks(s: Heap, i: nat)
    requires i < |s| && s[i].Tab?
    ensures Adds(s, Promote(s, i), {})
  {
  }

  lemma PushValBlocks(s: Heap, a: nat, text: Str, typ: ValType)
    requires a < |s| && s[a].Arr?
    ensures Adds(s, PushVal(s, a, text, typ), {ElemVec(a), ElemStr(a, |s[a].elems|)})
  {
  }

  lemma PushArrBlocks(s: Heap, a: nat)
    requires a < |s| && s[a].Arr?
    ensures Adds(s, PushArr(s, a), {ElemVec(a), NodeBlk(|s|)})
  {
  }

  lemma PushTabBlocks(s: Heap, a: nat, key: Option<Str>)
    requires a < |s| && s[a].Arr?
    ensures Adds(s, PushTab(s, a, key), {ElemVec(a), NodeBlk(|s|)} + if key.Some? then {KeyBlk(|s|)} else {})
  {
  }

  // ---- Reaching blocks from a node ----

  /** A block of node `id` or of one of its descendants. */
  ghost predicate Below(s: Heap, id: nat, b: Block)
    requires Inv(s)
  {
    Owned(s, b) && Above(s, id, b.id)
  }

  /** A block reached by one of these references of node `id`. */
  ghost predicate BelowAny(s: Heap, id: nat, kids: seq<nat>, b: Block)
    requires Inv(s)
  {
    Owned(s, b) && Above(s, id, b.id) && id != b.id && Toward(s, id, b.id) in kids
  }

  /** The blocks owned by the document are the ones reached from its root. */
  lemma OwnedIsReached(s: Heap, b: Block)
    requires Inv(s)
    ensures Owned(s, b) <==> Below(s, ROOT, b)
  {
    if Owned(s, b) {
      RootAbove(s, b.id);
    }
  }

  lemma BelowStep(s: Heap, id: nat, kids: seq<nat>, k: nat, b: Block)
    requires Inv(s) && id < |s| && Owns(s, id, k) && k < |s|
    ensures BelowAny(s, id, kids + [k], b) <==> BelowAny(s, id, kids, b) || Below(s, k, b)
    ensures k !in kids ==> !(BelowAny(s, id, kids, b) && Below(s, k, b))
  {
    if Owned(s, b) {
      AboveIsToward(s, id, k, b.id);
    }
  }

  /** A node's blocks are its own and those reached by its references. */
  lemma BelowSplit(s: Heap, id: nat, b: Block)
    requires Inv(s) && id < |s|
    ensures Below(s, id, b) <==> Owned(s, b) && (b.id == id || BelowAny(s, id, Kids(s[id]), b))
  {
    if Owned(s, b) && Above(s, id, b.id) && id != b.id {
      assert Owns(s, id, Toward(s, id, b.id));
    }
  }

  lemma CountedOnce(kids: seq<nat>, j: nat)
    requires j < |kids| && multiset(kids)[kids[j]] == 1
    ensures kids[j] !in kids[..j]
  {
    var x, rest := kids[j], kids[j..];
    assert kids == kids[..j] + rest;
    assert multiset(kids)[x] == multiset(kids[..j])[x] + multiset(rest)[x];
    assert rest[0] == x;
  }

  /** A node refers to each of its children once. */
  lemma KidsDistinct(s: Heap, id: nat, j: nat)
    requires Inv(s) && id < |s| && j < |Kids(s[id])|
    ensures Kids(s[id])[j] !in Kids(s[id])[..j] && Owns(s, id, Kids(s[id])[j])
  {
    OneOwner(s, id, id, Kids(s[id])[j]);
    CountedOnce(Kids(s[id]), j);
  }
}
