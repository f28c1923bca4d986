/** A document seen from outside: what stands at each path from its root. */
module Paths {
  import opened Bytes
  import opened Store
  import opened Ownership
  import opened Grammar
  import opened Faithful

  /** From a table by a key, from an array by an index. */
  datatype Step = Named(key: Str) | Nth(i: nat)

  type Way = seq<Step>

  /** Where a step leads: to the text of a value, or to another node. */
  datatype Spot = Leaf(text: Str) | Inner(id: nat)

  function Child(s: Heap, id: nat, t: Step): Option<Spot>
    requires id < |s|
  {
    match s[id]
    case Tab(_, _, kvals, _, _) =>
      if t.Nth? then None
      else (match CheckKey(s, s[id], t.key)
            case Absent => None
            case FoundVal(i) => Some(Leaf(kvals[i].val))
            case FoundArr(x) => Some(Inner(x))
            case FoundTab(x) => Some(Inner(x)))
    case Arr(_, _, _, elems) =>
      if t.Named? || t.i >= |elems| then None
      else match elems[t.i]
        case V(text) => Some(Leaf(text))
        case A(x) => Some(Inner(x))
        case T(x) => Some(Inner(x))
  }

  function Follow(s: Heap, id: nat, p: Way): (r: Option<Spot>)
    requires id < |s|
    ensures r.Some? && r.value.Inner? ==> r.value.id < |s|
    decreases |p|
  {
    if p == [] then Some(Inner(id))
    else match Child(s, id, p[0])
      case None => None
      case Some(Leaf(text)) => if |p| == 1 then Some(Leaf(text)) else None
      case Some(Inner(x)) => if x < |s| then Follow(s, x, p[1..]) else None
  }

  lemma {:induction false} FollowConcat(s: Heap, id: nat, p: Way, q: Way)
    requires id < |s|
    ensures Follow(s, id, p + q) == match Follow(s, id, p)
                                    case None => None
                                    case Some(Leaf(text)) => if q == [] then Some(Leaf(text)) else None
                                    case Some(Inner(x)) => Follow(s, x, q)
    decreases |p|
  {
    if p == [] {
      assert p + q == q;
    } else {
      assert (p + q)[1..] == p[1..] + q;
      match Child(s, id, p[0])
      case Some(Inner(x)) => if x < |s| { FollowConcat(s, x, p[1..], q); }
      case _ =>
    }
  }

  /** A document is a tree seen this way, too. */
  lemma ChildOwned(s: Heap, id: nat, t: Step, x: nat)
    requires Inv(s) && id < |s| && Child(s, id, t) == Some(Inner(x))
    ensures Owns(s, id, x) && id < x < |s|
  {
    assert NodeOk(s, id, s[id]);
    if s[id].Arr? {
      assert SlotOk(s, id, s[id].kind, s[id].elems[t.i]);
      SlotCounted(s[id].elems, t.i, x);
    }
  }

  lemma {:induction false} SlotCounted(elems: seq<Slot>, j: nat, x: nat)
    requires j < |elems| && !elems[j].V? && elems[j].id == x
    ensures x in SlotIds(elems)
  {
    if j < |elems| - 1 {
      SlotCounted(elems[..|elems| - 1], j, x);
    }
  }

  lemma {:induction false} SlotCountedTwice(elems: seq<Slot>, j: nat, k: nat, x: nat)
    requires j < k < |elems| && !elems[j].V? && elems[j].id == x && !elems[k].V? && elems[k].id == x
    ensures multiset(SlotIds(elems))[x] >= 2
  {
    var init := elems[..|elems| - 1];
    if k < |elems| - 1 {
      SlotCountedTwice(init, j, k, x);
    } else {
      SlotCounted(init, j, x);
      assert SlotIds(elems) == SlotIds(init) + [x];
    }
  }

  lemma ChildOnce(s: Heap, id: nat, t: Step, u: Step, x: nat)
    requires Inv(s) && id < |s| && Child(s, id, t) == Some(Inner(x)) && Child(s, id, u) == Some(Inner(x))
    ensures t == u
  {
    assert NodeOk(s, id, s[id]);
    if s[id].Arr? {
      ChildOwned(s, id, t, x);
      OneOwner(s, id, id, x);
      if t.i < u.i { SlotCountedTwice(s[id].elems, t.i, u.i, x); }
      if u.i < t.i { SlotCountedTwice(s[id].elems, u.i, t.i, x); }
    }
  }

  /** The node before the last step. */
  lemma LastStep(s: Heap, p: Way, r: Spot) returns (o: nat)
    requires |s| > 0 && p != [] && Follow(s, ROOT, p) == Some(r)
    ensures o < |s| && Follow(s, ROOT, p[..|p| - 1]) == Some(Inner(o)) && Child(s, o, p[|p| - 1]) == Some(r)
  {
    var init, last := p[..|p| - 1], p[|p| - 1];
    assert p == init + [last];
    FollowConcat(s, ROOT, init, [last]);
    o := Follow(s, ROOT, init).value.id;
    assert Follow(s, o, [last]) == Some(r);
  }

  lemma NotToRoot(s: Heap, p: Way, x: nat)
    requires Inv(s) && p != [] && Follow(s, ROOT, p) == Some(Inner(x))
    ensures x != ROOT
  {
    var o := LastStep(s, p, Inner(x));
    ChildOwned(s, o, p[|p| - 1], x);
  }

  /** Two paths to a node end with the same step from the same node. */
  lemma SameLast(s: Heap, p: Way, q: Way, x: nat) returns (o: nat)
    requires Inv(s) && p != [] && Follow(s, ROOT, p) == Some(Inner(x))
    requires q != [] && Follow(s, ROOT, q) == Some(Inner(x))
    ensures Follow(s, ROOT, p[..|p| - 1]) == Follow(s, ROOT, q[..|q| - 1]) == Some(Inner(o))
    ensures p[|p| - 1] == q[|q| - 1]
  {
    o := LastStep(s, p, Inner(x));
    var o' := LastStep(s, q, Inner(x));
    ChildOwned(s, o, p[|p| - 1], x);
    ChildOwned(s, o', q[|q| - 1], x);
    OneOwner(s, o, o', x);
    ChildOnce(s, o, p[|p| - 1], q[|q| - 1], x);
  }

  /** One path leads to a node. */
  lemma {:induction false} OneWay(s: Heap, p: Way, q: Way, x: nat)
    requires Inv(s) && Follow(s, ROOT, p) == Some(Inner(x)) && Follow(s, ROOT, q) == Some(Inner(x))
    ensures p == q
    decreases |p|
  {
    if p != [] { NotToRoot(s, p, x); }
    if q != [] { NotToRoot(s, q, x); }
    if p != [] && q != [] {
      var o := SameLast(s, p, q, x);
      OneWay(s, p[..|p| - 1], q[..|q| - 1], o);
      SameWay(p, q);
    }
  }

  /** The path to a node is the only one that leads to it. */
  lemma ThatWay(s: Heap, c: Way, i: nat, p: Way)
    requires Inv(s) && Follow(s, ROOT, c) == Some(Inner(i))
    ensures Follow(s, ROOT, p) == Some(Inner(i)) <==> p == c
  {
    if Follow(s, ROOT, p) == Some(Inner(i)) { OneWay(s, p, c, i); }
  }

  lemma SameWay(p: Way, q: Way)
    requires p != [] && q != [] && p[..|p| - 1] == q[..|q| - 1] && p[|p| - 1] == q[|q| - 1]
    ensures p == q
  {
    assert p == p[..|p| - 1] + [p[|p| - 1]] && q == q[..|q| - 1] + [q[|q| - 1]];
  }

  // ---- One more entry ----

  /** Node `i` has gained one entry, by step `t`, and every node has kept the others; a new node has none. */
  ghost predicate Gains(s: Heap, s': Heap, i: nat, t: Step, spot: Spot) {
    && i < |s| <= |s'| && Child(s, i, t) == None && Child(s', i, t) == Some(spot)
    && (forall x: nat, u | x < |s| && !(x == i && u == t) :: Child(s', x, u) == Child(s, x, u))
    && (spot.Inner? ==> spot.id == |s| < |s'| && forall u :: Child(s', |s|, u) == None)
  }

  /** The path leads to node `i` and from there on by `t`. */
  predicate Ends(s: Heap, id: nat, p: Way, i: nat, t: Step)
    requires id < |s|
  {
    p != [] && p[|p| - 1] == t && Follow(s, id, p[..|p| - 1]) == Some(Inner(i))
  }

  lemma EndsOn(s: Heap, id: nat, p: Way, i: nat, t: Step)
    requires id < |s| && p != []
    ensures |p| == 1 ==> (Ends(s, id, p, i, t) <==> id == i && p[0] == t)
    ensures |p| > 1 ==> (Ends(s, id, p, i, t) <==>
              match Child(s, id, p[0])
              case Some(Inner(x)) => x < |s| && Ends(s, x, p[1..], i, t)
              case _ => false)
  {
    var init := p[..|p| - 1];
    if |p| == 1 {
      assert init == [];
    } else {
      assert init[0] == p[0] && init[1..] == p[1..][..|p| - 2];
    }
  }

  /** Then one more path leads somewhere. */
  lemma {:induction false} FollowGains(s: Heap, s': Heap, i: nat, t: Step, spot: Spot, id: nat, p: Way)
    requires Inv(s) && Gains(s, s', i, t, spot) && id < |s|
    ensures Follow(s', id, p) == if Follow(s, id, p).Some? then Follow(s, id, p)
                                 else if Ends(s, id, p, i, t) then Some(spot) else None
    decreases |p|
  {
    if p != [] {
      EndsOn(s, id, p, i, t);
      if id == i && p[0] == t {
        NewSpot(s', spot, p);
      } else {
        match Child(s, id, p[0])
        case Some(Inner(x)) =>
          ChildOwned(s, id, p[0], x);
          FollowGains(s, s', i, t, spot, x, p[1..]);
        case _ =>
      }
    }
  }

  lemma NewSpot(s': Heap, spot: Spot, p: Way)
    requires p != [] && spot.Inner? ==> spot.id < |s'| && forall u :: Child(s', spot.id, u) == None
    ensures |p| > 1 && spot.Inner? ==> Follow(s', spot.id, p[1..]) == None
  {
  }

  // ---- Documents as maps ----

  /** What a path leads to: the text of a value, a table, or an array with its number of elements. */
  datatype Cell = Value(text: Str) | TableAt(implicit: bool) | ArrayAt(kind: ElemKind, typ: ValType, size: nat)

  type Doc = map<Way, Cell>

  function NodeCell(n: Node): Cell {
    match n
    case Tab(_, implicit, _, _, _) => TableAt(implicit)
    case Arr(_, kind, typ, elems) => ArrayAt(kind, typ, |elems|)
  }

  function CellOf(s: Heap, spot: Spot): Cell
    requires spot.Inner? ==> spot.id < |s|
  {
    match spot
    case Leaf(text) => Value(text)
    case Inner(x) => NodeCell(s[x])
  }

  /** The map has every path of the document, with what stands there, and no other. */
  ghost predicate Shows(s: Heap, d: Doc)
    requires |s| > 0
  {
    forall p: Way :: ShowsAt(s, d, p)
  }

  ghost predicate ShowsAt(s: Heap, d: Doc, p: Way)
    requires |s| > 0
  {
    match Follow(s, ROOT, p)
    case None => p !in d
    case Some(spot) => p in d && d[p] == CellOf(s, spot)
  }

  /** Every node is where it was. */
  ghost predicate Stays(s: Heap, s': Heap)
    requires 0 < |s| <= |s'|
  {
    forall p: Way, x: nat :: Follow(s, ROOT, p) == Some(Inner(x)) ==> Follow(s', ROOT, p) == Some(Inner(x))
  }

  lemma StaysTrans(a: Heap, b: Heap, c: Heap)
    requires 0 < |a| <= |b| <= |c| && Stays(a, b) && Stays(b, c)
    ensures Stays(a, c)
  {
  }

  /** The node at path `c` gains an entry: the map gains a path. */
  lemma ShowsGained(s: Heap, s': Heap, i: nat, c: Way, t: Step, spot: Spot, d: Doc)
    requires Inv(s) && Shows(s, d) && Follow(s, ROOT, c) == Some(Inner(i))
    requires Gains(s, s', i, t, spot) && OnlyAt(s, s', i)
    ensures Shows(s', d[c := NodeCell(s'[i])][c + [t] := CellOf(s', spot)]) && Stays(s, s')
    ensures c + [t] !in d && Follow(s', ROOT, c + [t]) == Some(spot)
  {
    var d' := d[c := NodeCell(s'[i])][c + [t] := CellOf(s', spot)];
    forall p: Way
      ensures ShowsAt(s', d', p) && (Follow(s, ROOT, p).Some? ==> Follow(s', ROOT, p) == Follow(s, ROOT, p))
    {
      FollowGains(s, s', i, t, spot, ROOT, p);
      EndsThere(s, i, c, t, p);
      assert ShowsAt(s, d, p);
      ThatWay(s, c, i, p);
      GainedAt(s, s', i, c, t, spot, d, p);
    }
    FollowGains(s, s', i, t, spot, ROOT, c + [t]);
    EndsThere(s, i, c, t, c + [t]);
    assert ShowsAt(s, d, c + [t]);
  }

  lemma GainedAt(s: Heap, s': Heap, i: nat, c: Way, t: Step, spot: Spot, d: Doc, p: Way)
    requires i < |s| <= |s'| && OnlyAt(s, s', i) && ShowsAt(s, d, p) && (spot.Inner? ==> spot.id < |s'|)
    requires Follow(s, ROOT, p) == Some(Inner(i)) <==> p == c
    requires p == c + [t] ==> Follow(s, ROOT, p) == None
    requires Follow(s', ROOT, p) ==
             if Follow(s, ROOT, p).Some? then Follow(s, ROOT, p) else if p == c + [t] then Some(spot) else None
    ensures ShowsAt(s', d[c := NodeCell(s'[i])][c + [t] := CellOf(s', spot)], p)
  {
  }

  lemma EndsThere(s: Heap, i: nat, c: Way, t: Step, p: Way)
    requires Inv(s) && Follow(s, ROOT, c) == Some(Inner(i)) && i < |s| && Child(s, i, t) == None
    ensures Ends(s, ROOT, p, i, t) <==> p == c + [t]
    ensures p == c + [t] ==> Follow(s, ROOT, p) == None
  {
    if Ends(s, ROOT, p, i, t) {
      ThatWay(s, c, i, p[..|p| - 1]);
      assert p == p[..|p| - 1] + [p[|p| - 1]];
    }
    if p == c + [t] {
      assert p[..|p| - 1] == c;
      FollowConcat(s, ROOT, c, [t]);
    }
  }

  /** Nothing but the cell of the node at path `c` changes. */
  lemma ShowsChanged(s: Heap, s': Heap, i: nat, c: Way, d: Doc)
    requires Inv(s) && Shows(s, d) && Follow(s, ROOT, c) == Some(Inner(i)) && |s'| == |s| && OnlyAt(s, s', i)
    requires forall x: nat, u | x < |s| :: Child(s', x, u) == Child(s, x, u)
    ensures Shows(s', d[c := NodeCell(s'[i])]) && Stays(s, s')
  {
    forall p: Way ensures ShowsAt(s', d[c := NodeCell(s'[i])], p) && Follow(s', ROOT, p) == Follow(s, ROOT, p) {
      FollowSame(s, s', ROOT, p);
      assert ShowsAt(s, d, p);
      ThatWay(s, c, i, p);
      ChangedAt(s, s', i, c, d, p);
    }
  }

  lemma ChangedAt(s: Heap, s': Heap, i: nat, c: Way, d: Doc, p: Way)
    requires i < |s| == |s'| && OnlyAt(s, s', i) && ShowsAt(s, d, p) && Follow(s', ROOT, p) == Follow(s, ROOT, p)
    requires Follow(s, ROOT, p) == Some(Inner(i)) <==> p == c
    ensures ShowsAt(s', d[c := NodeCell(s'[i])], p)
  {
  }

  lemma {:induction false} FollowSame(s: Heap, s': Heap, id: nat, p: Way)
    requires |s'| == |s| && id < |s| && forall x: nat, u | x < |s| :: Child(s', x, u) == Child(s, x, u)
    ensures Follow(s', id, p) == Follow(s, id, p)
    decreases |p|
  {
    if p != [] {
      match Child(s, id, p[0])
      case Some(Inner(x)) => if x < |s| { FollowSame(s, s', x, p[1..]); }
      case _ =>
    }
  }

  // ---- The primitives of the builder ----

  /** A node that is as it was has the entries it had, as long as keys stay. */
  lemma ChildSame(s: Heap, s': Heap, x: nat, u: Step)
    requires Inv(s) && x < |s| && KeysStay(s, s') && s'[x] == s[x]
    ensures Child(s', x, u) == Child(s, x, u)
  {
    assert NodeOk(s, x, s[x]);
    if s[x].Tab? && u.Named? {
      FindSame(s, s', s[x].arrs, u.key, 0);
      FindSame(s, s', s[x].tabs, u.key, 0);
    }
  }

  lemma EntryThere(s: Heap, i: nat, key: Str, v: Value, s': Heap, spot: Spot, u: Step)
    requires i < |s| && s[i].Tab? && EntriesIn(s, i) && CheckKey(s, s[i], key).Absent?
    requires i < |s'| && s'[i] == Entered(s, i, key, v)[i] && KeysStay(Entered(s, i, key, v), s')
    requires spot == if v.Scalar? then Leaf(v.text) else Inner(|s|)
    ensures Child(s', i, u) == if u == Named(key) then Some(spot) else Child(s, i, u)
  {
    if u.Named? { EntryFound(s, s', i, key, v, u.key); }
  }

  lemma EntryMade(s: Heap, i: nat, key: Str, v: Value, s': Heap, spot: Spot)
    requires i < |s| && s[i].Tab?
    requires s' == Entered(s, i, key, v) || (v.Inline? && s' == AddTab(s, i, key, true))
    requires spot == if v.Scalar? then Leaf(v.text) else Inner(|s|)
    ensures |s| <= |s'| && OnlyAt(s, s', i) && KeysStay(s, s')
    ensures s'[i] == Entered(s, i, key, v)[i] && KeysStay(Entered(s, i, key, v), s')
    ensures spot.Inner? ==> |s| < |s'| && forall u :: Child(s', |s|, u) == None
  {
  }

  /** An entry that its value is still to be built into. */
  lemma EntryGains(s: Heap, i: nat, key: Str, v: Value, s': Heap, spot: Spot)
    requires Inv(s) && i < |s| && s[i].Tab? && CheckKey(s, s[i], key).Absent?
    requires s' == Entered(s, i, key, v) || (v.Inline? && s' == AddTab(s, i, key, true))
    requires spot == if v.Scalar? then Leaf(v.text) else Inner(|s|)
    ensures Gains(s, s', i, Named(key), spot) && OnlyAt(s, s', i)
  {
    EntryMade(s, i, key, v, s', spot);
    assert NodeOk(s, i, s[i]);
    forall u { EntryThere(s, i, key, v, s', spot, u); }
    forall x: nat, u | x < |s| && x != i ensures Child(s', x, u) == Child(s, x, u) { ChildSame(s, s', x, u); }
  }

  /** One more element of an array. */
  lemma ElementGains(s: Heap, a: nat, slot: Slot, s': Heap, spot: Spot)
    requires Inv(s) && a < |s| && s[a].Arr? && KeysStay(s, s') && OnlyAt(s, s', a)
    requires s'[a].Arr? && s'[a].elems == s[a].elems + [slot]
    requires spot == if slot.V? then Leaf(slot.text) else Inner(slot.id)
    requires spot.Inner? ==> spot.id == |s| < |s'| && forall u :: Child(s', |s|, u) == None
    ensures Gains(s, s', a, Nth(|s[a].elems|), spot)
  {
    forall x: nat, u | x < |s| && !(x == a && u == Nth(|s[a].elems|)) ensures Child(s', x, u) == Child(s, x, u) {
      if x != a { ChildSame(s, s', x, u); }
    }
  }

  lemma ValuePush(s: Heap, a: nat, text: Str, typ: ValType, s': Heap)
    requires a < |s| && s[a].Arr? && s' == PushVal(s, a, text, typ)
    ensures |s'| == |s| && KeysStay(s, s') && OnlyAt(s, s', a) && s'[a].Arr? && s'[a].elems == s[a].elems + [V(text)]
    ensures NodeCell(s'[a]) == ArrayAt(Values, if s[a].elems == [] then typ else s[a].typ, |s[a].elems| + 1)
  {
  }

  lemma ArrayPush(s: Heap, a: nat, s': Heap)
    requires a < |s| && s[a].Arr? && s' == PushArr(s, a)
    ensures KeysStay(s, s') && OnlyAt(s, s', a) && s'[a].Arr? && s'[a].elems == s[a].elems + [A(|s|)]
    ensures |s| < |s'| && (forall u :: Child(s', |s|, u) == None) && NodeCell(s'[|s|]) == ArrayAt(NoKind, Unset, 0)
    ensures NodeCell(s'[a]) == ArrayAt(Arrays, s[a].typ, |s[a].elems| + 1)
  {
  }

  lemma TablePush(s: Heap, a: nat, key: Option<Str>, s': Heap)
    requires a < |s| && s[a].Arr? && s' == PushTab(s, a, key)
    ensures KeysStay(s, s') && OnlyAt(s, s', a) && s'[a].Arr? && s'[a].elems == s[a].elems + [T(|s|)]
    ensures |s| < |s'| && (forall u :: Child(s', |s|, u) == None) && NodeCell(s'[|s|]) == TableAt(false)
    ensures NodeCell(s'[a]) == ArrayAt(Tables, s[a].typ, |s[a].elems| + 1)
  {
  }

  lemma PromoteKeeps(s: Heap, i: nat)
    requires Inv(s) && i < |s| && s[i].Tab?
    ensures forall x: nat, u | x < |s| :: Child(Promote(s, i), x, u) == Child(s, x, u)
  {
    var s' := Promote(s, i);
    assert KeysStay(s, s');
    assert NodeOk(s, i, s[i]);
    forall x: nat, u | x < |s| ensures Child(s', x, u) == Child(s, x, u) {
      if x != i {
        ChildSame(s, s', x, u);
      } else if u.Named? {
        FindSame(s, s', s[i].arrs, u.key, 0);
        FindSame(s, s', s[i].tabs, u.key, 0);
      }
    }
  }
}
