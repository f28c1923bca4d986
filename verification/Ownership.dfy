/** `toml_free`: the order in which `xfree_tab` and `xfree_arr` visit the document. */
module Ownership {
  import opened Store

  /** Nodes refer to later nodes, as `NodeOk` has it. */
  ghost predicate Ordered(s: Heap) {
    forall i, a | 0 <= i < |s| && 0 <= a < |Kids(s[i])| :: i < Kids(s[i])[a] < |s|
  }

  lemma {:induction false} SlotIdsLater(s: Heap, i: nat, kind: ElemKind, elems: seq<Slot>)
    requires forall a | 0 <= a < |elems| :: SlotOk(s, i, kind, elems[a])
    ensures forall a | 0 <= a < |SlotIds(elems)| :: i < SlotIds(elems)[a] < |s|
  {
    if elems != [] {
      var last := |elems| - 1;
      assert SlotOk(s, i, kind, elems[last]);
      forall a | 0 <= a < last ensures SlotOk(s, i, kind, elems[..last][a]) {
        assert SlotOk(s, i, kind, elems[a]);
      }
      SlotIdsLater(s, i, kind, elems[..last]);
    }
  }

  lemma InvOrdered(s: Heap)
    requires Shape(s)
    ensures Ordered(s)
  {
    forall i, a | 0 <= i < |s| && 0 <= a < |Kids(s[i])| ensures i < Kids(s[i])[a] < |s| {
      assert NodeOk(s, i, s[i]);
      if s[i].Arr? {
        SlotIdsLater(s, i, s[i].kind, s[i].elems);
      }
    }
  }

  /** A node is freed after everything it refers to. */
  function FreeOrder(s: Heap, id: nat): seq<nat>
    requires Ordered(s) && id < |s|
    decreases |s| - id, 1, 0
  {
    FreeAll(s, id, Kids(s[id])) + [id]
  }

  function FreeAll(s: Heap, id: nat, kids: seq<nat>): seq<nat>
    requires Ordered(s) && id < |s| && forall a | 0 <= a < |kids| :: id < kids[a] < |s|
    decreases |s| - id, 0, |kids|
  {
    if kids == [] then []
    else FreeAll(s, id, kids[..|kids| - 1]) + FreeOrder(s, kids[|kids| - 1])
  }

  /** A node is in the sequence behind all that it refers to. */
  ghost predicate OwnedFirst(s: Heap, order: seq<nat>) {
    forall j, x | 0 <= j < |order| && order[j] < |s| && x in Kids(s[order[j]]) :: x in order[..j]
  }

  lemma OneAfter(s: Heap, a: seq<nat>, b: seq<nat>)
    requires OwnedFirst(s, a) && OwnedFirst(s, b)
    ensures OwnedFirst(s, a + b)
  {
    var c := a + b;
    forall j, x | 0 <= j < |c| && c[j] < |s| && x in Kids(s[c[j]]) ensures x in c[..j] {
      if j < |a| {
        assert c[..j] == a[..j];
      } else {
        assert c[j] == b[j - |a|] && c[..j] == a + b[..j - |a|];
      }
    }
  }

  lemma {:induction false} AllIn(s: Heap, id: nat, kids: seq<nat>)
    requires Ordered(s) && id < |s| && forall a | 0 <= a < |kids| :: id < kids[a] < |s|
    ensures forall x | x in kids :: x in FreeAll(s, id, kids)
    decreases |kids|
  {
    if kids != [] {
      AllIn(s, id, kids[..|kids| - 1]);
      var k := kids[|kids| - 1];
      assert k in FreeAll(s, k, Kids(s[k])) + [k];
      assert kids == kids[..|kids| - 1] + [k];
    }
  }

  /** A node is freed behind everything it refers to. */
  lemma {:induction false} FreedFirst(s: Heap, id: nat)
    requires Ordered(s) && id < |s|
    ensures OwnedFirst(s, FreeOrder(s, id))
    decreases |s| - id, 1, 0
  {
    var kids := Kids(s[id]);
    var front := FreeAll(s, id, kids);
    AllFirst(s, id, kids);
    AllIn(s, id, kids);
    forall j, x | 0 <= j < |front + [id]| && (front + [id])[j] < |s| && x in Kids(s[(front + [id])[j]])
      ensures x in (front + [id])[..j]
    {
      assert (front + [id])[..j] == front[..j];
    }
  }

  lemma {:induction false} AllFirst(s: Heap, id: nat, kids: seq<nat>)
    requires Ordered(s) && id < |s| && forall a | 0 <= a < |kids| :: id < kids[a] < |s|
    ensures OwnedFirst(s, FreeAll(s, id, kids))
    decreases |s| - id, 0, |kids|
  {
    if kids != [] {
      AllFirst(s, id, kids[..|kids| - 1]);
      FreedFirst(s, kids[|kids| - 1]);
      OneAfter(s, FreeAll(s, id, kids[..|kids| - 1]), FreeOrder(s, kids[|kids| - 1]));
    }
  }

  // ---- Owners ----

  lemma {:induction false} SumHolds(bags: seq<multiset<nat>>, i: nat, x: nat)
    requires i < |bags|
    ensures Sum(bags)[x] >= bags[i][x]
  {
    if i < |bags| - 1 {
      SumHolds(bags[..|bags| - 1], i, x);
    }
  }

  lemma {:induction false} SumHoldsTwo(bags: seq<multiset<nat>>, i: nat, j: nat, x: nat)
    requires i < j < |bags|
    ensures Sum(bags)[x] >= bags[i][x] + bags[j][x]
  {
    if j < |bags| - 1 {
      SumHoldsTwo(bags[..|bags| - 1], i, j, x);
    } else {
      SumHolds(bags[..|bags| - 1], i, x);
    }
  }

  lemma {:induction false} SumFinds(bags: seq<multiset<nat>>, x: nat) returns (i: nat)
    requires x in Sum(bags)
    ensures i < |bags| && x in bags[i]
  {
    if x in bags[|bags| - 1] {
      i := |bags| - 1;
    } else {
      i := SumFinds(bags[..|bags| - 1], x);
    }
  }

  ghost predicate Owns(s: Heap, i: nat, x: nat) { i < |s| && x in Kids(s[i]) }

  /** Every node but the root has exactly one owner, which refers to it exactly once. */
  lemma OneOwner(s: Heap, i: nat, j: nat, x: nat)
    requires Tree(s) && Owns(s, i, x)
    ensures 1 <= x < |s| && multiset(Kids(s[i]))[x] == 1
    ensures Owns(s, j, x) ==> i == j
  {
    var bags := Bags(s);
    assert bags[i] == multiset(Kids(s[i]));
    assert RefCount(s, x) == Sum(bags)[x];
    SumHolds(bags, i, x);
    if Owns(s, j, x) && i != j {
      assert bags[j] == multiset(Kids(s[j]));
      SumHoldsTwo(bags, if i < j then i else j, if i < j then j else i, x);
    }
  }

  lemma SomeOwner(s: Heap, x: nat)
    requires Tree(s) && 1 <= x < |s|
    ensures exists i :: Owns(s, i, x)
  {
    assert RefCount(s, x) == 1;
    var i := SumFinds(Bags(s), x);
    assert Owns(s, i, x);
  }

  ghost function Owner(s: Heap, x: nat): (i: nat)
    requires Inv(s) && 1 <= x < |s|
    ensures Owns(s, i, x) && i < x
  {
    SomeOwner(s, x);
    InvOrdered(s);
    var i: nat :| Owns(s, i, x);
    var a :| 0 <= a < |Kids(s[i])| && Kids(s[i])[a] == x;
    i
  }

  // ---- Each node is freed exactly once ----

  /** `id` is `x` or one of its ancestors. */
  ghost predicate Above(s: Heap, id: nat, x: nat)
    requires Inv(s) && x < |s|
    decreases x
  {
    id == x || (1 <= x && Above(s, id, Owner(s, x)))
  }

  lemma {:induction false} RootAbove(s: Heap, x: nat)
    requires Inv(s) && x < |s|
    ensures Above(s, ROOT, x)
    decreases x
  {
    if x > 0 {
      RootAbove(s, Owner(s, x));
    }
  }

  lemma {:induction false} AboveIsEarlier(s: Heap, id: nat, x: nat)
    requires Inv(s) && x < |s| && Above(s, id, x)
    ensures id <= x
    decreases x
  {
    if id != x {
      AboveIsEarlier(s, id, Owner(s, x));
    }
  }

  /** The reference of `id` on the way down to `x`. */
  ghost function Toward(s: Heap, id: nat, x: nat): (c: nat)
    requires Inv(s) && x < |s| && Above(s, id, x) && id != x
    ensures Owns(s, id, c) && c <= x && Above(s, c, x)
    decreases x
  {
    if Owner(s, x) == id then x else Toward(s, id, Owner(s, x))
  }

  lemma {:induction false} OnlyToward(s: Heap, id: nat, c: nat, x: nat)
    requires Inv(s) && x < |s| && Owns(s, id, c) && c < |s| && Above(s, c, x)
    ensures Above(s, id, x) && id != x && c == Toward(s, id, x)
    decreases x
  {
    InvOrdered(s);
    AboveIsEarlier(s, c, x);
    var a :| 0 <= a < |Kids(s[id])| && Kids(s[id])[a] == c;
    OneOwner(s, id, Owner(s, c), c);
    if c != x {
      OnlyToward(s, id, c, Owner(s, x));
      AboveIsEarlier(s, c, Owner(s, x));
    }
  }

  lemma {:induction false} FreedOnce(s: Heap, id: nat, x: nat)
    requires Inv(s) && Ordered(s) && id < |s| && x < |s|
    ensures multiset(FreeOrder(s, id))[x] == if Above(s, id, x) then 1 else 0
    decreases |s| - id, 1, 0
  {
    var kids := Kids(s[id]);
    FreedAllOnce(s, id, kids, x);
    if id == x {
      forall c | c in kids && Above(s, c, x) ensures false {
        AboveIsEarlier(s, c, x);
      }
    } else if Above(s, id, x) {
      OneOwner(s, id, id, Toward(s, id, x));
    } else {
      forall c | c in kids && Above(s, c, x) ensures false {
        OnlyToward(s, id, c, x);
      }
    }
  }

  /** A reference of `id` is above `x` if and only if it is the one toward it. */
  lemma AboveIsToward(s: Heap, id: nat, c: nat, x: nat)
    requires Inv(s) && id < |s| && x < |s| && Owns(s, id, c) && c < |s|
    ensures Above(s, c, x) <==> Above(s, id, x) && id != x && c == Toward(s, id, x)
  {
    if Above(s, c, x) {
      OnlyToward(s, id, c, x);
    }
  }

  lemma CountStep(a: seq<nat>, b: seq<nat>, x: nat)
    ensures multiset(a + b)[x] == multiset(a)[x] + multiset(b)[x]
    ensures b == [x] ==> multiset(b)[x] == 1
    ensures |b| == 1 && b != [x] ==> multiset(b)[x] == 0
  {
    if |b| == 1 {
      assert b == [b[0]];
    }
  }

  /** How often `x` is freed among these references of `id`. */
  ghost function Times(s: Heap, id: nat, kids: seq<nat>, x: nat): nat
    requires Inv(s) && x < |s|
  {
    if Above(s, id, x) && id != x then multiset(kids)[Toward(s, id, x)] else 0
  }

  lemma TimesStep(s: Heap, id: nat, kids: seq<nat>, init: seq<nat>, c: nat, x: nat)
    requires Inv(s) && id < |s| && x < |s| && Owns(s, id, c) && c < |s| && kids == init + [c]
    ensures Times(s, id, kids, x) == Times(s, id, init, x) + if Above(s, c, x) then 1 else 0
  {
    AboveIsToward(s, id, c, x);
    if Above(s, id, x) && id != x {
      CountStep(init, [c], Toward(s, id, x));
    }
  }

  lemma LastApart(kids: seq<nat>)
    requires kids != []
    ensures kids == kids[..|kids| - 1] + [kids[|kids| - 1]]
  {
  }

  lemma FreeAllStep(s: Heap, id: nat, kids: seq<nat>, x: nat)
    requires Ordered(s) && id < |s| && kids != [] && forall a | 0 <= a < |kids| :: id < kids[a] < |s|
    ensures var init, c := kids[..|kids| - 1], kids[|kids| - 1];
            multiset(FreeAll(s, id, kids))[x] == multiset(FreeAll(s, id, init))[x] + multiset(FreeOrder(s, c))[x]
  {
    CountStep(FreeAll(s, id, kids[..|kids| - 1]), FreeOrder(s, kids[|kids| - 1]), x);
  }

  /** Among references of `id`, `x` is freed as often as the one toward it occurs. */
  lemma {:induction false} FreedAllOnce(s: Heap, id: nat, kids: seq<nat>, x: nat)
    requires Inv(s) && Ordered(s) && id < |s| && x < |s|
    requires forall a | 0 <= a < |kids| :: Owns(s, id, kids[a]) && id < kids[a] < |s|
    ensures multiset(FreeAll(s, id, kids))[x] == Times(s, id, kids, x)
    decreases |s| - id, 0, |kids|
  {
    if kids != [] {
      var init, c := kids[..|kids| - 1], kids[|kids| - 1];
      LastApart(kids);
      assert Owns(s, id, c);
      FreeAllStep(s, id, kids, x);
      FreedAllOnce(s, id, init, x);
      FreedOnce(s, c, x);
      TimesStep(s, id, kids, init, c, x);
    }
  }

  /**
    * Freeing the root frees every node of the document, each exactly once,
    * whatever state the parse was left in.
    */
  lemma FreeIsExact(s: Heap)
    requires Inv(s)
    ensures Ordered(s)
    ensures multiset(FreeOrder(s, ROOT)) == multiset(seq(|s|, i => i))
  {
    InvOrdered(s);
    var all := seq(|s|, i => i);
    forall x: nat ensures multiset(FreeOrder(s, ROOT))[x] == multiset(all)[x] {
      AllOnce(|s|, x);
      if x < |s| {
        FreedOnce(s, ROOT, x);
        RootAbove(s, x);
      } else {
        FreedInRange(s, ROOT, x);
      }
    }
  }

  lemma {:induction false} AllOnce(n: nat, x: nat)
    ensures multiset(seq(n, i => i))[x] == if x < n then 1 else 0
  {
    if n > 0 {
      AllOnce(n - 1, x);
      assert seq(n, i => i) == seq(n - 1, i => i) + [n - 1];
    }
  }

  lemma {:induction false} FreedInRange(s: Heap, id: nat, x: nat)
    requires Ordered(s) && id < |s| <= x
    ensures multiset(FreeOrder(s, id))[x] == 0
    decreases |s| - id, 1, 0
  {
    FreedAllInRange(s, id, Kids(s[id]), x);
  }

  lemma {:induction false} FreedAllInRange(s: Heap, id: nat, kids: seq<nat>, x: nat)
    requires Ordered(s) && id < |s| <= x && forall a | 0 <= a < |kids| :: id < kids[a] < |s|
    ensures multiset(FreeAll(s, id, kids))[x] == 0
    decreases |s| - id, 0, |kids|
  {
    if kids != [] {
      FreedAllInRange(s, id, kids[..|kids| - 1], x);
      FreedInRange(s, kids[|kids| - 1], x);
    }
  }
}
