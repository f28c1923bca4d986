/** What a sequence of `[p]` headers means. */
module Headers {
  import opened Bytes
  import opened Store
  import opened Eval
  import opened Document
  import Ownership

  /** Following table names from a table on. */
  function Resolve(s: Heap, cur: nat, path: seq<Str>): (r: Option<nat>)
    requires cur < |s| && s[cur].Tab?
    ensures r.Some? ==> r.value < |s| && s[r.value].Tab?
    decreases |path|
  {
    if path == [] then Some(cur)
    else match CheckKey(s, s[cur], path[0])
      case FoundTab(id) => if id < |s| && s[id].Tab? then Resolve(s, id, path[1..]) else None
      case _ => None
  }

  lemma {:induction false} ResolveConcat(s: Heap, cur: nat, p: seq<Str>, q: seq<Str>)
    requires cur < |s| && s[cur].Tab?
    ensures Resolve(s, cur, p + q) == match Resolve(s, cur, p)
                                      case None => None
                                      case Some(id) => Resolve(s, id, q)
    decreases |p|
  {
    if p == [] {
      assert p + q == q;
    } else {
      assert (p + q)[1..] == p[1..] + q;
      match CheckKey(s, s[cur], p[0])
      case FoundTab(id) => if id < |s| && s[id].Tab? { ResolveConcat(s, id, p[1..], q); }
      case _ =>
    }
  }

  lemma ResolveOne(s: Heap, cur: nat, key: Str)
    requires cur < |s| && s[cur].Tab?
    ensures Resolve(s, cur, [key]) == match CheckKey(s, s[cur], key)
                                      case FoundTab(id) => if id < |s| && s[id].Tab? then Some(id) else None
                                      case _ => None
  {
    assert [key][1..] == [];
  }

  ghost predicate Has(s: Heap, i: nat, x: nat) { i < |s| && s[i].Tab? && x in s[i].tabs }

  /** The document holds tables and nothing else. */
  ghost predicate OnlyTables(s: Heap) {
    |s| > 0 && forall i | 0 <= i < |s| :: s[i].Tab? && s[i].kvals == [] && s[i].arrs == []
  }

  /** ... each but the root in one table only, and the root in none. */
  ghost predicate TableTree(s: Heap) {
    && OnlyTables(s)
    && (forall i, x: nat | Has(s, i, x) :: 0 < x < |s|)
    && (forall i, j, x: nat | Has(s, i, x) && Has(s, j, x) :: i == j)
  }

  /** A document of tables that is a tree is one in this sense. */
  lemma InvIsTableTree(s: Heap)
    requires Inv(s) && OnlyTables(s)
    ensures TableTree(s)
  {
    forall i, j, x: nat | Has(s, i, x) ensures 0 < x < |s| && (Has(s, j, x) ==> i == j) {
      assert Ownership.Owns(s, i, x);
      if Has(s, j, x) { assert Ownership.Owns(s, j, x); }
      Ownership.OneOwner(s, i, j, x);
    }
  }

  /** In a tree, a table is reached from the root by one path only. */
  lemma {:induction false} OnePath(s: Heap, p: seq<Str>, q: seq<Str>)
    requires TableTree(s) && Resolve(s, ROOT, p).Some? && Resolve(s, ROOT, p) == Resolve(s, ROOT, q)
    ensures p == q
    decreases |p|
  {
    if p == [] {
      if q != [] {
        var b := LastStep(s, q);
        assert false;
      }
    } else {
      var a := LastStep(s, p);
      if q == [] {
        assert false;
      } else {
        var b := LastStep(s, q);
        OnePath(s, p[..|p| - 1], q[..|q| - 1]);
        assert p == p[..|p| - 1] + [p[|p| - 1]] && q == q[..|q| - 1] + [q[|q| - 1]];
      }
    }
  }

  /** The table a path's last key is looked up in owns the table it leads to, whose key it is. */
  lemma LastStep(s: Heap, p: seq<Str>) returns (a: nat)
    requires OnlyTables(s) && p != [] && Resolve(s, ROOT, p).Some?
    ensures Resolve(s, ROOT, p[..|p| - 1]) == Some(a)
    ensures Has(s, a, Resolve(s, ROOT, p).value) && KeyAt(s, Resolve(s, ROOT, p).value) == p[|p| - 1]
  {
    var init, key := p[..|p| - 1], p[|p| - 1];
    assert p == init + [key];
    ResolveConcat(s, ROOT, init, [key]);
    a := Resolve(s, ROOT, init).value;
    ResolveOne(s, a, key);
  }

  // ---- Adding one table ----

  lemma AddedTree(s: Heap, i: nat, key: Str, implicit: bool)
    requires TableTree(s) && i < |s|
    ensures TableTree(AddTab(s, i, key, implicit))
  {
    var s' := AddTab(s, i, key, implicit);
    forall j, x: nat ensures Has(s', j, x) <==> Has(s, j, x) || (j == i && x == |s|) {
    }
  }

  /** Looking a key up after a table is added: only the new key's answer has changed, in that one table. */
  lemma AddedLookup(s: Heap, i: nat, key: Str, implicit: bool, cur: nat, k: Str)
    requires TableTree(s) && i < |s| && cur < |s| && CheckKey(s, s[i], key).Absent?
    ensures var s' := AddTab(s, i, key, implicit);
            CheckKey(s', s'[cur], k) == if cur == i && k == key then FoundTab(|s|) else CheckKey(s, s[cur], k)
  {
    var s' := AddTab(s, i, key, implicit);
    forall a | 0 <= a < |s[cur].tabs| ensures KeyAt(s', s[cur].tabs[a]) == KeyAt(s, s[cur].tabs[a]) {
      assert Has(s, cur, s[cur].tabs[a]);
    }
    assert KeyAt(s', |s|) == key;
    FindSame(s, s', s[cur].tabs, k, 0);
    if cur == i {
      FindAppended(s', s[cur].tabs, |s|, k, 0);
    }
  }

  /** The path leads to table `i` and from there on by `key`. */
  ghost predicate Leads(s: Heap, cur: nat, p: seq<Str>, i: nat, key: Str)
    requires cur < |s| && s[cur].Tab?
  {
    p != [] && p[|p| - 1] == key && Resolve(s, cur, p[..|p| - 1]) == Some(i)
  }

  lemma LeadsOn(s: Heap, cur: nat, p: seq<Str>, i: nat, key: Str)
    requires OnlyTables(s) && cur < |s| && p != []
    ensures |p| == 1 ==> (Leads(s, cur, p, i, key) <==> cur == i && p[0] == key)
    ensures |p| > 1 ==> (Leads(s, cur, p, i, key) <==>
              match CheckKey(s, s[cur], p[0])
              case FoundTab(id) => id < |s| && Leads(s, id, p[1..], i, key)
              case _ => false)
  {
    var init := p[..|p| - 1];
    if |p| == 1 {
      assert init == [];
    } else {
      assert init[0] == p[0] && init[1..] == p[1..][..|p| - 2];
    }
  }

  /** Exactly one more path resolves: the path to the table, and the key. */
  lemma {:induction false} AddedResolve(s: Heap, i: nat, key: Str, implicit: bool, cur: nat, p: seq<Str>)
    requires TableTree(s) && i < |s| && cur < |s| && CheckKey(s, s[i], key).Absent?
    ensures Resolve(AddTab(s, i, key, implicit), cur, p) ==
            if Resolve(s, cur, p).Some? then Resolve(s, cur, p)
            else if Leads(s, cur, p, i, key) then Some(|s|)
            else None
    decreases |p|
  {
    if p != [] {
      AddedLookup(s, i, key, implicit, cur, p[0]);
      LeadsOn(s, cur, p, i, key);
      if cur == i && p[0] == key {
        NewTableIsEmpty(s, i, key, implicit, p[1..]);
      } else {
        match CheckKey(s, s[cur], p[0])
        case FoundTab(id) =>
          assert Has(s, cur, id);
          AddedResolve(s, i, key, implicit, id, p[1..]);
        case _ =>
      }
    }
  }

  lemma NewTableIsEmpty(s: Heap, i: nat, key: Str, implicit: bool, t: seq<Str>)
    requires i < |s| && s[i].Tab?
    ensures Resolve(AddTab(s, i, key, implicit), |s|, t) == if t == [] then Some(|s|) else None
  {
    var s' := AddTab(s, i, key, implicit);
    assert s'[|s|] == NewTab(Some(key), implicit);
  }

  // ---- Walking a path ----

  /** `s'` is `s` with tables, all implicit, for the prefixes of `path`. */
  ghost predicate Walked(s: Heap, s': Heap, path: seq<Str>) {
    && TableTree(s) && TableTree(s') && |s| <= |s'|
    && (forall p :: Resolve(s', ROOT, p).Some? <==> Resolve(s, ROOT, p).Some? || p <= path)
    && (forall p :: Resolve(s, ROOT, p).Some? ==> Resolve(s', ROOT, p) == Resolve(s, ROOT, p))
    && (forall j | 0 <= j < |s| :: s'[j].implicit == s[j].implicit)
    && (forall j | |s| <= j < |s'| :: s'[j].implicit)
    && (forall p :: Resolve(s', ROOT, p).Some? && Resolve(s, ROOT, p).None? ==> Resolve(s', ROOT, p).value >= |s|)
  }

  /** Seen from the root, adding a table under the table at `done` makes one more path resolve. */
  lemma AddedAtRoot(s: Heap, cur: nat, done: seq<Str>, key: Str, implicit: bool, p: seq<Str>)
    requires TableTree(s) && Resolve(s, ROOT, done) == Some(cur) && CheckKey(s, s[cur], key).Absent?
    ensures Resolve(AddTab(s, cur, key, implicit), ROOT, p) ==
            if Resolve(s, ROOT, p).Some? then Resolve(s, ROOT, p) else if p == done + [key] then Some(|s|) else None
    ensures Resolve(s, ROOT, done + [key]) == None
  {
    AddedResolve(s, cur, key, implicit, ROOT, p);
    ResolveConcat(s, ROOT, done, [key]);
    ResolveOne(s, cur, key);
    LeadsHere(s, cur, done, key, p);
  }

  /** One path leads to the table at `done` and from there on by `key`. */
  lemma LeadsHere(s: Heap, cur: nat, done: seq<Str>, key: Str, p: seq<Str>)
    requires TableTree(s) && Resolve(s, ROOT, done) == Some(cur)
    ensures Leads(s, ROOT, p, cur, key) <==> p == done + [key]
  {
    if Leads(s, ROOT, p, cur, key) {
      PathTo(s, cur, done, p[..|p| - 1]);
      assert p == p[..|p| - 1] + [key];
    }
    if p == done + [key] {
      assert p[..|p| - 1] == done;
    }
  }

  /** `s'` is `s` with one more table, at `path`. */
  ghost predicate OneMoreTable(s: Heap, s': Heap, path: seq<Str>, implicit: bool) {
    && TableTree(s) && TableTree(s') && |s'| == |s| + 1
    && (forall j | 0 <= j < |s| :: s'[j].implicit == s[j].implicit)
    && s'[|s|].implicit == implicit
    && Resolve(s, ROOT, path) == None
    && (forall p :: Resolve(s', ROOT, p) ==
                    if Resolve(s, ROOT, p).Some? then Resolve(s, ROOT, p) else if p == path then Some(|s|) else None)
  }

  lemma AddsOneTable(s: Heap, cur: nat, done: seq<Str>, key: Str, implicit: bool)
    requires TableTree(s) && Resolve(s, ROOT, done) == Some(cur) && CheckKey(s, s[cur], key).Absent?
    ensures OneMoreTable(s, AddTab(s, cur, key, implicit), done + [key], implicit)
  {
    AddedTree(s, cur, key, implicit);
    forall p: seq<Str> {
      AddedAtRoot(s, cur, done, key, implicit, p);
    }
  }

  lemma WalkOne(s: Heap, s': Heap, done: seq<Str>, key: Str)
    requires OneMoreTable(s, s', done + [key], true)
    requires forall p | p <= done :: Resolve(s, ROOT, p).Some?
    ensures Walked(s, s', done + [key]) && Resolve(s', ROOT, done + [key]) == Some(|s|)
  {
    forall p: seq<Str>
      ensures Resolve(s', ROOT, p).Some? <==> Resolve(s, ROOT, p).Some? || p <= done + [key]
    {
      PrefixOne(done, key, p);
    }
  }

  lemma PrefixOne(a: seq<Str>, k: Str, p: seq<Str>)
    ensures p <= a + [k] <==> p <= a || p == a + [k]
  {
    if p <= a + [k] && |p| <= |a| {
      assert p == (a + [k])[..|p|] == a[..|p|];
    }
  }

  lemma WalkedTrans(a: Heap, b: Heap, c: Heap, p: seq<Str>, q: seq<Str>)
    requires Walked(a, b, p) && Walked(b, c, q) && p <= q
    ensures Walked(a, c, q)
  {
    forall r: seq<Str>
      ensures Resolve(c, ROOT, r).Some? <==> Resolve(a, ROOT, r).Some? || r <= q
      ensures Resolve(a, ROOT, r).Some? ==> Resolve(c, ROOT, r) == Resolve(a, ROOT, r)
      ensures Resolve(c, ROOT, r).Some? && Resolve(a, ROOT, r).None? ==> Resolve(c, ROOT, r).value >= |a|
    {
      assert Resolve(b, ROOT, r).Some? <==> Resolve(a, ROOT, r).Some? || r <= p;
      assert Resolve(c, ROOT, r).Some? <==> Resolve(b, ROOT, r).Some? || r <= q;
    }
  }

  /** `walk_tabpath` makes every missing table of the path, implicit, and nothing else. */
  lemma {:induction false} WalkMakesPrefixes(s: Heap, cur: nat, path: seq<Str>, at: nat)
    requires TableTree(s) && at <= |path| && Resolve(s, ROOT, path[..at]) == Some(cur)
    requires forall p | p <= path[..at] :: Resolve(s, ROOT, p).Some?
    ensures var r := Walk(s, cur, path, at);
            r.Reached? && Walked(s, r.heap, path) && Resolve(r.heap, ROOT, path) == Some(r.id)
    decreases |path| - at
  {
    if at == |path| {
      assert path[..at] == path;
    } else {
      var key := path[at];
      assert path[..at + 1] == path[..at] + [key];
      match CheckKey(s, s[cur], key)
      case FoundTab(id) =>
        PathGoesOn(s, cur, path[..at], key, id);
        WalkMakesPrefixes(s, id, path, at + 1);
      case Absent =>
        var s' := PrefixMade(s, cur, path[..at], key);
        WalkMakesPrefixes(s', |s|, path, at + 1);
        WalkedTrans(s, s', Walk(s', |s|, path, at + 1).heap, path[..at + 1], path);
    }
  }

  lemma PrefixMade(s: Heap, cur: nat, done: seq<Str>, key: Str) returns (s': Heap)
    requires TableTree(s) && Resolve(s, ROOT, done) == Some(cur) && CheckKey(s, s[cur], key).Absent?
    requires forall p | p <= done :: Resolve(s, ROOT, p).Some?
    ensures s' == AddTab(s, cur, key, true) && Walked(s, s', done + [key])
    ensures Resolve(s', ROOT, done + [key]) == Some(|s|) && forall p | p <= done + [key] :: Resolve(s', ROOT, p).Some?
  {
    s' := AddTab(s, cur, key, true);
    AddsOneTable(s, cur, done, key, true);
    WalkOne(s, s', done, key);
  }

  lemma PathGoesOn(s: Heap, cur: nat, done: seq<Str>, key: Str, id: nat)
    requires TableTree(s) && Resolve(s, ROOT, done) == Some(cur) && CheckKey(s, s[cur], key) == FoundTab(id)
    requires forall p | p <= done :: Resolve(s, ROOT, p).Some?
    ensures Resolve(s, ROOT, done + [key]) == Some(id)
    ensures forall p | p <= done + [key] :: Resolve(s, ROOT, p).Some?
  {
    assert Has(s, cur, id);
    ResolveConcat(s, ROOT, done, [key]);
    ResolveOne(s, cur, key);
    forall p | p <= done + [key] ensures Resolve(s, ROOT, p).Some? {
      PrefixOne(done, key, p);
    }
  }

  // ---- Headers ----

  /** The path is a named table's, or one of its ancestors'. */
  ghost predicate InClosure(hs: seq<seq<Str>>, p: seq<Str>) {
    p == [] || exists i :: 0 <= i < |hs| && p <= hs[i]
  }

  /** The document is exactly the prefix closure of the headers, implicit where no header names the path. */
  ghost predicate Shows(s: Heap, hs: seq<seq<Str>>) {
    && TableTree(s)
    && (forall p :: Resolve(s, ROOT, p).Some? <==> InClosure(hs, p))
    && (forall p :: p != [] && Resolve(s, ROOT, p).Some? ==> (s[Resolve(s, ROOT, p).value].implicit <==> p !in hs))
  }

  /** Header after header; None once one is refused. */
  function RunHeaders(s: Heap, hs: seq<seq<Str>>): Option<Heap>
    requires |s| > 0 && s[ROOT].Tab? && forall i | 0 <= i < |hs| :: hs[i] != []
  {
    if hs == [] then Some(s)
    else match RunHeaders(s, hs[..|hs| - 1])
      case None => None
      case Some(h) =>
        if |h| > 0 && h[ROOT].Tab? && SelectTable(h, hs[|hs| - 1]).Current? then Some(SelectTable(h, hs[|hs| - 1]).heap)
        else None
  }

  /** After walking to the parent, what is known of the document. */
  lemma ParentWalked(s: Heap, hs: seq<seq<Str>>, h: seq<Str>) returns (s1: Heap, id: nat)
    requires Shows(s, hs) && h != []
    ensures Walk(s, ROOT, h[..|h| - 1], 0) == Reached(s1, id)
    ensures Walked(s, s1, h[..|h| - 1]) && Resolve(s1, ROOT, h[..|h| - 1]) == Some(id)
    ensures Resolve(s1, ROOT, h) == Resolve(s, ROOT, h)
    ensures ClaimTable(s1, id, h[|h| - 1]).Done? <==> h !in hs
    ensures Resolve(s, ROOT, h) == match CheckKey(s1, s1[id], h[|h| - 1]) case FoundTab(x) => Some(x) case _ => None
    ensures CheckKey(s1, s1[id], h[|h| - 1]).FoundTab? || CheckKey(s1, s1[id], h[|h| - 1]).Absent?
  {
    var parent, key := h[..|h| - 1], h[|h| - 1];
    assert h == parent + [key];
    assert parent[..0] == [];
    WalkMakesPrefixes(s, ROOT, parent, 0);
    s1, id := Walk(s, ROOT, parent, 0).heap, Walk(s, ROOT, parent, 0).id;
    assert !(h <= parent);
    assert Resolve(s1, ROOT, h).Some? <==> Resolve(s, ROOT, h).Some? || h <= parent;
    ResolveConcat(s1, ROOT, parent, [key]);
    ResolveOne(s1, id, key);
    NamedInClosure(hs, h);
    match CheckKey(s1, s1[id], key)
    case FoundTab(x) =>
      assert Has(s1, id, x);
      assert Resolve(s, ROOT, h) == Some(x) && s1[x].implicit == s[x].implicit;
    case _ =>
  }

  lemma NamedInClosure(hs: seq<seq<Str>>, h: seq<Str>)
    ensures h in hs ==> InClosure(hs, h)
  {
    if h in hs {
      var i :| 0 <= i < |hs| && hs[i] == h;
      assert h <= hs[i];
    }
  }

  /** A header succeeds exactly when its path was not named before, and then the document shows it too. */
  lemma HeaderStep(s: Heap, hs: seq<seq<Str>>, h: seq<Str>)
    requires Shows(s, hs) && h != []
    ensures SelectTable(s, h).Current? <==> h !in hs
    ensures SelectTable(s, h).Current? ==> Shows(SelectTable(s, h).heap, hs + [h])
  {
    var s1, id := ParentWalked(s, hs, h);
    if h !in hs {
      if CheckKey(s1, s1[id], h[|h| - 1]).Absent? {
        AddsOneTable(s1, id, h[..|h| - 1], h[|h| - 1], false);
        assert h == h[..|h| - 1] + [h[|h| - 1]];
        NewHeader(s, s1, SelectTable(s, h).heap, hs, h);
      } else {
        PromotedHeader(s, s1, CheckKey(s1, s1[id], h[|h| - 1]).id, hs, h);
      }
    }
  }

  lemma ClosureGrows(hs: seq<seq<Str>>, h: seq<Str>, p: seq<Str>)
    ensures InClosure(hs + [h], p) <==> InClosure(hs, p) || p <= h
  {
    var all := hs + [h];
    if InClosure(hs, p) && p != [] {
      var i :| 0 <= i < |hs| && p <= hs[i];
      assert p <= all[i];
    }
    if p <= h { assert p <= all[|hs|]; }
  }

  lemma NewHeader(s: Heap, s1: Heap, s2: Heap, hs: seq<seq<Str>>, h: seq<Str>)
    requires Shows(s, hs) && h != [] && h !in hs && Walked(s, s1, h[..|h| - 1]) && OneMoreTable(s1, s2, h, false)
    ensures Shows(s2, hs + [h])
  {
    var parent, key := h[..|h| - 1], h[|h| - 1];
    assert h == parent + [key];
    forall p: seq<Str> ensures ShownAt(s2, hs + [h], p) {
      WalkedPath(s, s1, hs, parent, p);
      ClosureGrows(hs, h, p);
      PrefixOne(parent, key, p);
    }
    ShownEverywhere(s2, hs + [h]);
  }

  /** What the document shows at one path once the tables of `parent` have been made. */
  lemma WalkedPath(s: Heap, s1: Heap, hs: seq<seq<Str>>, parent: seq<Str>, p: seq<Str>)
    requires Shows(s, hs) && Walked(s, s1, parent)
    ensures Resolve(s1, ROOT, p).Some? <==> InClosure(hs, p) || p <= parent
    ensures p != [] && Resolve(s1, ROOT, p).Some? ==> (s1[Resolve(s1, ROOT, p).value].implicit <==> p !in hs)
  {
    NamedInClosure(hs, p);
  }

  lemma PromotedHeader(s: Heap, s1: Heap, x: nat, hs: seq<seq<Str>>, h: seq<Str>)
    requires Shows(s, hs) && h != [] && h !in hs && Walked(s, s1, h[..|h| - 1])
    requires x < |s1| && s1[x].Tab? && Resolve(s1, ROOT, h) == Resolve(s, ROOT, h) == Some(x)
    ensures Shows(Promote(s1, x), hs + [h])
  {
    var s2 := Promote(s1, x);
    PromotedTree(s1, x);
    forall p: seq<Str> ensures ShownAt(s2, hs + [h], p) {
      PromotedPath(s, s1, x, hs, h, p);
    }
    ShownEverywhere(s2, hs + [h]);
  }

  /** What the document shows at one path. */
  ghost predicate ShownAt(s: Heap, hs: seq<seq<Str>>, p: seq<Str>)
    requires TableTree(s)
  {
    && (Resolve(s, ROOT, p).Some? <==> InClosure(hs, p))
    && (p != [] && Resolve(s, ROOT, p).Some? ==> (s[Resolve(s, ROOT, p).value].implicit <==> p !in hs))
  }

  lemma ShownEverywhere(s: Heap, hs: seq<seq<Str>>)
    requires TableTree(s) && forall p :: ShownAt(s, hs, p)
    ensures Shows(s, hs)
  {
    forall p: seq<Str>
      ensures Resolve(s, ROOT, p).Some? <==> InClosure(hs, p)
      ensures p != [] && Resolve(s, ROOT, p).Some? ==> (s[Resolve(s, ROOT, p).value].implicit <==> p !in hs)
    {
      assert ShownAt(s, hs, p);
    }
  }

  lemma PromotedPath(s: Heap, s1: Heap, x: nat, hs: seq<seq<Str>>, h: seq<Str>, p: seq<Str>)
    requires Shows(s, hs) && h != [] && h !in hs && Walked(s, s1, h[..|h| - 1])
    requires x < |s1| && s1[x].Tab? && Resolve(s1, ROOT, h) == Resolve(s, ROOT, h) == Some(x)
    ensures TableTree(Promote(s1, x)) && ShownAt(Promote(s1, x), hs + [h], p)
  {
    PromotedTree(s1, x);
    PromotedResolve(s1, x, ROOT, p);
    ClosureGrows(hs, h, p);
    WalkedPath(s, s1, hs, h[..|h| - 1], p);
    WithLast(h, p);
    NamedInClosure(hs, h);
    PathTo(s1, x, h, p);
  }

  lemma WithLast(h: seq<Str>, p: seq<Str>)
    requires h != []
    ensures p <= h <==> p <= h[..|h| - 1] || p == h
  {
    assert h == h[..|h| - 1] + [h[|h| - 1]];
    PrefixOne(h[..|h| - 1], h[|h| - 1], p);
  }

  lemma PathTo(s: Heap, x: nat, h: seq<Str>, p: seq<Str>)
    requires TableTree(s) && Resolve(s, ROOT, h) == Some(x)
    ensures Resolve(s, ROOT, p) == Some(x) <==> p == h
  {
    if Resolve(s, ROOT, p) == Some(x) {
      OnePath(s, p, h);
    }
  }

  lemma PromotedTree(s: Heap, x: nat)
    requires TableTree(s) && x < |s|
    ensures TableTree(Promote(s, x))
  {
    var s' := Promote(s, x);
    forall j, y: nat ensures Has(s', j, y) <==> Has(s, j, y) {
    }
  }

  lemma {:induction false} PromotedResolve(s: Heap, x: nat, cur: nat, p: seq<Str>)
    requires x < |s| && s[x].Tab? && cur < |s| && s[cur].Tab?
    ensures Resolve(Promote(s, x), cur, p) == Resolve(s, cur, p)
    decreases |p|
  {
    if p != [] {
      var s' := Promote(s, x);
      FindSame(s, s', s[cur].arrs, p[0], 0);
      FindSame(s, s', s[cur].tabs, p[0], 0);
      match CheckKey(s, s[cur], p[0])
      case FoundTab(id) => if id < |s| && s[id].Tab? { PromotedResolve(s, x, id, p[1..]); }
      case _ =>
    }
  }

  // ---- Main results ----

  ghost predicate Distinct(hs: seq<seq<Str>>) { forall i, j | 0 <= i < j < |hs| :: hs[i] != hs[j] }

  /**
    * A sequence of headers succeeds exactly when its paths are pairwise distinct,
    * and then the document is exactly their prefix closure, with `implicit` set
    * only on the tables no header names.
    */
  lemma {:induction false} HeadersMean(hs: seq<seq<Str>>)
    requires forall i | 0 <= i < |hs| :: hs[i] != []
    ensures RunHeaders(EMPTY, hs).Some? <==> Distinct(hs)
    ensures RunHeaders(EMPTY, hs).Some? ==> Shows(RunHeaders(EMPTY, hs).value, hs)
  {
    if hs == [] {
      forall p: seq<Str> ensures Resolve(EMPTY, ROOT, p).Some? <==> InClosure(hs, p) {
        if p != [] { assert CheckKey(EMPTY, EMPTY[ROOT], p[0]).Absent?; }
      }
      assert Shows(EMPTY, hs);
    } else {
      var init, h := hs[..|hs| - 1], hs[|hs| - 1];
      assert hs == init + [h];
      HeadersMean(init);
      if RunHeaders(EMPTY, init).Some? {
        HeaderStep(RunHeaders(EMPTY, init).value, init, h);
      }
      DistinctOne(init, h);
    }
  }

  lemma DistinctOne(hs: seq<seq<Str>>, h: seq<Str>)
    ensures Distinct(hs + [h]) <==> Distinct(hs) && h !in hs
  {
    var all := hs + [h];
    if Distinct(all) {
      forall i, j | 0 <= i < j < |hs| ensures hs[i] != hs[j] { assert all[i] != all[j]; }
      forall i | 0 <= i < |hs| ensures hs[i] != h { assert all[i] != all[|hs|]; }
    }
  }

  /** The tables a document has, and which are implicit, seen from outside. */
  ghost predicate SameTables(s: Heap, s': Heap)
    requires |s| > 0 && s[ROOT].Tab? && |s'| > 0 && s'[ROOT].Tab?
  {
    forall p :: match (Resolve(s, ROOT, p), Resolve(s', ROOT, p))
                case (None, None) => true
                case (Some(i), Some(j)) => s[i].Tab? && s'[j].Tab? && s[i].implicit == s'[j].implicit
                case _ => false
  }

  lemma ShowsSame(s: Heap, s': Heap, hs: seq<seq<Str>>, hs': seq<seq<Str>>)
    requires Shows(s, hs) && Shows(s', hs') && multiset(hs) == multiset(hs')
    requires s[ROOT].implicit == s'[ROOT].implicit
    ensures SameTables(s, s')
  {
    forall p ensures p in hs <==> p in hs' {
      assert p in hs <==> p in multiset(hs);
      assert p in hs' <==> p in multiset(hs');
    }
    forall p: seq<Str> ensures InClosure(hs, p) <==> InClosure(hs', p) {
      if InClosure(hs, p) && p != [] {
        var i :| 0 <= i < |hs| && p <= hs[i];
        assert hs[i] in hs';
      }
      if InClosure(hs', p) && p != [] {
        var i :| 0 <= i < |hs'| && p <= hs'[i];
        assert hs'[i] in hs;
      }
    }
  }

  /** The root table is never promoted: it has no key to be found under. */
  lemma {:induction false} RootStays(hs: seq<seq<Str>>)
    requires forall i | 0 <= i < |hs| :: hs[i] != []
    requires RunHeaders(EMPTY, hs).Some?
    ensures |RunHeaders(EMPTY, hs).value| > 0 && !RunHeaders(EMPTY, hs).value[ROOT].implicit
  {
    if hs != [] {
      RootStays(hs[..|hs| - 1]);
      var h := RunHeaders(EMPTY, hs[..|hs| - 1]).value;
      assert NodeGrows(h[ROOT], SelectTable(h, hs[|hs| - 1]).heap[ROOT]);
    }
  }

  /** The order of headers does not matter, except to the order of siblings. */
  lemma HeaderOrderIsIrrelevant(hs: seq<seq<Str>>, hs': seq<seq<Str>>)
    requires forall i | 0 <= i < |hs| :: hs[i] != []
    requires forall i | 0 <= i < |hs'| :: hs'[i] != []
    requires multiset(hs) == multiset(hs') && RunHeaders(EMPTY, hs).Some?
    ensures RunHeaders(EMPTY, hs').Some?
    ensures SameTables(RunHeaders(EMPTY, hs).value, RunHeaders(EMPTY, hs').value)
  {
    HeadersMean(hs);
    HeadersMean(hs');
    DistinctByCount(hs);
    DistinctByCount(hs');
    RootStays(hs);
    RootStays(hs');
    ShowsSame(RunHeaders(EMPTY, hs).value, RunHeaders(EMPTY, hs').value, hs, hs');
  }

  lemma {:induction false} DistinctByCount(hs: seq<seq<Str>>)
    ensures Distinct(hs) <==> forall h :: multiset(hs)[h] <= 1
  {
    if hs != [] {
      var init, h := hs[..|hs| - 1], hs[|hs| - 1];
      DistinctByCount(init);
      DistinctOne(init, h);
      assert hs == init + [h];
      assert forall x :: multiset(hs)[x] == multiset(init)[x] + if x == h then 1 else 0;
      assert h in init <==> multiset(init)[h] > 0;
    }
  }
}
