/** The canonical form that `Put` and `Del` keep, and what it buys: the tree, hence the root
    hash, is a function of the key-value map alone. */
module TrieCanonical {
  import opened TrieTree

  /** Canonical trees whose keys all have `n` nibbles: no empty extension path, an extension
      always leads to a branch, a branch has at least two live slots. */
  ghost predicate Canon(t: Tree, n: nat)
  {
    match t
    case Nil => true
    case Leaf(path, _) => |path| == n
    case Ext(path, c) => 0 < |path| <= n && c.Branch? && Canon(c, n - |path|)
    case Branch(kids) =>
      n > 0 && |kids| == 16 && Live(kids) >= 2 &&
      forall i :: 0 <= i < 16 ==> Canon(kids[i], n - 1)
  }

  lemma CanonShaped(t: Tree, n: nat)
    requires Canon(t, n)
    ensures Shaped(t)
  {
  }

  // --- live slots -------------------------------------------------------------

  function One(t: Tree): nat { if t.Nil? then 0 else 1 }

  lemma {:induction false} LiveUpdate(kids: seq<Tree>, i: nat, t: Tree)
    requires i < |kids|
    ensures Live(kids[i := t]) + One(kids[i]) == Live(kids) + One(t)
  {
    if i == 0 {
      assert kids[i := t][1..] == kids[1..];
    } else {
      LiveUpdate(kids[1..], i - 1, t);
      assert kids[i := t][1..] == kids[1..][i - 1 := t];
    }
  }

  lemma {:induction false} LiveNone(kids: seq<Tree>)
    requires forall i :: 0 <= i < |kids| ==> kids[i].Nil?
    ensures Live(kids) == 0
  {
    if kids != [] { LiveNone(kids[1..]); }
  }

  lemma {:induction false} LiveSome(kids: seq<Tree>, i: nat)
    requires i < |kids| && !kids[i].Nil?
    ensures Live(kids) > 0
  {
    if i > 0 { LiveSome(kids[1..], i - 1); }
  }

  /** A slot in use other than `i`. */
  lemma OtherLive(kids: seq<Tree>, i: nat) returns (j: nat)
    requires i < |kids| && Live(kids) >= 2
    ensures j < |kids| && j != i && !kids[j].Nil?
  {
    LiveUpdate(kids, i, Nil);
    j := FirstLive(kids[i := Nil]);
  }

  // --- keys of a canonical tree -------------------------------------------------

  /** Reading below a path. */
  lemma GetPrepend(path: Route, t: Tree, r: Route)
    requires Shaped(t) && |path| <= |r| && r != []
    requires t.Ext? ==> |path| < |r|
    ensures Shaped(Prepend(path, t))
    ensures Lookup(Prepend(path, t), r) == if path <= r then Lookup(t, r[|path|..]) else Err(NotFound)
  {
  }

  /** Every non-empty canonical tree holds a key. */
  lemma {:induction false} Inhabited(t: Tree, n: nat) returns (r: Route)
    requires Canon(t, n) && !t.Nil?
    ensures Shaped(t) && |r| == n && Lookup(t, r).Ok?
    decreases t
  {
    CanonShaped(t, n);
    match t
    case Leaf(path, _) => r := path;
    case Ext(path, c) =>
      var s := Inhabited(c, n - |path|);
      r := path + s;
      assert r[|path|..] == s;
    case Branch(kids) =>
      var i := FirstLive(kids);
      var s := Inhabited(kids[i], n - 1);
      r := [i] + s;
      assert r[1..] == s;
  }

  /** A branch holds two keys that differ in their first nibble. */
  lemma TwoKeys(t: Tree, n: nat) returns (r: Route, s: Route)
    requires Canon(t, n) && t.Branch?
    ensures Shaped(t) && |r| == |s| == n && n > 0
    ensures Lookup(t, r).Ok? && Lookup(t, s).Ok? && r[0] != s[0]
  {
    CanonShaped(t, n);
    var i := FirstLive(t.kids);
    var j := OtherLive(t.kids, i);
    var a := Inhabited(t.kids[i], n - 1);
    var b := Inhabited(t.kids[j], n - 1);
    r, s := [i] + a, [j] + b;
    assert r[1..] == a && s[1..] == b;
  }

  /** So does an extension, just past its path. */
  lemma TwoKeysExt(t: Tree, n: nat) returns (r: Route, s: Route)
    requires Canon(t, n) && t.Ext?
    ensures Shaped(t) && |r| == |s| == n > |t.path|
    ensures Lookup(t, r).Ok? && Lookup(t, s).Ok? && r[|t.path|] != s[|t.path|]
    ensures t.path <= r && t.path <= s
  {
    CanonShaped(t, n);
    var a, b := TwoKeys(t.child, n - |t.path|);
    r, s := t.path + a, t.path + b;
    assert r[|t.path|..] == a && s[|t.path|..] == b;
  }

  /** The two trees answer every key of length `n` alike. */
  ghost predicate SameAnswers(t: Tree, u: Tree, n: nat)
    requires Shaped(t) && Shaped(u)
  {
    forall r: Route :: |r| == n ==> Lookup(t, r) == Lookup(u, r)
  }

  lemma SameBelowExt(path: Route, t: Tree, u: Tree, n: nat)
    requires Shaped(t) && Shaped(u) && t.Ext? && u.Ext? && t.path == u.path == path
    requires 0 < |path| <= n && SameAnswers(t, u, n)
    ensures SameAnswers(t.child, u.child, n - |path|)
  {
    forall r: Route | |r| == n - |path|
      ensures Lookup(t.child, r) == Lookup(u.child, r)
    {
      var k := path + r;
      assert k[|path|..] == r;
      assert Lookup(t, k) == Lookup(u, k);
    }
  }

  lemma SameBelowBranch(t: Tree, u: Tree, i: nibble, n: nat)
    requires Shaped(t) && Shaped(u) && t.Branch? && u.Branch?
    requires n > 0 && SameAnswers(t, u, n)
    ensures SameAnswers(t.kids[i], u.kids[i], n - 1)
  {
    forall r: Route | |r| == n - 1
      ensures Lookup(t.kids[i], r) == Lookup(u.kids[i], r)
    {
      var k := [i] + r;
      assert k[1..] == r;
      assert Lookup(t, k) == Lookup(u, k);
    }
  }

  /** Trees of different kinds disagree on some key. */
  lemma KindsDiffer(t: Tree, u: Tree, n: nat)
    requires Canon(t, n) && Canon(u, n) && Shaped(t) && Shaped(u) && SameAnswers(t, u, n)
    ensures t.Nil? <==> u.Nil?
    ensures t.Leaf? ==> u.Leaf?
    ensures t.Branch? && !u.Leaf? ==> u.Branch?
  {
    if !t.Nil? { var r := Inhabited(t, n); assert Lookup(u, r) == Lookup(t, r); }
    if !u.Nil? { var r := Inhabited(u, n); assert Lookup(u, r) == Lookup(t, r); }
    if u.Ext? { var r, s := TwoKeysExt(u, n); assert Lookup(t, r).Ok? && Lookup(t, s).Ok?; }
    if u.Branch? { var r, s := TwoKeys(u, n); assert Lookup(t, r).Ok? && Lookup(t, s).Ok?; }
    if t.Branch? { var r, s := TwoKeys(t, n); assert Lookup(u, r).Ok? && Lookup(u, s).Ok?; }
  }

  /** Two extensions with the same keys have the same path. */
  lemma SamePath(t: Tree, u: Tree, n: nat)
    requires Canon(t, n) && Canon(u, n) && Shaped(t) && Shaped(u) && SameAnswers(t, u, n)
    requires t.Ext? && u.Ext?
    ensures |t.path| >= |u.path|
    ensures |t.path| == |u.path| ==> t.path == u.path
  {
    var r, s := TwoKeysExt(t, n);
    assert Lookup(t, r) == Lookup(u, r) && Lookup(t, s) == Lookup(u, s);
    assert u.path <= r && u.path <= s;
  }

  /** A canonical tree is determined by what it answers. */
  lemma {:induction false} Unique(t: Tree, u: Tree, n: nat)
    requires Canon(t, n) && Canon(u, n) && Shaped(t) && Shaped(u)
    requires SameAnswers(t, u, n)
    ensures t == u
    decreases t
  {
    KindsDiffer(t, u, n);
    KindsDiffer(u, t, n);
    match t
    case Nil =>
    case Leaf(path, _) => assert Lookup(t, path) == Lookup(u, path);
    case Ext(path, c) =>
      SamePath(t, u, n);
      SamePath(u, t, n);
      SameBelowExt(path, t, u, n);
      Unique(c, u.child, n - |path|);
    case Branch(kids) =>
      forall i: nibble
        ensures kids[i] == u.kids[i]
      {
        SameBelowBranch(t, u, i, n);
        Unique(kids[i], u.kids[i], n - 1);
      }
      assert kids == u.kids;
  }

  // --- Put ---------------------------------------------------------------------

  /** The slots of a fresh fork. */
  function ForkKids(i: nibble, a: Tree, j: nibble, b: Tree): (kids: seq<Tree>)
    requires i != j
    ensures |kids| == 16 && kids[i] == a && kids[j] == b
    ensures forall k :: 0 <= k < 16 && k != i && k != j ==> kids[k] == Nil
  {
    EmptyKids()[i := a][j := b]
  }

  /** The content of a fresh fork. */
  lemma GetFork(path: Route, i: nibble, a: Tree, j: nibble, b: Tree, r: Route)
    requires i != j && Shaped(a) && Shaped(b) && |path| < |r|
    ensures Shaped(Fork(path, i, a, j, b))
    ensures Lookup(Fork(path, i, a, j, b), r) ==
            if !(path <= r) then Err(NotFound)
            else if r[|path|] == i then Lookup(a, r[|path| + 1..])
            else if r[|path|] == j then Lookup(b, r[|path| + 1..])
            else Err(NotFound)
  {
    var br := Branch(ForkKids(i, a, j, b));
    var s := r[|path|..];
    assert s[0] == r[|path|] && s[1..] == r[|path| + 1..];
    assert Lookup(br, s) == Lookup(br.kids[s[0]], s[1..]);
    if path == [] { assert s == r; }
  }

  lemma ForkLive(i: nibble, a: Tree, j: nibble, b: Tree)
    requires i != j && !a.Nil? && !b.Nil?
    ensures Live(ForkKids(i, a, j, b)) == 2
  {
    hide Live;
    var e: seq<Tree> := EmptyKids();
    LiveNone(e);
    LiveUpdate(e, i, a);
    LiveUpdate(e[i := a], j, b);
  }

  lemma ForkCanon(path: Route, i: nibble, a: Tree, j: nibble, b: Tree, n: nat)
    requires i != j && !a.Nil? && !b.Nil? && |path| < n
    requires Canon(a, n - |path| - 1) && Canon(b, n - |path| - 1)
    ensures Canon(Fork(path, i, a, j, b), n)
  {
    ForkLive(i, a, j, b);
    var br := Branch(ForkKids(i, a, j, b));
    assert Canon(br, n - |path|);
  }

  /** `Put` of a key of the right length never fails and keeps the canonical form. */
  lemma {:induction false} UpdateCanon(t: Tree, route: Route, val: Bytes, n: nat)
    requires Canon(t, n) && |route| == n
    ensures Shaped(t)
    ensures Update(t, route, val).Ok?
    ensures Canon(Update(t, route, val).value, n)
    ensures t.Branch? ==> Update(t, route, val).value.Branch?
    decreases t
  {
    CanonShaped(t, n);
    match t
    case Nil =>
    case Leaf(path, prev) =>
      var m := Common(path, route);
      if m < |path| {
        ForkCanon(path[..m], path[m], Leaf(path[m + 1..], prev), route[m], Leaf(route[m + 1..], val), n);
      }
    case Ext(path, child) =>
      var m := Common(path, route);
      if m == |path| {
        UpdateCanon(child, route[m..], val, n - m);
      } else {
        var rest := if m + 1 < |path| then Ext(path[m + 1..], child) else child;
        ForkCanon(path[..m], path[m], rest, route[m], Leaf(route[m + 1..], val), n);
      }
    case Branch(kids) =>
      UpdateCanon(kids[route[0]], route[1..], val, n - 1);
      LiveUpdate(kids, route[0], Update(kids[route[0]], route[1..], val).value);
  }

  /** What splitting a leaf or an extension at `m` leaves at the old path. */
  lemma SplitPath(path: Route, m: nat, r: Route)
    requires m < |path| <= |r|
    ensures path <= r <==> path[..m] <= r && r[m] == path[m] && path[m + 1..] <= r[m + 1..]
  {
  }

  /** The split of an extension answers as the extension did, off the new key. */
  lemma GetSplitExt(path: Route, child: Tree, m: nat, r: Route)
    requires m < |path| < |r| && Shaped(child) && child.Branch?
    ensures var rest := if m + 1 < |path| then Ext(path[m + 1..], child) else child;
            Lookup(Ext(path, child), r) ==
            if path[..m] <= r && r[m] == path[m] then Lookup(rest, r[m + 1..]) else Err(NotFound)
  {
    SplitPath(path, m, r);
    if path <= r { assert r[m + 1..][|path| - m - 1..] == r[|path|..]; }
  }

  lemma SplitWhole(path: Route, m: nat, r: Route)
    requires m < |path| == |r|
    ensures path == r <==> path[..m] <= r && r[m] == path[m] && path[m + 1..] == r[m + 1..]
  {
  }

  lemma UpdateGetLeaf(t: Tree, route: Route, val: Bytes, n: nat, r: Route)
    requires t.Leaf? && |t.path| == |route| == |r| == n
    ensures Update(t, route, val).Ok?
    ensures Lookup(Update(t, route, val).value, r) == if r == route then Ok(val) else Lookup(t, r)
  {
    var path, m := t.path, Common(t.path, route);
    if m < |path| {
      GetFork(path[..m], path[m], Leaf(path[m + 1..], t.val), route[m], Leaf(route[m + 1..], val), r);
      SplitWhole(path, m, r);
      SplitWhole(route, m, r);
    }
  }

  lemma UpdateGetSplit(t: Tree, route: Route, val: Bytes, n: nat, r: Route)
    requires Canon(t, n) && t.Ext? && |route| == |r| == n && Common(t.path, route) < |t.path|
    ensures Shaped(t) && Update(t, route, val).Ok?
    ensures Lookup(Update(t, route, val).value, r) == if r == route then Ok(val) else Lookup(t, r)
  {
    CanonShaped(t, n);
    var path, child, m := t.path, t.child, Common(t.path, route);
    var rest := if m + 1 < |path| then Ext(path[m + 1..], child) else child;
    GetFork(path[..m], path[m], rest, route[m], Leaf(route[m + 1..], val), r);
    GetSplitExt(path, child, m, r);
    SplitWhole(route, m, r);
  }

  /** Replacing one slot of a branch. */
  lemma LookupSlot(kids: seq<Tree>, i: nibble, u: Tree, r: Route)
    requires Shaped(Branch(kids)) && Shaped(u) && r != []
    ensures Shaped(Branch(kids[i := u]))
    ensures Lookup(Branch(kids[i := u]), r) ==
            if r[0] == i then Lookup(u, r[1..]) else Lookup(Branch(kids), r)
  {
  }

  lemma Uncons(r: Route, s: Route)
    requires r != [] && s != []
    ensures r == s <==> r[0] == s[0] && r[1..] == s[1..]
  {
  }

  lemma Unprefix(path: Route, r: Route, s: Route)
    requires path <= r && path <= s
    ensures r == s <==> r[|path|..] == s[|path|..]
  {
  }

  /** `Put` sets its key and no other. */
  lemma {:induction false} UpdateGet(t: Tree, route: Route, val: Bytes, n: nat, r: Route)
    requires Canon(t, n) && |route| == |r| == n
    ensures Shaped(t) && Update(t, route, val).Ok?
    ensures Lookup(Update(t, route, val).value, r) == if r == route then Ok(val) else Lookup(t, r)
    decreases t
  {
    CanonShaped(t, n);
    match t
    case Nil =>
    case Leaf(_, _) => UpdateGetLeaf(t, route, val, n, r);
    case Ext(path, child) =>
      var m := Common(path, route);
      if m < |path| {
        UpdateGetSplit(t, route, val, n, r);
      } else {
        UpdateCanon(child, route[m..], val, n - m);
        if path <= r {
          UpdateGet(child, route[m..], val, n - m, r[m..]);
          Unprefix(path, r, route);
        }
      }
    case Branch(kids) =>
      UpdateCanon(kids[route[0]], route[1..], val, n - 1);
      LookupSlot(kids, route[0], Update(kids[route[0]], route[1..], val).value, r);
      Uncons(r, route);
      if r[0] == route[0] {
        UpdateGet(kids[route[0]], route[1..], val, n - 1, r[1..]);
      }
  }

  // --- Del ---------------------------------------------------------------------

  lemma PrependCanon(path: Route, t: Tree, n: nat)
    requires 0 < |path| <= n && Canon(t, n - |path|)
    ensures Canon(Prepend(path, t), n)
  {
  }

  lemma CollapseCanon(kids: seq<Tree>, n: nat)
    requires |kids| == 16 && n > 0 && forall i :: 0 <= i < 16 ==> Canon(kids[i], n - 1)
    ensures Canon(Collapse(kids), n)
  {
  }

  /** Collapsing a branch changes no answer. */
  lemma GetCollapse(kids: seq<Tree>, n: nat, r: Route)
    requires |kids| == 16 && 0 < n == |r| && forall i :: 0 <= i < 16 ==> Canon(kids[i], n - 1) && Shaped(kids[i])
    ensures Shaped(Collapse(kids))
    ensures Lookup(Collapse(kids), r) == Lookup(kids[r[0]], r[1..])
  {
    if Live(kids) == 0 {
      if !kids[r[0]].Nil? { LiveSome(kids, r[0]); }
    } else if Live(kids) == 1 {
      var i := FirstLive(kids);
      GetPrepend([i], kids[i], r);
      if r[0] != i {
        LiveUpdate(kids, i, Nil);
        if !kids[r[0]].Nil? { LiveSome(kids[i := Nil], r[0]); }
      }
    }
  }

  /** `Del` succeeds exactly on keys that are present, and keeps the canonical form. */
  lemma {:induction false} DeleteCanon(t: Tree, route: Route, n: nat)
    requires Canon(t, n) && |route| == n
    ensures Shaped(t)
    ensures Lookup(t, route).Ok? ==> Delete(t, route).Ok? && Canon(Delete(t, route).value, n)
    ensures Lookup(t, route).Err? ==> Delete(t, route) == Err(NotFound) && Lookup(t, route) == Err(NotFound)
    decreases t
  {
    CanonShaped(t, n);
    match t
    case Nil =>
    case Leaf(path, _) =>
    case Ext(path, child) =>
      if Common(path, route) == |path| {
        DeleteCanon(child, route[|path|..], n - |path|);
        if Lookup(t, route).Ok? {
          PrependCanon(path, Delete(child, route[|path|..]).value, n);
        }
      }
    case Branch(kids) =>
      DeleteCanon(kids[route[0]], route[1..], n - 1);
      if Lookup(t, route).Ok? {
        CollapseCanon(kids[route[0] := Delete(kids[route[0]], route[1..]).value], n);
      }
  }

  /** `Del` removes its key and no other. */
  lemma {:induction false} DeleteGet(t: Tree, route: Route, n: nat, r: Route)
    requires Canon(t, n) && |route| == |r| == n
    requires Shaped(t) && Lookup(t, route).Ok?
    ensures Delete(t, route).Ok?
    ensures Lookup(Delete(t, route).value, r) == if r == route then Err(NotFound) else Lookup(t, r)
    decreases t
  {
    DeleteCanon(t, route, n);
    match t
    case Leaf(path, _) =>
    case Ext(path, child) =>
      var k := |path|;
      DeleteCanon(child, route[k..], n - k);
      var sub := Delete(child, route[k..]).value;
      GetPrepend(path, sub, r);
      if path <= r {
        DeleteGet(child, route[k..], n - k, r[k..]);
        Unprefix(path, r, route);
      }
    case Branch(kids) =>
      var i := route[0];
      DeleteCanon(kids[i], route[1..], n - 1);
      var sub := Delete(kids[i], route[1..]).value;
      GetCollapse(kids[i := sub], n, r);
      Uncons(r, route);
      if r[0] == i {
        DeleteGet(kids[i], route[1..], n - 1, r[1..]);
      }
  }
}
