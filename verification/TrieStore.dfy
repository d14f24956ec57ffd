/** Hashing a tree into a content-addressed store. The hash (SHA3-256 of the node's protobuf
    encoding) is a parameter: any injective function on node values with non-empty results. */
module TrieStore {
  import opened TrieTree
  import opened TrieCanonical

  type Hash = Bytes

  /** A stored node: sixteen child hashes, or [flag, path, next hash], or [flag, path, value]. */
  type NodeVal = seq<Bytes>

  type Hasher = NodeVal -> Hash

  datatype Kind = UnknownKind | ExtKind | LeafKind | BranchKind

  const EXT_FLAG: byte := 1
  const LEAF_FLAG: byte := 2

  /** The kind of node a stored value denotes. */
  function KindOf(v: NodeVal): Kind
  {
    if |v| == 16 then BranchKind
    else if |v| != 3 || v[0] == [] then UnknownKind
    else if v[0][0] == EXT_FLAG then ExtKind
    else if v[0][0] == LEAF_FLAG then LeafKind
    else UnknownKind
  }

  ghost predicate Sound(h: Hasher)
  {
    (forall a, b :: h(a) == h(b) ==> a == b) && forall a :: h(a) != []
  }

  function ValOf(h: Hasher, t: Tree): NodeVal
    requires Shaped(t) && !t.Nil?
    decreases t, 0
  {
    match t
    case Leaf(path, val) => [[LEAF_FLAG], path, val]
    case Ext(path, child) => [[EXT_FLAG], path, HashOf(h, child)]
    case Branch(kids) => seq(16, i requires 0 <= i < 16 => HashOf(h, kids[i]))
  }

  /** The root hash of a tree. */
  function HashOf(h: Hasher, t: Tree): Hash
    requires Shaped(t)
    decreases t, 1
  {
    if t.Nil? then [] else h(ValOf(h, t))
  }

  /** What is hashed of a node: the kind, 1 for an extension and 2 for a leaf, its path and what is below; of a branch the
      sixteen hashes below, empty where there is nothing. */
  lemma NodeLayout(h: Hasher, t: Tree)
    requires Shaped(t)
    ensures t.Nil? ==> HashOf(h, t) == []
    ensures t.Leaf? ==> HashOf(h, t) == h([[2], t.path, t.val]) && KindOf([[2], t.path, t.val]) == LeafKind
    ensures t.Ext? ==> HashOf(h, t) == h([[1], t.path, HashOf(h, t.child)]) && KindOf([[1], t.path, HashOf(h, t.child)]) == ExtKind
    ensures t.Branch? ==> |ValOf(h, t)| == 16 && HashOf(h, t) == h(ValOf(h, t)) && forall i :: 0 <= i < 16 ==> ValOf(h, t)[i] == HashOf(h, t.kids[i])
  {
  }

  /** The root hash determines the whole tree. */
  lemma {:induction false} HashOfInjective(h: Hasher, t: Tree, u: Tree)
    requires Sound(h) && Shaped(t) && Shaped(u) && HashOf(h, t) == HashOf(h, u)
    ensures t == u
    decreases t
  {
    if !t.Nil? && !u.Nil? {
      var a, b := ValOf(h, t), ValOf(h, u);
      assert a == b;
      match t
      case Leaf(_, _) => assert a[0] == [LEAF_FLAG]; assert a[1] == b[1] && a[2] == b[2];
      case Ext(_, child) =>
        assert a[0] == [EXT_FLAG];
        assert a[1] == b[1] && a[2] == b[2];
        HashOfInjective(h, child, u.child);
      case Branch(kids) =>
        assert |a| == 16;
        forall i | 0 <= i < 16
          ensures kids[i] == u.kids[i]
        {
          assert a[i] == b[i];
          HashOfInjective(h, kids[i], u.kids[i]);
        }
        assert kids == u.kids;
    }
  }

  type Store = map<Hash, NodeVal>

  /** Every entry sits under its own hash. */
  ghost predicate Addressed(h: Hasher, st: Store)
  {
    forall k :: k in st ==> k == h(st[k])
  }

  /** `big` has every entry of `st`, unchanged. */
  ghost predicate Grows(st: Store, big: Store)
  {
    forall k :: k in st ==> k in big && big[k] == st[k]
  }

  /** All nodes of `t` are in the store. */
  ghost predicate Stored(h: Hasher, st: Store, t: Tree)
    requires Shaped(t)
  {
    t.Nil? ||
    (HashOf(h, t) in st && st[HashOf(h, t)] == ValOf(h, t) &&
     (t.Ext? ==> Stored(h, st, t.child)) &&
     (t.Branch? ==> forall i :: 0 <= i < 16 ==> Stored(h, st, t.kids[i])))
  }

  /** A tree once stored stays stored, whatever is written later. */
  lemma {:induction false} StoredGrows(h: Hasher, st: Store, big: Store, t: Tree)
    requires Shaped(t) && Stored(h, st, t) && Grows(st, big)
    ensures Stored(h, big, t)
    decreases t
  {
    match t
    case Nil =>
    case Leaf(_, _) =>
    case Ext(_, c) => StoredGrows(h, st, big, c);
    case Branch(kids) =>
      forall i | 0 <= i < 16 ensures Stored(h, big, kids[i]) { StoredGrows(h, st, big, kids[i]); }
  }

  // --- maps and histories --------------------------------------------------------

  type KeyMap = map<Route, Bytes>

  /** The canonical tree `t` is the trie of the finite map `m`, whose keys have `n` nibbles. */
  ghost predicate Represents(t: Tree, n: nat, m: KeyMap)
  {
    Canon(t, n) && Shaped(t) && (forall r :: r in m ==> |r| == n) &&
    forall r: Route :: |r| == n ==> Lookup(t, r) == if r in m then Ok(m[r]) else Err(NotFound)
  }

  lemma EmptyRepresents(n: nat)
    ensures Represents(Nil, n, map[])
  {
  }

  lemma UpdateRepresents(t: Tree, n: nat, m: KeyMap, route: Route, val: Bytes)
    requires Represents(t, n, m) && |route| == n
    ensures Update(t, route, val).Ok?
    ensures Represents(Update(t, route, val).value, n, m[route := val])
  {
    UpdateCanon(t, route, val, n);
    forall r: Route | |r| == n
      ensures Lookup(Update(t, route, val).value, r) ==
              if r in m[route := val] then Ok(m[route := val][r]) else Err(NotFound)
    {
      UpdateGet(t, route, val, n, r);
    }
  }

  lemma DeleteRepresents(t: Tree, n: nat, m: KeyMap, route: Route)
    requires Represents(t, n, m) && |route| == n
    ensures route !in m ==> Delete(t, route) == Err(NotFound)
    ensures route in m ==> Delete(t, route).Ok? && Represents(Delete(t, route).value, n, m - {route})
  {
    DeleteCanon(t, route, n);
    if route in m {
      var u := Delete(t, route).value;
      forall r: Route | |r| == n
        ensures Lookup(u, r) == if r in m - {route} then Ok((m - {route})[r]) else Err(NotFound)
      {
        DeleteGet(t, route, n, r);
      }
    }
  }

  /** The map determines the tree, and the tree the map. */
  lemma RepresentsUnique(t: Tree, u: Tree, n: nat, m: KeyMap, p: KeyMap)
    requires Represents(t, n, m) && Represents(u, n, p)
    ensures t == u <==> m == p
  {
    if m == p {
      Unique(t, u, n);
    }
    if t == u {
      forall r | r in m ensures r in p && p[r] == m[r] { assert Lookup(t, r) == Lookup(u, r); }
      forall r | r in p ensures r in m { assert Lookup(t, r) == Lookup(u, r); }
    }
  }

  datatype Op = PutOp(route: Route, val: Bytes) | DelOp(route: Route)

  /** One operation of a history. */
  function Step(t: Tree, op: Op): (r: Result<Tree>)
    requires Shaped(t)
    ensures r.Ok? ==> Shaped(r.value)
  {
    if op.PutOp? then Update(t, op.route, op.val) else Delete(t, op.route)
  }

  /** The tree after a history; an operation that fails leaves the root as it was. */
  function RunTree(t: Tree, ops: seq<Op>): (u: Tree)
    requires Shaped(t)
    ensures Shaped(u)
    decreases |ops|
  {
    if ops == [] then t
    else
      var r := Step(t, ops[0]);
      RunTree(if r.Ok? then r.value else t, ops[1..])
  }

  /** The same history on a finite map. */
  function RunMap(m: KeyMap, ops: seq<Op>): KeyMap
    decreases |ops|
  {
    if ops == [] then m
    else
      var op := ops[0];
      RunMap(if op.PutOp? then m[op.route := op.val] else m - {op.route}, ops[1..])
  }

  lemma {:induction false} RunRepresents(t: Tree, n: nat, m: KeyMap, ops: seq<Op>)
    requires Represents(t, n, m) && forall i :: 0 <= i < |ops| ==> |ops[i].route| == n
    ensures Represents(RunTree(t, ops), n, RunMap(m, ops))
    decreases |ops|
  {
    if ops != [] {
      var op := ops[0];
      if op.PutOp? {
        UpdateRepresents(t, n, m, op.route, op.val);
        RunRepresents(Update(t, op.route, op.val).value, n, m[op.route := op.val], ops[1..]);
      } else {
        DeleteRepresents(t, n, m, op.route);
        var r := Delete(t, op.route);
        if op.route !in m { assert m - {op.route} == m; }
        RunRepresents(if r.Ok? then r.value else t, n, m - {op.route}, ops[1..]);
      }
    }
  }

  /** History independence: two histories over keys of one length reach the same root hash
      exactly when they leave the same map. */
  lemma HistoryIndependence(h: Hasher, n: nat, ops: seq<Op>, ops': seq<Op>)
    requires Sound(h)
    requires forall i :: 0 <= i < |ops| ==> |ops[i].route| == n
    requires forall i :: 0 <= i < |ops'| ==> |ops'[i].route| == n
    ensures HashOf(h, RunTree(Nil, ops)) == HashOf(h, RunTree(Nil, ops')) <==>
            RunMap(map[], ops) == RunMap(map[], ops')
  {
    EmptyRepresents(n);
    RunRepresents(Nil, n, map[], ops);
    RunRepresents(Nil, n, map[], ops');
    var t, u := RunTree(Nil, ops), RunTree(Nil, ops');
    RepresentsUnique(t, u, n, RunMap(map[], ops), RunMap(map[], ops'));
    if HashOf(h, t) == HashOf(h, u) { HashOfInjective(h, t, u); }
  }
}
