/** The trie as the program runs it: recursive methods over a shared store that create nodes,
    rewrite fetched copies and commit them. Each is proved to compute the tree operation. */
module Trie {
  import opened TrieTree
  import opened TrieCanonical
  import opened TrieStore

  /** The key-value store behind the tries; several tries may share one. */
  class Storage {
    var data: Store

    constructor ()
      ensures data == map[]
    {
      data := map[];
    }
  }

  /** Length of the common prefix of `a` and `b`. */
  method PrefixLen(a: Route, b: Route) returns (i: nat)
    ensures i == Common(a, b)
  {
    i := 0;
    var length := |a|;
    if |b| < length { length := |b|; }
    while i < length && a[i] == b[i]
      invariant i <= length
      invariant Common(a, b) == i + Common(a[i..], b[i..])
    {
      i := i + 1;
    }
  }

  function Hi(b: byte): nibble { b / 16 }
  function Lo(b: byte): nibble { b % 16 }
  function Join(hi: nibble, lo: nibble): byte { (hi as int) * 16 + lo }

  lemma JoinParts(hi: nibble, lo: nibble)
    ensures Hi(Join(hi, lo)) == hi && Lo(Join(hi, lo)) == lo
  {
  }

  /** The route of a key: its bytes, high half first. */
  function KeyToRoute(key: Bytes): (route: Route)
    ensures |route| == 2 * |key|
  {
    if key == [] then []
    else
      var n := |key| - 1;
      KeyToRoute(key[..n]) + [Hi(key[n]), Lo(key[n])]
  }

  method RouteOf(key: Bytes) returns (route: Route)
    ensures route == KeyToRoute(key)
  {
    route := [];
    var i := 0;
    while i < |key|
      invariant i <= |key| && route == KeyToRoute(key[..i])
    {
      assert key[..i + 1][..i] == key[..i];
      route := route + [Hi(key[i]), Lo(key[i])];
      i := i + 1;
    }
    assert key[..i] == key;
  }

  /** Back from a route of even length to the key it is the route of. */
  method RouteToKey(route: Route) returns (key: Bytes)
    ensures |key| == |route| / 2
    ensures |route| % 2 == 0 ==> KeyToRoute(key) == route
  {
    key := [];
    var i := 0;
    while i < |route| / 2
      invariant i <= |route| / 2 && |key| == i
      invariant KeyToRoute(key) == route[..2 * i]
    {
      hide Hi, Lo, Join;
      var hi, lo := route[2 * i], route[2 * i + 1];
      JoinParts(hi, lo);
      var next := key + [Join(hi, lo)];
      assert next[..i] == key;
      assert route[..2 * i + 2] == route[..2 * i] + [hi, lo];
      key := next;
      i := i + 1;
    }
    assert |route| % 2 == 0 ==> route[..2 * i] == route;
  }

  /** Different keys have different routes. */
  lemma {:induction false} KeyToRouteInjective(k: Bytes, l: Bytes)
    requires KeyToRoute(k) == KeyToRoute(l)
    ensures k == l
    decreases |k|
  {
    if k != [] && l != [] {
      var n, m := |k| - 1, |l| - 1;
      var p, q := KeyToRoute(k[..n]), KeyToRoute(l[..m]);
      var r := KeyToRoute(k);
      assert n == m && r[..2 * n] == p == q;
      assert r[2 * n] == Hi(k[n]) == Hi(l[n]) && r[2 * n + 1] == Lo(k[n]) == Lo(l[n]);
      KeyToRouteInjective(k[..n], l[..m]);
      assert k == k[..n] + [k[n]] && l == l[..n] + [l[n]];
    }
  }

  function EmptyBranch(): NodeVal { seq(16, i => []) }

  method EmptyBranchNode() returns (v: NodeVal)
    ensures v == EmptyBranch()
  {
    v := [[], [], [], [], [], [], [], [], [], [], [], [], [], [], [], []];
  }

  /** How many slots of a branch value are in use. */
  function LiveSlots(v: NodeVal): nat
  {
    if v == [] then 0 else LiveSlots(v[..|v| - 1]) + if v[|v| - 1] != [] then 1 else 0
  }

  method LenBranch(v: NodeVal) returns (l: nat)
    ensures l == LiveSlots(v)
  {
    l := 0;
    for idx := 0 to |v|
      invariant l == LiveSlots(v[..idx])
    {
      assert v[..idx + 1][..idx] == v[..idx];
      if |v[idx]| != 0 { l := l + 1; }
    }
    assert v[..|v|] == v;
  }

  method IsEmptyBranch(v: NodeVal) returns (empty: bool)
    ensures empty <==> LiveSlots(v) == 0
  {
    for idx := 0 to |v|
      invariant LiveSlots(v[..idx]) == 0
    {
      assert v[..idx + 1][..idx] == v[..idx];
      if |v[idx]| != 0 {
        LiveSlotsMonotone(v, idx + 1);
        return false;
      }
    }
    assert v[..|v|] == v;
    return true;
  }

  lemma {:induction false} LiveSlotsMonotone(v: NodeVal, i: nat)
    requires i <= |v|
    ensures LiveSlots(v[..i]) <= LiveSlots(v)
  {
    if i < |v| {
      LiveSlotsMonotone(v[..|v| - 1], i);
      assert v[..|v| - 1][..i] == v[..i];
    } else {
      assert v[..i] == v;
    }
  }

  /** The live slots of a stored branch are its live subtries. */
  lemma LiveSlotsOf(h: Hasher, kids: seq<Tree>)
    requires Sound(h) && Shaped(Branch(kids))
    ensures LiveSlots(ValOf(h, Branch(kids))) == Live(kids)
  {
    LiveSlotsUpTo(h, kids, 16);
    assert ValOf(h, Branch(kids))[..16] == ValOf(h, Branch(kids));
    assert kids[..16] == kids;
  }

  lemma {:induction false} LiveSlotsUpTo(h: Hasher, kids: seq<Tree>, i: nat)
    requires Sound(h) && Shaped(Branch(kids)) && i <= 16
    ensures LiveSlots(ValOf(h, Branch(kids))[..i]) == Live(kids[..i])
  {
    var v := ValOf(h, Branch(kids));
    if i > 0 {
      LiveSlotsUpTo(h, kids, i - 1);
      assert v[..i][..i - 1] == v[..i - 1];
      assert kids[..i] == kids[..i - 1] + [kids[i - 1]];
      LiveSnoc(kids[..i - 1], kids[i - 1]);
    }
  }

  lemma {:induction false} LiveSnoc(kids: seq<Tree>, t: Tree)
    ensures Live(kids + [t]) == Live(kids) + One(t)
  {
    if kids != [] {
      assert (kids + [t])[1..] == kids[1..] + [t];
      LiveSnoc(kids[1..], t);
    } else {
      assert (kids + [t])[1..] == [];
    }
  }

  datatype Entry = Entry(isDelete: bool, key: Bytes, update: Bytes)

  /** The tree operation a changelog entry stands for. */
  function EntryOp(e: Entry): Op
  {
    if e.isDelete then DelOp(KeyToRoute(e.key)) else PutOp(KeyToRoute(e.key), e.update)
  }

  /** The tree after the logged writes and deletes, none of which fails. */
  ghost function LogTree(o: Tree, log: seq<Entry>): (r: Result<Tree>)
    requires Shaped(o)
    ensures r.Ok? ==> Shaped(r.value)
    decreases |log|
  {
    if log == [] then Ok(o)
    else
      var r, e := LogTree(o, log[..|log| - 1]), log[|log| - 1];
      if r.Err? then r else if e.isDelete then Delete(r.value, KeyToRoute(e.key)) else Update(r.value, KeyToRoute(e.key), e.update)
  }

  /** The log leads from `o` to `t`. */
  ghost predicate Logged(o: Tree, log: seq<Entry>, t: Tree)
  {
    Shaped(o) && LogTree(o, log) == Ok(t)
  }

  lemma LoggedNone(o: Tree)
    requires Shaped(o)
    ensures Logged(o, [], o)
  {
  }

  lemma LoggedMore(log: seq<Entry>, t: Tree, e: Entry, u: Tree)
    requires Shaped(t) && (if e.isDelete then Delete(t, KeyToRoute(e.key)) else Update(t, KeyToRoute(e.key), e.update)) == Ok(u)
    ensures forall o :: Logged(o, log, t) ==> Logged(o, log + [e], u)
  {
    hide Update, Delete, KeyToRoute, Shaped;
    assert (log + [e])[..|log|] == log;
  }

  /** Repeating a log from where it started ends where it ended. */
  lemma {:induction false} LoggedReplays(o: Tree, log: seq<Entry>, t: Tree)
    requires Logged(o, log, t)
    ensures RunPrefix(o, EntryOps(log)) == |log| && RunTree(o, EntryOps(log)) == t
    decreases |log|
  {
    hide Update, Delete, KeyToRoute, Shaped;
    if log != [] {
      var front, e := log[..|log| - 1], log[|log| - 1];
      var mid := LogTree(o, front).value;
      LoggedReplays(o, front, mid);
      assert EntryOps(log) == EntryOps(front) + [EntryOp(e)];
      RunTreeSnoc(o, EntryOps(front), EntryOp(e));
      PrefixSnoc(o, EntryOps(front), EntryOp(e));
    }
  }

  lemma {:induction false} PrefixSnoc(t: Tree, ops: seq<Op>, op: Op)
    requires Shaped(t) && RunPrefix(t, ops) == |ops| && Step(RunTree(t, ops), op).Ok?
    ensures RunPrefix(t, ops + [op]) == |ops| + 1
    decreases |ops|
  {
    hide Step;
    if ops == [] {
      assert (ops + [op])[1..] == [];
    } else {
      assert (ops + [op])[0] == ops[0] && (ops + [op])[1..] == ops[1..] + [op];
      PrefixSnoc(Step(t, ops[0]).value, ops[1..], op);
    }
  }

  class Trie {
    const h: Hasher
    const storage: Storage
    var rootHash: Hash
    var changelog: seq<Entry>
    var needChangelog: bool

    /** The tree that `rootHash` names. */
    ghost var tree: Tree

    /** The store is content-addressed. */
    ghost predicate Ready()
      reads this, storage
    {
      Sound(h) && Addressed(h, storage.data)
    }

    /** `t` is a well-shaped tree whose nodes are all in the store. */
    ghost predicate Holds(t: Tree)
      reads this, storage
    {
      Shaped(t) && Stored(h, storage.data, t)
    }

    ghost predicate Valid()
      reads this, storage
    {
      Ready() && Holds(tree) && rootHash == HashOf(h, tree)
    }

    constructor (h: Hasher, storage: Storage, needChangelog: bool)
      requires Sound(h) && Addressed(h, storage.data)
      ensures Valid() && tree == Nil && this.h == h && this.storage == storage
      ensures changelog == [] && this.needChangelog == needChangelog
    {
      this.h, this.storage, this.needChangelog := h, storage, needChangelog;
      rootHash, changelog, tree := [], [], Nil;
    }

    method FetchNode(hash: Hash) returns (r: Result<NodeVal>)
      ensures r == if hash in storage.data then Ok(storage.data[hash]) else Err(NotFound)
    {
      r := if hash in storage.data then Ok(storage.data[hash]) else Err(NotFound);
    }

    /** Hash a node and write it; nothing else in the store changes. */
    method CommitNode(v: NodeVal) returns (hash: Hash)
      requires Ready()
      modifies storage
      ensures Ready() && hash == h(v) && hash in storage.data && storage.data[hash] == v
      ensures Grows(old(storage.data), storage.data)
    {
      hash := h(v);
      storage.data := storage.data[hash := v];
    }

    /** Commit the node of `t`, whose subtries are already stored. */
    method CommitTree(v: NodeVal, ghost t: Tree) returns (hash: Hash)
      requires Ready() && Shaped(t) && !t.Nil? && v == ValOf(h, t)
      requires t.Ext? ==> Holds(t.child)
      requires t.Branch? ==> forall i :: 0 <= i < 16 ==> Holds(t.kids[i])
      modifies storage
      ensures Ready() && Holds(t) && hash == HashOf(h, t)
      ensures Grows(old(storage.data), storage.data)
    {
      hash := CommitNode(v);
      if t.Ext? { StoredGrows(h, old(storage.data), storage.data, t.child); }
      if t.Branch? {
        forall i | 0 <= i < 16 ensures Holds(t.kids[i]) {
          StoredGrows(h, old(storage.data), storage.data, t.kids[i]);
        }
      }
    }

    /** The value stored for a route, walking down from `root`. */
    method GetAt(root: Hash, route: Route, ghost t: Tree) returns (r: Result<Bytes>)
      requires Ready() && Holds(t) && root == HashOf(h, t)
      ensures r == Lookup(t, route)
    {
      var curRoot, curRoute := root, route;
      ghost var cur := t;
      while true
        invariant Holds(cur) && curRoot == HashOf(h, cur)
        invariant Lookup(cur, curRoute) == Lookup(t, route)
        decreases cur
      {
        var fetched := FetchNode(curRoot);
        if fetched.Err? { return Err(NotFound); }
        var v := fetched.value;
        var kind := KindOf(v);
        if kind == UnknownKind { return Err(UnknownType); }
        if |curRoute| == 0 && kind != LeafKind { return Err(TooShort); }
        match kind
        case BranchKind =>
          curRoot := v[curRoute[0]];
          cur := cur.kids[curRoute[0]];
          curRoute := curRoute[1..];
        case ExtKind =>
          var path, next := v[1], v[2];
          var matchLen := PrefixLen(path, curRoute);
          if matchLen != |path| { return Err(NotFound); }
          curRoot := next;
          cur := cur.child;
          curRoute := curRoute[matchLen..];
        case LeafKind =>
          var path := v[1];
          var matchLen := PrefixLen(path, curRoute);
          if matchLen != |path| || matchLen != |curRoute| { return Err(NotFound); }
          return Ok(v[2]);
      }
    }

    /** A new leaf: `update` on the empty root. */
    method AddLeaf(route: Route, val: Bytes, ghost keep: Tree) returns (hash: Hash)
      requires Ready() && Holds(keep)
      modifies storage
      ensures Ready() && Holds(keep) && Holds(Leaf(route, val)) && hash == HashOf(h, Leaf(route, val))
      ensures Grows(old(storage.data), storage.data)
    {
      hash := CommitTree([[LEAF_FLAG], route, val], Leaf(route, val));
      StoredGrows(h, old(storage.data), storage.data, keep);
    }

    /** What a recursive write promises: the hash of the tree operation's result, with all its
        nodes stored, or the operation's error. */
    ghost predicate Wrote(r: Result<Hash>, t: Result<Tree>)
      requires t.Ok? ==> Shaped(t.value)
      reads this, storage
    {
      match t
      case Ok(u) => Holds(u) && r == Ok(HashOf(h, u))
      case Err(e) => r == Err(e)
    }

    method UpdateAt(root: Hash, route: Route, val: Bytes, ghost t: Tree) returns (r: Result<Hash>)
      requires Ready() && Holds(t) && root == HashOf(h, t)
      modifies storage
      ensures Ready() && Grows(old(storage.data), storage.data)
      ensures Wrote(r, Update(t, route, val))
      decreases t, 1
    {
      if |root| == 0 {
        var hash := AddLeaf(route, val, t);
        return Ok(hash);
      }
      var fetched := FetchNode(root);
      if fetched.Err? { return Err(NotFound); }
      var v := fetched.value;
      match KindOf(v)
      case BranchKind => r := UpdateWhenMeetBranch(v, route, val, t);
      case ExtKind => r := UpdateWhenMeetExt(v, route, val, t);
      case LeafKind => r := UpdateWhenMeetLeaf(v, route, val, t);
      case UnknownKind => r := Err(UnknownType);
    }

    method UpdateWhenMeetBranch(v: NodeVal, route: Route, val: Bytes, ghost t: Tree) returns (r: Result<Hash>)
      requires Ready() && Holds(t) && t.Branch? && v == ValOf(h, t)
      modifies storage
      ensures Ready() && Grows(old(storage.data), storage.data)
      ensures Wrote(r, Update(t, route, val))
      decreases t, 0
    {
      if route == [] { return Err(OutOfRange); }
      var sub := UpdateAt(v[route[0]], route[1..], val, t.kids[route[0]]);
      if sub.Err? { return sub; }
      StoredGrows(h, old(storage.data), storage.data, t);
      ghost var u := Branch(t.kids[route[0] := Update(t.kids[route[0]], route[1..], val).value]);
      var w := v[route[0] := sub.value];
      assert w == ValOf(h, u);
      var hash := CommitTree(w, u);
      r := Ok(hash);
    }

    method UpdateWhenMeetExt(v: NodeVal, route: Route, val: Bytes, ghost t: Tree) returns (r: Result<Hash>)
      requires Ready() && Holds(t) && t.Ext? && v == ValOf(h, t)
      modifies storage
      ensures Ready() && Grows(old(storage.data), storage.data)
      ensures Wrote(r, Update(t, route, val))
      decreases t, 0
    {
      var path, next := v[1], v[2];
      if |path| > |route| { return Err(TooShort); }
      var matchLen := PrefixLen(path, route);
      if matchLen == |path| {
        var sub := UpdateAt(next, route[matchLen..], val, t.child);
        if sub.Err? { return sub; }
        var hash := CommitTree(v[2 := sub.value], Ext(path, Update(t.child, route[matchLen..], val).value));
        return Ok(hash);
      }
      r := SplitExt(v, matchLen, route, val, t);
    }

    /** The situations in which the route leaves the path of an extension node part-way. */
    method SplitExt(v: NodeVal, matchLen: nat, route: Route, val: Bytes, ghost t: Tree) returns (r: Result<Hash>)
      requires Ready() && Holds(t) && t.Ext? && v == ValOf(h, t)
      requires matchLen == Common(t.path, route) < |t.path| <= |route|
      modifies storage
      ensures Ready() && Grows(old(storage.data), storage.data)
      ensures Wrote(r, Update(t, route, val))
    {
      var path: Route := v[1];
      var brNode := EmptyBranchNode();
      var i, j := path[matchLen], route[matchLen];
      ghost var rest := RestOf(t, matchLen);
      var slot := CommitRest(v, matchLen, t);
      var hash := AttachLeaf(brNode[i := slot], i, rest, j, route[matchLen + 1..], val);
      if matchLen == 0 { return Ok(hash); }
      ghost var br := Fork([], i, rest, j, Leaf(route[matchLen + 1..], val));
      hash := CommitTree(v[1 := path[0..matchLen]][2 := hash], Ext(path[..matchLen], br));
      r := Ok(hash);
    }

    /** What is left of an extension below position `matchLen` of its path. */
    ghost function RestOf(t: Tree, matchLen: nat): Tree
      requires t.Ext? && matchLen < |t.path|
    {
      if matchLen + 1 < |t.path| then Ext(t.path[matchLen + 1..], t.child) else t.child
    }

    /** Commit what is left of the extension node: nothing new when one nibble is left, else a
        new extension node, or the old one with its path shortened by one. */
    method CommitRest(v: NodeVal, matchLen: nat, ghost t: Tree) returns (slot: Hash)
      requires Ready() && Holds(t) && t.Ext? && v == ValOf(h, t) && matchLen < |t.path|
      modifies storage
      ensures Ready() && Grows(old(storage.data), storage.data)
      ensures Holds(RestOf(t, matchLen)) && slot == HashOf(h, RestOf(t, matchLen))
      ensures Holds(t)
    {
      var path: Route := v[1];
      if matchLen > 0 || |path| == 1 {
        slot := v[2];
        if matchLen > 0 && matchLen + 1 < |path| {
          slot := CommitTree([[EXT_FLAG], path[matchLen + 1..], v[2]], RestOf(t, matchLen));
        }
      } else {
        slot := CommitTree(v[1 := path[1..]], RestOf(t, matchLen));
      }
      StoredGrows(h, old(storage.data), storage.data, t);
    }

    /** Put a new leaf in slot `j` of a branch that so far holds `rest` in slot `i`. */
    method AttachLeaf(brNode: NodeVal, i: nibble, ghost rest: Tree, j: nibble, suffix: Route, val: Bytes)
      returns (hash: Hash)
      requires Ready() && i != j && Holds(rest) && brNode == EmptyBranch()[i := HashOf(h, rest)]
      modifies storage
      ensures Ready() && Grows(old(storage.data), storage.data)
      ensures var br := Fork([], i, rest, j, Leaf(suffix, val)); Holds(br) && hash == HashOf(h, br)
    {
      hash := AddLeaf(suffix, val, rest);
      hash := CommitFork(brNode[j := hash], i, rest, j, Leaf(suffix, val));
    }

    method UpdateWhenMeetLeaf(v: NodeVal, route: Route, val: Bytes, ghost t: Tree) returns (r: Result<Hash>)
      requires Ready() && Holds(t) && t.Leaf? && v == ValOf(h, t)
      modifies storage
      ensures Ready() && Grows(old(storage.data), storage.data)
      ensures Wrote(r, Update(t, route, val))
    {
      var path, leafVal := v[1], v[2];
      if |path| > |route| { return Err(TooShort); }
      var matchLen := PrefixLen(path, route);
      if matchLen == |path| {
        if |route| > matchLen { return Err(TooLong); }
        var hash := CommitTree(v[2 := val], Leaf(path, val));
        return Ok(hash);
      }
      var brNode := EmptyBranchNode();
      var i, j := path[matchLen], route[matchLen];
      ghost var kept, added := Leaf(path[matchLen + 1..], leafVal), Leaf(route[matchLen + 1..], val);
      var hash := AddLeaf(path[matchLen + 1..], leafVal, Nil);
      hash := AttachLeaf(brNode[i := hash], i, kept, j, route[matchLen + 1..], val);
      if matchLen == 0 { return Ok(hash); }
      var w := v[0 := [EXT_FLAG]][1 := path[0..matchLen]][2 := hash];
      hash := CommitTree(w, Fork(path[..matchLen], i, kept, j, added));
      r := Ok(hash);
    }

    /** Commit the branch of a fork, whose two subtries are stored. */
    method CommitFork(v: NodeVal, i: nibble, ghost a: Tree, j: nibble, ghost b: Tree) returns (hash: Hash)
      requires Ready() && i != j && Holds(a) && Holds(b)
      requires v == EmptyBranch()[i := HashOf(h, a)][j := HashOf(h, b)]
      modifies storage
      ensures Ready() && Holds(Fork([], i, a, j, b)) && hash == HashOf(h, Fork([], i, a, j, b))
      ensures Grows(old(storage.data), storage.data)
    {
      ghost var br := Fork([], i, a, j, b);
      assert v == ValOf(h, br);
      hash := CommitTree(v, br);
    }

    method DelAt(root: Hash, route: Route, ghost t: Tree) returns (r: Result<Hash>)
      requires Ready() && Holds(t) && root == HashOf(h, t)
      modifies storage
      ensures Ready() && Grows(old(storage.data), storage.data)
      ensures Wrote(r, Delete(t, route))
      decreases t, 1
    {
      if |root| == 0 { return Err(NotFound); }
      var fetched := FetchNode(root);
      if fetched.Err? { return Err(NotFound); }
      var v := fetched.value;
      match KindOf(v)
      case BranchKind => r := DelFromBranch(v, route, t);
      case ExtKind => r := DelFromExt(v, route, t);
      case LeafKind =>
        var matchLen := PrefixLen(v[1], route);
        r := if matchLen != |v[1]| then Err(NotFound) else Ok([]);
      case UnknownKind => r := Err(UnknownType);
    }

    method DelFromBranch(v: NodeVal, route: Route, ghost t: Tree) returns (r: Result<Hash>)
      requires Ready() && Holds(t) && t.Branch? && v == ValOf(h, t)
      modifies storage
      ensures Ready() && Grows(old(storage.data), storage.data)
      ensures Wrote(r, Delete(t, route))
      decreases t, 0
    {
      if route == [] { return Err(OutOfRange); }
      var sub := DelAt(v[route[0]], route[1..], t.kids[route[0]]);
      if sub.Err? { return sub; }
      StoredGrows(h, old(storage.data), storage.data, t);
      ghost var kids := t.kids[route[0] := Delete(t.kids[route[0]], route[1..]).value];
      var w := v[route[0] := sub.value];
      assert w == ValOf(h, Branch(kids));
      LiveSlotsOf(h, kids);
      var empty := IsEmptyBranch(w);
      if empty { return Ok([]); }
      var len := LenBranch(w);
      var hash;
      if len == 1 {
        hash := DeleteWhenMeetSingleBranch(w, kids);
      } else {
        hash := CommitTree(w, Branch(kids));
      }
      r := Ok(hash);
    }

    method DelFromExt(v: NodeVal, route: Route, ghost t: Tree) returns (r: Result<Hash>)
      requires Ready() && Holds(t) && t.Ext? && v == ValOf(h, t)
      modifies storage
      ensures Ready() && Grows(old(storage.data), storage.data)
      ensures Wrote(r, Delete(t, route))
      decreases t, 0
    {
      var path: Route, next := v[1], v[2];
      var matchLen := PrefixLen(path, route);
      if matchLen != |path| { return Err(NotFound); }
      var sub := DelAt(next, route[matchLen..], t.child);
      if sub.Err? { return sub; }
      if sub.value == [] { return Ok([]); }
      ghost var child := Delete(t.child, route[matchLen..]).value;
      var newHash := DeleteWhenMeetSingleExt(path, sub.value, child);
      if newHash != [] { return Ok(newHash); }
      var hash := CommitTree(v[2 := sub.value], Ext(path, child));
      r := Ok(hash);
    }

    /** Below an extension, an extension or a leaf is absorbed; a branch is left alone. */
    method DeleteWhenMeetSingleExt(path: Route, hash: Hash, ghost child: Tree) returns (newHash: Hash)
      requires Ready() && Holds(child) && !child.Nil? && hash == HashOf(h, child)
      modifies storage
      ensures Ready() && Holds(child) && Grows(old(storage.data), storage.data)
      ensures child.Branch? ==> newHash == []
      ensures !child.Branch? ==> Holds(Prepend(path, child)) && newHash == HashOf(h, Prepend(path, child)) != []
    {
      var fetched := FetchNode(hash);
      var v := fetched.value;
      var kind := KindOf(v);
      if kind == ExtKind || kind == LeafKind {
        newHash := CommitTree(v[1 := path + v[1]], Prepend(path, child));
      } else {
        newHash := [];
      }
      StoredGrows(h, old(storage.data), storage.data, child);
    }

    /** A branch with one live slot is replaced by that slot's subtrie, one nibble longer. */
    method DeleteWhenMeetSingleBranch(v: NodeVal, ghost kids: seq<Tree>) returns (hash: Hash)
      requires Ready() && |kids| == 16 && Live(kids) == 1
      requires forall i :: 0 <= i < 16 ==> Holds(kids[i])
      requires Shaped(Branch(kids)) && v == ValOf(h, Branch(kids))
      modifies storage
      ensures Ready() && Grows(old(storage.data), storage.data)
      ensures Holds(Collapse(kids)) && hash == HashOf(h, Collapse(kids))
    {
      var idx := 0;
      while |v[idx]| == 0
        invariant 0 <= idx <= FirstLive(kids)
        decreases 16 - idx
      {
        assert kids[idx].Nil?;
        idx := idx + 1;
      }
      assert idx == FirstLive(kids);
      var fetched := FetchNode(v[idx]);
      var child := fetched.value;
      if KindOf(child) == BranchKind {
        hash := CommitTree([[EXT_FLAG], [idx], v[idx]], Prepend([idx], kids[idx]));
      } else {
        hash := CommitTree(child[1 := [idx] + child[1]], Prepend([idx], kids[idx]));
      }
    }

    method Put(key: Bytes, val: Bytes) returns (r: Result<Hash>)
      requires Valid()
      modifies this, storage
      ensures Valid() && Grows(old(storage.data), storage.data)
      ensures match Update(old(tree), KeyToRoute(key), val)
              case Ok(u) => r == Ok(rootHash) && tree == u
              case Err(e) => r == Err(e) && rootHash == old(rootHash) && tree == old(tree)
      ensures needChangelog == old(needChangelog)
      ensures changelog == old(changelog) + if r.Ok? && needChangelog then [Entry(false, key, val)] else []
      ensures needChangelog ==> forall o :: Logged(o, old(changelog), old(tree)) ==> Logged(o, changelog, tree)
    {
      var route := RouteOf(key);
      r := UpdateAt(rootHash, route, val, tree);
      if r.Err? {
        StoredGrows(h, old(storage.data), storage.data, tree);
        return;
      }
      rootHash := r.value;
      tree := Update(tree, route, val).value;
      if needChangelog {
        LoggedMore(changelog, old(tree), Entry(false, key, val), tree);
        changelog := changelog + [Entry(false, key, val)];
      }
    }

    method Del(key: Bytes) returns (r: Result<Hash>)
      requires Valid()
      modifies this, storage
      ensures Valid() && Grows(old(storage.data), storage.data)
      ensures match Delete(old(tree), KeyToRoute(key))
              case Ok(u) => r == Ok(rootHash) && tree == u
              case Err(e) => r == Err(e) && rootHash == old(rootHash) && tree == old(tree)
      ensures needChangelog == old(needChangelog)
      ensures changelog == old(changelog) + if r.Ok? && needChangelog then [Entry(true, key, [])] else []
      ensures needChangelog ==> forall o :: Logged(o, old(changelog), old(tree)) ==> Logged(o, changelog, tree)
    {
      var route := RouteOf(key);
      r := DelAt(rootHash, route, tree);
      if r.Err? {
        StoredGrows(h, old(storage.data), storage.data, tree);
        return;
      }
      rootHash := r.value;
      tree := Delete(tree, route).value;
      if needChangelog {
        LoggedMore(changelog, old(tree), Entry(true, key, []), tree);
        changelog := changelog + [Entry(true, key, [])];
      }
    }

    method Get(key: Bytes) returns (r: Result<Bytes>)
      requires Valid()
      ensures r == Lookup(tree, KeyToRoute(key))
    {
      var route := RouteOf(key);
      r := GetAt(rootHash, route, tree);
    }

    /** A trie on the same root and store. */
    method Clone() returns (t: Trie)
      requires Valid()
      ensures fresh(t) && t.Valid() && t.h == h && t.storage == storage
      ensures t.rootHash == rootHash && t.tree == tree && t.needChangelog == needChangelog && t.changelog == []
      ensures Logged(tree, t.changelog, t.tree)
    {
      LoggedNone(tree);
      t := new Trie(h, storage, needChangelog);
      t.rootHash, t.tree := rootHash, tree;
    }

    method ReplayEntry(entry: Entry) returns (r: Result<Hash>)
      requires Valid() && !needChangelog
      modifies this, storage
      ensures Valid() && !needChangelog && changelog == old(changelog)
      ensures Grows(old(storage.data), storage.data)
      ensures var s := Step(old(tree), EntryOp(entry));
              (r.Ok? <==> s.Ok?) && (r.Ok? ==> r.value == rootHash && tree == s.value) && (r.Err? ==> tree == old(tree))
    {
      if entry.isDelete {
        r := Del(entry.key);
      } else {
        r := Put(entry.key, entry.update);
      }
    }

    /** Repeat here what `ft` logged, up to the first failure. */
    method Replay(ft: Trie) returns (r: Result<Hash>)
      requires Valid() && ft != this
      modifies this, storage, ft`changelog
      ensures Valid() && needChangelog == old(needChangelog) && changelog == old(changelog)
      ensures Grows(old(storage.data), storage.data)
      ensures var ops := EntryOps(old(ft.changelog)); var done := RunPrefix(old(tree), ops);
              tree == RunTree(old(tree), ops[..done]) &&
              (r.Ok? <==> done == |ops|) &&
              (r.Ok? ==> ft.changelog == [] && (ops != [] ==> r.value == rootHash)) &&
              (r.Err? ==> ft.changelog == old(ft.changelog))
      ensures forall t :: Logged(old(tree), old(ft.changelog), t) ==> r.Ok? && tree == t && rootHash == HashOf(h, t)
    {
      hide RunTree, RunPrefix, Stored, Shaped, HashOf, Logged;
      ReplaysLogged(tree, ft.changelog);
      var need := needChangelog;
      needChangelog := false;
      r := Ok([]);
      var i := 0;
      ghost var ops, start := EntryOps(ft.changelog), tree;
      RunNone(start, ops);
      while i < |ft.changelog|
        invariant 0 <= i <= |ft.changelog| && ft.changelog == old(ft.changelog)
        invariant Valid() && !needChangelog && changelog == old(changelog)
        invariant Grows(old(storage.data), storage.data)
        invariant r.Ok? && (i > 0 ==> r.value == rootHash)
        invariant tree == RunTree(start, ops[..i])
        invariant RunPrefix(start, ops) == i + RunPrefix(tree, ops[i..])
      {
        RunSplit(start, tree, ops, i);
        r := ReplayEntry(ft.changelog[i]);
        if r.Err? {
          needChangelog := need;
          return;
        }
        i := i + 1;
      }
      assert ops[..i] == ops;
      ft.changelog := [];
      needChangelog := need;
    }
  }

  lemma ReplaysLogged(o: Tree, log: seq<Entry>)
    requires Shaped(o)
    ensures forall t :: Logged(o, log, t) ==> RunPrefix(o, EntryOps(log)) == |EntryOps(log)| && RunTree(o, EntryOps(log)) == t
  {
    hide Logged, RunPrefix, RunTree;
    forall t | Logged(o, log, t) ensures RunPrefix(o, EntryOps(log)) == |EntryOps(log)| && RunTree(o, EntryOps(log)) == t { LoggedReplays(o, log, t); }
  }

  lemma RunNone(t: Tree, ops: seq<Op>)
    requires Shaped(t)
    ensures RunTree(t, ops[..0]) == t && ops[0..] == ops
    ensures RunPrefix(t, ops[|ops|..]) == 0
  {
  }

  /** One step further into a history. */
  lemma RunSplit(start: Tree, t: Tree, ops: seq<Op>, i: nat)
    requires Shaped(start) && i < |ops| && t == RunTree(start, ops[..i])
    ensures var r := Step(t, ops[i]);
            RunPrefix(t, ops[i..]) == (if r.Err? then 0 else 1 + RunPrefix(r.value, ops[i + 1..])) &&
            RunTree(start, ops[..i + 1]) == (if r.Ok? then r.value else t)
  {
    assert ops[i..][1..] == ops[i + 1..];
    assert ops[..i + 1] == ops[..i] + [ops[i]];
    RunTreeSnoc(start, ops[..i], ops[i]);
  }

  function EntryOps(log: seq<Entry>): seq<Op>
  {
    seq(|log|, i requires 0 <= i < |log| => EntryOp(log[i]))
  }

  /** How many operations of a history succeed before the first that fails. */
  function RunPrefix(t: Tree, ops: seq<Op>): (k: nat)
    requires Shaped(t)
    ensures k <= |ops|
    decreases |ops|
  {
    if ops == [] then 0
    else
      var r := Step(t, ops[0]);
      if r.Err? then 0 else 1 + RunPrefix(r.value, ops[1..])
  }

  lemma {:induction false} RunTreeSnoc(t: Tree, ops: seq<Op>, op: Op)
    requires Shaped(t)
    ensures RunTree(t, ops + [op]) ==
            var u := RunTree(t, ops); var r := Step(u, op); if r.Ok? then r.value else u
    decreases |ops|
  {
    if ops == [] {
      assert (ops + [op])[1..] == [];
    } else {
      assert (ops + [op])[1..] == ops[1..] + [op];
      var r := Step(t, ops[0]);
      RunTreeSnoc(if r.Ok? then r.value else t, ops[1..], op);
    }
  }
}
