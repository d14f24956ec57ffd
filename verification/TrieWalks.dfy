/** Prefix iteration and its two users: the dynasty and the events of a transaction. */
module TrieWalks {
  import opened TrieTree
  import opened TrieCanonical
  import opened TrieStore
  import opened TrieEntries
  import opened TrieIterator
  import opened Trie

  // --- the subtrie below a prefix ----------------------------------------------------

  /** A subtrie and the route that leads to it. */
  datatype Sub = Sub(t: Tree, route: Route)

  /** The subtrie that holds exactly the keys with prefix `p`; it may be `Nil`. */
  function SubTrie(t: Tree, p: Route): (r: Result<Sub>)
    requires Shaped(t)
    ensures r.Ok? ==> Shaped(r.value.t)
    decreases t
  {
    if p == [] then Ok(Sub(t, []))
    else match t
      case Nil => Err(NotFound)
      case Leaf(path, _) => if p <= path then Ok(Sub(t, [])) else Err(NotFound)
      case Ext(path, c) =>
        if Common(path, p) != |path| && Common(path, p) != |p| then Err(NotFound)
        else Below(path, SubTrie(c, p[Common(path, p)..]))
      case Branch(kids) => Below([p[0]], SubTrie(kids[p[0]], p[1..]))
  }

  function Below(path: Route, r: Result<Sub>): Result<Sub>
  {
    if r.Err? then r else Ok(Sub(r.value.t, path + r.value.route))
  }

  /** The entries a subtrie stands for. */
  ghost function SubEntries(r: Result<Sub>): seq<Pair>
    requires r.Ok? ==> Shaped(r.value.t)
  {
    if r.Err? then [] else Prefixed(r.value.route, EntriesOf(r.value.t))
  }

  lemma {:induction false} BranchMember(t: Tree, i: nat, k: Route, v: Bytes)
    requires Shaped(t) && t.Branch? && i <= 16
    ensures Pair(k, v) in EntriesFrom(t, i) <==> k != [] && k[0] >= i && Pair(k[1..], v) in EntriesOf(t.kids[k[0]])
    decreases 16 - i
  {
    if i < 16 {
      PrefixedExact([i], EntriesOf(t.kids[i]), k, v);
      BranchMember(t, i + 1, k, v);
      assert [i] <= k <==> k != [] && k[0] == i;
    }
  }

  lemma SubEntriesBelow(path: Route, r: Result<Sub>)
    requires r.Ok? ==> Shaped(r.value.t)
    ensures SubEntries(Below(path, r)) == Prefixed(path, SubEntries(r))
  {
    if r.Ok? { PrefixedTwice(path, r.value.route, EntriesOf(r.value.t)); }
  }

  /** A prefix against a path: how the rest of the prefix meets the rest of the key. */
  lemma PrefixPastPath(path: Route, p: Route, k: Route)
    requires path <= k
    ensures p <= k <==> (Common(path, p) == |path| || Common(path, p) == |p|) && p[Common(path, p)..] <= k[|path|..]
  {
  }

  /** The subtrie holds exactly the entries whose key has the prefix. */
  lemma {:induction false} SubTrieExact(t: Tree, p: Route, k: Route, v: Bytes)
    requires Shaped(t)
    ensures Pair(k, v) in SubEntries(SubTrie(t, p)) <==> Pair(k, v) in EntriesOf(t) && p <= k
    decreases t
  {
    if p == [] {
      PrefixedExact([], EntriesOf(t), k, v);
      assert k[0..] == k;
    } else {
      match t
      case Nil =>
      case Leaf(path, val) =>
        PrefixedExact([], EntriesOf(t), k, v);
        assert k[0..] == k;
      case Ext(path, c) =>
        var m := Common(path, p);
        PrefixedExact(path, EntriesOf(c), k, v);
        if path <= k {
          PrefixPastPath(path, p, k);
          SubTrieExact(c, p[m..], k[|path|..], v);
        }
        SubEntriesBelow(path, SubTrie(c, p[m..]));
        PrefixedExact(path, SubEntries(SubTrie(c, p[m..])), k, v);
      case Branch(kids) =>
        BranchMember(t, 0, k, v);
        SubEntriesBelow([p[0]], SubTrie(kids[p[0]], p[1..]));
        PrefixedExact([p[0]], SubEntries(SubTrie(kids[p[0]], p[1..])), k, v);
        if [p[0]] <= k {
          SubTrieExact(kids[p[0]], p[1..], k[1..], v);
          assert p <= k <==> p[1..] <= k[1..] by { assert p == [p[0]] + p[1..] && k == [k[0]] + k[1..]; }
        }
    }
  }

  lemma SubEntriesAscending(t: Tree, p: Route)
    requires Shaped(t)
    ensures Ascending(SubEntries(SubTrie(t, p)))
  {
    var r := SubTrie(t, p);
    if r.Ok? {
      EntriesAscending(r.value.t);
      AscendingPrefixed(r.value.route, EntriesOf(r.value.t));
    }
  }

  // --- Iterator --------------------------------------------------------------------

  /** The entries of `t` whose key has prefix `p`, in ascending key order: the specification
      of prefix iteration, which fixes the sequence. */
  ghost predicate IsPrefixScan(t: Tree, p: Route, es: seq<Pair>)
    requires Shaped(t)
  {
    Ascending(es) && forall e :: e in es <==> e in EntriesOf(t) && p <= e.key
  }

  lemma SubTrieScan(t: Tree, p: Route)
    requires Shaped(t)
    ensures IsPrefixScan(t, p, SubEntries(SubTrie(t, p)))
  {
    SubEntriesAscending(t, p);
    forall e ensures e in SubEntries(SubTrie(t, p)) <==> e in EntriesOf(t) && p <= e.key {
      SubTrieExact(t, p, e.key, e.val);
    }
  }

  lemma ScanUnique(t: Tree, p: Route, es: seq<Pair>, fs: seq<Pair>)
    requires Shaped(t) && IsPrefixScan(t, p, es) && IsPrefixScan(t, p, fs)
    ensures es == fs
  {
    AscendingUnique(es, fs);
  }

  /** One node further towards a prefix: the next hash, the piece of route it adds, and how much
      of the prefix is left; or no key has the prefix. */
  method TowardsPrefix(h: Hasher, v: NodeVal, hash: Hash, p: Route, ghost t: Tree)
    returns (next: Hash, piece: Route, rest: Route, found: bool, ghost sub: Tree)
    requires Shaped(t) && !t.Nil? && v == ValOf(h, t) && hash == HashOf(h, t) && p != []
    ensures !found ==> SubTrie(t, p) == Err(NotFound)
    ensures found ==> Shaped(sub) && (sub == t || sub < t) && (sub == t ==> rest == []) && next == HashOf(h, sub)
    ensures found ==> (t.Ext? ==> sub == t.child) && (t.Branch? ==> sub == t.kids[p[0]]) && (t.Leaf? ==> sub == t)
    ensures found ==> SubTrie(t, p) == Below(piece, SubTrie(sub, rest))
  {
    next, piece, rest, found, sub := [], [], [], false, t;
    match KindOf(v)
    case BranchKind =>
      next, piece, rest, found := v[p[0]], [p[0]], p[1..], true;
      sub := t.kids[p[0]];
    case ExtKind =>
      var path: Route := v[1];
      var matchLen := PrefixLen(path, p);
      if matchLen != |path| && matchLen != |p| { return; }
      next, piece, rest, found := v[2], path, p[matchLen..], true;
      sub := t.child;
    case LeafKind =>
      var path: Route := v[1];
      var matchLen := PrefixLen(path, p);
      if matchLen != |path| && matchLen != |p| { return; }
      if |p[matchLen..]| > 0 { return; }
      next, rest, found := hash, p[matchLen..], true;
      assert SubTrie(t, rest) == Ok(Sub(t, [])) && piece + [] == [];
    case UnknownKind =>
  }

  /** The hash of the subtrie below a prefix and the route to it, walking down from the root. */
  method GetSubTrie(trie: Trie, prefix: Bytes) returns (hash: Hash, route: Route, found: bool)
    requires trie.Valid()
    ensures var r := SubTrie(trie.tree, KeyToRoute(prefix));
            (found <==> r.Ok?) &&
            (found ==> hash == HashOf(trie.h, r.value.t) && route == r.value.route && trie.Holds(r.value.t))
  {
    hash, route := trie.rootHash, [];
    var curRoute := RouteOf(prefix);
    ghost var cur := trie.tree;
    ghost var spec := SubTrie(trie.tree, KeyToRoute(prefix));
    assert spec.Ok? ==> [] + spec.value.route == spec.value.route;
    while |curRoute| > 0
      invariant trie.Holds(cur) && hash == HashOf(trie.h, cur)
      invariant spec == Below(route, SubTrie(cur, curRoute))
      decreases cur, |curRoute|
    {
      var fetched := trie.FetchNode(hash);
      if fetched.Err? { return [], [], false; }
      var next, piece, rest, more, sub := TowardsPrefix(trie.h, fetched.value, hash, curRoute, cur);
      if !more { return [], [], false; }
      BelowTwice(route, piece, SubTrie(sub, rest));
      hash, route, curRoute := next, route + piece, rest;
      cur := sub;
    }
    found := true;
  }

  lemma BelowTwice(p: Route, q: Route, r: Result<Sub>)
    ensures Below(p, Below(q, r)) == Below(p + q, r)
  {
    if r.Ok? { assert p + (q + r.value.route) == p + q + r.value.route; }
  }

  /** The subtrie of a canonical tree is canonical. */
  lemma {:induction false} SubTrieCanon(t: Tree, p: Route, n: nat)
    requires Canon(t, n) && Shaped(t) && SubTrie(t, p).Ok?
    ensures var r := SubTrie(t, p).value; |r.route| <= n && Canon(r.t, n - |r.route|)
    decreases t
  {
    if p != [] {
      match t
      case Nil =>
      case Leaf(_, _) =>
      case Ext(path, c) => SubTrieCanon(c, p[Common(path, p)..], n - |path|);
      case Branch(kids) => SubTrieCanon(kids[p[0]], p[1..], n - 1);
    }
  }

  lemma EntriesInhabited(t: Tree, n: nat)
    requires Canon(t, n) && Shaped(t)
    ensures EntriesOf(t) == [] <==> t.Nil?
  {
    if !t.Nil? {
      var k := Inhabited(t, n);
      EntriesExact(t, n, k, Lookup(t, k).value);
    }
  }

  /** A frame over a whole subtrie is all its entries. */
  lemma WholeFrame(t: Tree, n: nat, route: Route, pos: int)
    requires Canon(t, n) && Shaped(t) && !t.Nil?
    requires t.Branch? ==> 0 <= pos < 16 && !t.kids[pos].Nil? && forall k :: 0 <= k < pos ==> t.kids[k].Nil?
    ensures FrameOk(Frame(t, pos, route))
    ensures Rest([Frame(t, pos, route)]) == Prefixed(route, EntriesOf(t))
  {
    CanonFull(t, n);
    if t.Branch? { SkipNil(t, 0, pos); }
    var fs := [Frame(t, pos, route)];
    assert fs[..0] == [];
    assert Rest(fs[..0]) == [];
  }

  /** Where to start in the root node of an iteration: its first live slot, if it is a branch. */
  method StartPos(ghost h: Hasher, node: NodeVal, ghost t: Tree, ghost n: nat) returns (pos: int)
    requires Sound(h) && Canon(t, n) && Shaped(t) && !t.Nil? && node == ValOf(h, t)
    ensures t.Branch? ==> 0 <= pos < 16 && !t.kids[pos].Nil? && forall k :: 0 <= k < pos ==> t.kids[k].Nil?
  {
    var valid := ValidElements(0, node);
    pos := -1;
    if |valid| > 0 { pos := valid[0]; }
    if t.Branch? {
      SlotsMirror(h, t);
      CanonFull(t, n);
      var k :| 0 <= k < 16 && !t.kids[k].Nil?;
      assert k in valid;
      FirstValid(t, node, 0, valid);
    }
  }

  /** Iteration over the keys with a prefix: refused exactly when there are none, and otherwise
      an iterator that has exactly those entries to deliver, in ascending order. */
  method NewIterator(trie: Trie, prefix: Bytes, ghost n: nat) returns (it: Iterator?)
    requires trie.Valid() && Canon(trie.tree, n)
    ensures it == null <==> SubEntries(SubTrie(trie.tree, KeyToRoute(prefix))) == []
    ensures it != null ==> fresh(it) && it.Valid() && it.root == trie && FramesOk(it.frames)
    ensures it != null ==> Rest(it.frames) == SubEntries(SubTrie(trie.tree, KeyToRoute(prefix)))
  {
    ghost var spec := SubTrie(trie.tree, KeyToRoute(prefix));
    var hash, route, found := GetSubTrie(trie, prefix);
    if !found { return null; }
    ghost var sub := spec.value.t;
    SubTrieCanon(trie.tree, KeyToRoute(prefix), n);
    EntriesInhabited(sub, n - |route|);
    var fetched := trie.FetchNode(hash);
    if fetched.Err? { return null; }
    var node := fetched.value;
    hide Stored, Addressed, Canon, SubTrie;
    var pos := StartPos(trie.h, node, sub, n - |route|);
    WholeFrame(sub, n - |route|, route, pos);
    it := new Iterator(trie, node, pos, route, sub);
  }

  /** Run an iterator dry. */
  method Drain(it: Iterator) returns (es: seq<Pair>)
    requires it.Valid() && FramesOk(it.frames)
    modifies it`stack, it`bufs, it`frames, it`key, it`value
    ensures es == old(Rest(it.frames))
  {
    hide Rest, Pending, FramesOk, FrameOk;
    es := [];
    ghost var all := Rest(it.frames);
    var exist := it.Next();
    while exist
      invariant it.Valid() && FramesOk(it.frames)
      invariant exist ==> it.InRange(it.key) && es + ([Pair(it.Content(it.key), it.value)] + Rest(it.frames)) == all
      invariant !exist ==> es == all
      decreases |all| - |es|, exist
    {
      es := es + [Pair(it.Content(it.key), it.value)];
      exist := it.Next();
    }
  }

  /** All entries whose key has the prefix, each once, in ascending key order. */
  method Scan(trie: Trie, prefix: Bytes, ghost n: nat) returns (es: seq<Pair>)
    requires trie.Valid() && Canon(trie.tree, n)
    ensures IsPrefixScan(trie.tree, KeyToRoute(prefix), es)
  {
    SubTrieScan(trie.tree, KeyToRoute(prefix));
    var it := NewIterator(trie, prefix, n);
    if it == null { return []; }
    es := Drain(it);
  }

  // --- the dynasty -----------------------------------------------------------------

  function Values(es: seq<Pair>): (vs: seq<Bytes>)
    ensures |vs| == |es|
  {
    seq(|es|, i requires 0 <= i < |es| => es[i].val)
  }

  /** The members of a dynasty trie, in ascending order of their keys. */
  method TraverseDynasty(dynasty: Trie, ghost n: nat) returns (members: seq<Bytes>)
    requires dynasty.Valid() && Canon(dynasty.tree, n)
    ensures forall es :: IsPrefixScan(dynasty.tree, [], es) ==> members == Values(es)
    ensures exists es :: IsPrefixScan(dynasty.tree, [], es) && members == Values(es)
  {
    var es := Scan(dynasty, [], n);
    members := Values(es);
    forall fs | IsPrefixScan(dynasty.tree, [], fs) ensures members == Values(fs) {
      ScanUnique(dynasty.tree, [], es, fs);
    }
  }

  // --- events ----------------------------------------------------------------------

  /** The last `w` bytes of `n`, big end first. */
  function BigEndian(n: nat, w: nat): (bs: Bytes)
    ensures |bs| == w
  {
    if w == 0 then [] else BigEndian(n / 256, w - 1) + [n % 256]
  }

  function EventKey(txHash: Bytes, cnt: nat): Bytes
  {
    txHash + BigEndian(cnt, 8)
  }

  function Pow256(w: nat): nat { if w == 0 then 1 else 256 * Pow256(w - 1) }

  lemma {:induction false} KeyToRouteConcat(a: Bytes, b: Bytes)
    ensures KeyToRoute(a + b) == KeyToRoute(a) + KeyToRoute(b)
    decreases |b|
  {
    if b == [] {
      assert a + b == a;
    } else {
      var n := |b| - 1;
      KeyToRouteConcat(a, b[..n]);
      assert (a + b)[..|a + b| - 1] == a + b[..n];
    }
  }

  lemma {:induction false} LessExtend(a: Route, b: Route, x: Route, y: Route)
    requires |a| == |b| && Less(a, b)
    ensures Less(a + x, b + y)
    decreases |a|
  {
    assert (a + x)[1..] == a[1..] + x && (b + y)[1..] == b[1..] + y;
    if a[0] == b[0] { LessExtend(a[1..], b[1..], x, y); }
  }

  /** Big-endian order is numeric order. */
  lemma {:induction false} BigEndianLess(i: nat, j: nat, w: nat)
    requires i < j < Pow256(w)
    ensures Less(KeyToRoute(BigEndian(i, w)), KeyToRoute(BigEndian(j, w)))
    decreases w
  {
    var a, b := BigEndian(i / 256, w - 1), BigEndian(j / 256, w - 1);
    var x: byte, y: byte := i % 256, j % 256;
    KeyToRouteConcat(a, [x]);
    KeyToRouteConcat(b, [y]);
    LastByte(x);
    LastByte(y);
    if i / 256 < j / 256 {
      BigEndianLess(i / 256, j / 256, w - 1);
      LessExtend(KeyToRoute(a), KeyToRoute(b), KeyToRoute([x]), KeyToRoute([y]));
    } else {
      HalvesLess(x, y);
      LessPrefixed(KeyToRoute(a), [Hi(x), Lo(x)], [Hi(y), Lo(y)]);
    }
  }

  lemma LastByte(x: byte)
    ensures KeyToRoute([x]) == [Hi(x), Lo(x)]
  {
  }

  lemma HalvesLess(x: byte, y: byte)
    requires x < y
    ensures Less([Hi(x), Lo(x)], [Hi(y), Lo(y)])
  {
  }

  /** The number eight bytes stand for, most significant first. */
  function NumberOf(b: Bytes): nat
  {
    if b == [] then 0 else 256 * NumberOf(b[..|b| - 1]) + b[|b| - 1]
  }

  lemma {:induction false} BigEndianIs(n: nat, w: nat)
    requires n < Pow256(w)
    ensures |BigEndian(n, w)| == w && NumberOf(BigEndian(n, w)) == n
    decreases w
  {
    if w > 0 {
      BigEndianIs(n / 256, w - 1);
      var b := BigEndian(n, w);
      assert b[..w - 1] == BigEndian(n / 256, w - 1);
    }
  }

  /** The key of the event numbered `n` is the hash followed by the number in eight bytes; numbers start at one. */
  lemma EventKeyIs(txHash: Bytes, n: nat)
    requires n < Pow256(8)
    ensures var k := EventKey(txHash, n); |k| == |txHash| + 8 && k[..|txHash|] == txHash && NumberOf(k[|txHash|..]) == n
    ensures n > 0 ==> EventRoute(txHash, n - 1) == KeyToRoute(EventKey(txHash, n))
  {
    hide NumberOf, BigEndian, KeyToRoute;
    BigEndianIs(n, 8);
  }

  function EventRoute(txHash: Bytes, i: nat): Route { KeyToRoute(EventKey(txHash, i + 1)) }

  /** The event entries of a transaction, numbered from one. */
  function EventPairs(txHash: Bytes, events: seq<Bytes>): (es: seq<Pair>)
    ensures |es| == |events|
    ensures forall i :: 0 <= i < |events| ==> es[i] == Pair(EventRoute(txHash, i), events[i])
  {
    seq(|events|, i requires 0 <= i < |events| => Pair(EventRoute(txHash, i), events[i]))
  }

  lemma EventPairsAscending(txHash: Bytes, events: seq<Bytes>)
    requires |events| < Pow256(8)
    ensures Ascending(EventPairs(txHash, events))
  {
    var es := EventPairs(txHash, events);
    forall i, j | 0 <= i < j < |events|
      ensures Less(es[i].key, es[j].key)
    {
      BigEndianLess(i + 1, j + 1, 8);
      KeyToRouteConcat(txHash, BigEndian(i + 1, 8));
      KeyToRouteConcat(txHash, BigEndian(j + 1, 8));
      LessPrefixed(KeyToRoute(txHash), KeyToRoute(BigEndian(i + 1, 8)), KeyToRoute(BigEndian(j + 1, 8)));
    }
  }

  /** `m` with the events of a transaction added. */
  ghost predicate Recorded(m: KeyMap, txHash: Bytes, events: seq<Bytes>, f: KeyMap)
  {
    (forall r :: r in f <==> r in m || IsEventRoute(txHash, |events|, r)) &&
    (forall i :: 0 <= i < |events| ==> EventRoute(txHash, i) in f && f[EventRoute(txHash, i)] == events[i]) &&
    forall r :: r in m && !IsEventRoute(txHash, |events|, r) ==> r in f && f[r] == m[r]
  }

  ghost predicate IsEventRoute(txHash: Bytes, n: nat, r: Route)
  {
    exists i :: 0 <= i < n && EventRoute(txHash, i) == r
  }

  lemma EventRouteFresh(txHash: Bytes, i: nat, j: nat)
    requires i < j && j + 1 < Pow256(8)
    ensures EventRoute(txHash, i) != EventRoute(txHash, j)
  {
    BigEndianLess(i + 1, j + 1, 8);
    KeyToRouteConcat(txHash, BigEndian(i + 1, 8));
    KeyToRouteConcat(txHash, BigEndian(j + 1, 8));
    LessPrefixed(KeyToRoute(txHash), KeyToRoute(BigEndian(i + 1, 8)), KeyToRoute(BigEndian(j + 1, 8)));
    LessIrreflexive(EventRoute(txHash, i));
  }

  lemma RecordedNone(m: KeyMap, txHash: Bytes, events: seq<Bytes>)
    requires events == []
    ensures Recorded(m, txHash, events, m)
  {
  }

  lemma RecordedStep(m: KeyMap, txHash: Bytes, events: seq<Bytes>, f: KeyMap, e: Bytes)
    requires Recorded(m, txHash, events, f) && |events| + 1 < Pow256(8)
    ensures Recorded(m, txHash, events + [e], f[EventRoute(txHash, |events|) := e])
  {
    var all := events + [e];
    var g := f[EventRoute(txHash, |events|) := e];
    forall i | 0 <= i < |all| ensures EventRoute(txHash, i) in g && g[EventRoute(txHash, i)] == all[i] {
      if i < |events| { EventRouteFresh(txHash, i, |events|); }
    }
    forall r ensures r in g <==> r in m || IsEventRoute(txHash, |all|, r) {
      if r == EventRoute(txHash, |events|) { assert IsEventRoute(txHash, |all|, r); }
    }
    forall r | r in m && !IsEventRoute(txHash, |all|, r) ensures r in g && g[r] == m[r] {
      assert EventRoute(txHash, |events|) != r && !IsEventRoute(txHash, |events|, r);
    }
  }

  /** Write a transaction's events to the events trie. */
  method ReplayEvents(trie: Trie, txHash: Bytes, events: seq<Bytes>, ghost n: nat, ghost m: KeyMap)
    returns (ghost f: KeyMap)
    requires trie.Valid() && Represents(trie.tree, n, m)
    requires n == 2 * (|txHash| + 8) && |events| + 1 < Pow256(8)
    modifies trie, trie.storage
    ensures trie.Valid() && Represents(trie.tree, n, f) && Recorded(m, txHash, events, f)
  {
    hide Represents, Recorded, Stored, Addressed;
    f := m;
    RecordedNone(m, txHash, events[..0]);
    for idx := 0 to |events|
      invariant trie.Valid() && Represents(trie.tree, n, f) && Recorded(m, txHash, events[..idx], f)
    {
      RecordedStep(m, txHash, events[..idx], f, events[idx]);
      assert events[..idx] + [events[idx]] == events[..idx + 1];
      UpdateRepresents(trie.tree, n, f, EventRoute(txHash, idx), events[idx]);
      var r := trie.Put(EventKey(txHash, idx + 1), events[idx]);
      f := f[EventRoute(txHash, idx) := events[idx]];
    }
    assert events[..|events|] == events;
  }

  /** The events of a transaction, by prefix iteration. */
  method FetchEvents(trie: Trie, txHash: Bytes, ghost n: nat) returns (events: seq<Bytes>)
    requires trie.Valid() && Canon(trie.tree, n)
    ensures forall es :: IsPrefixScan(trie.tree, KeyToRoute(txHash), es) ==> events == Values(es)
    ensures exists es :: IsPrefixScan(trie.tree, KeyToRoute(txHash), es) && events == Values(es)
  {
    var es := Scan(trie, txHash, n);
    events := Values(es);
    forall fs | IsPrefixScan(trie.tree, KeyToRoute(txHash), fs) ensures events == Values(fs) {
      ScanUnique(trie.tree, KeyToRoute(txHash), es, fs);
    }
  }

  /** In an events trie where a transaction had no events before, the scan for its hash is its
      recorded events in recording order. */
  lemma EventsScan(t: Tree, n: nat, m: KeyMap, txHash: Bytes, events: seq<Bytes>, f: KeyMap)
    requires Shaped(t) && Represents(t, n, f) && Recorded(m, txHash, events, f)
    requires |events| < Pow256(8)
    requires forall r :: r in m ==> !(KeyToRoute(txHash) <= r)
    ensures IsPrefixScan(t, KeyToRoute(txHash), EventPairs(txHash, events))
  {
    hide EntriesOf, KeyToRoute, EventPairs, Represents, Recorded, Pow256, Ascending;
    EventPairsAscending(txHash, events);
    forall e ensures e in EventPairs(txHash, events) <==> e in EntriesOf(t) && KeyToRoute(txHash) <= e.key {
      EntriesOfMap(t, n, f, e);
      EventMember(m, txHash, events, f, e);
    }
  }

  /** The entries of a tree are those of its map. */
  lemma EntriesOfMap(t: Tree, n: nat, m: KeyMap, e: Pair)
    requires Shaped(t) && Represents(t, n, m)
    ensures e in EntriesOf(t) <==> e.key in m && m[e.key] == e.val
  {
    EntriesExact(t, n, e.key, e.val);
  }

  lemma EventMember(m: KeyMap, txHash: Bytes, events: seq<Bytes>, f: KeyMap, e: Pair)
    requires Recorded(m, txHash, events, f)
    requires forall r :: r in m ==> !(KeyToRoute(txHash) <= r)
    ensures e in EventPairs(txHash, events) <==> e.key in f && f[e.key] == e.val && KeyToRoute(txHash) <= e.key
  {
    hide KeyToRoute, EventPairs, EventRoute;
    var es := EventPairs(txHash, events);
    if e in es {
      var i :| 0 <= i < |es| && es[i] == e;
      EventRoutePrefix(txHash, i);
    }
    if e.key in f && f[e.key] == e.val && KeyToRoute(txHash) <= e.key {
      assert IsEventRoute(txHash, |events|, e.key);
      var i :| 0 <= i < |events| && EventRoute(txHash, i) == e.key;
      assert es[i] == e;
    }
  }

  lemma EventRoutePrefix(txHash: Bytes, i: nat)
    ensures KeyToRoute(txHash) <= EventRoute(txHash, i)
  {
    KeyToRouteConcat(txHash, BigEndian(i + 1, 8));
  }

  /** Recording then fetching gives a transaction's events back, in recording order. */
  method RecordAndFetch(trie: Trie, txHash: Bytes, events: seq<Bytes>, ghost n: nat, ghost m: KeyMap)
    returns (fetched: seq<Bytes>)
    requires trie.Valid() && Represents(trie.tree, n, m)
    requires n == 2 * (|txHash| + 8) && |events| + 1 < Pow256(8)
    requires forall r :: r in m ==> !(KeyToRoute(txHash) <= r)
    modifies trie, trie.storage
    ensures trie.Valid() && fetched == events
  {
    hide IsPrefixScan, Recorded;
    ghost var f := ReplayEvents(trie, txHash, events, n, m);
    EventsScan(trie.tree, n, m, txHash, events, f);
    fetched := FetchEvents(trie, txHash, n);
    assert Values(EventPairs(txHash, events)) == events;
  }
}
