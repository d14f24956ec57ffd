/** `common/dag/dag.go`: the dependency graph of a block. */
module Dag {
  import opened Prelude

  type Key = nat

  datatype Error = KeyNotFound | KeyIsExisted


  datatype Node = Node(index: nat, children: seq<Key>, parentCounter: nat)

  type Nodes = map<Key, Node>

  predicate Edge(g: Nodes, a: Key, b: Key)
  {
    a in g && b in g[a].children
  }

  function Parents(g: Nodes, k: Key): set<Key>
  {
    set p | p in g && k in g[p].children
  }

  /** Children are nodes, listed once, and every node counts its parents. */
  ghost predicate Sound(g: Nodes)
  {
    (forall a, b :: Edge(g, a, b) ==> b in g) &&
    (forall a :: a in g ==> Distinct(g[a].children)) &&
    forall k :: k in g ==> g[k].parentCounter == |Parents(g, k)|
  }

  function NewNode(index: nat): Node { Node(index, [], 0) }

  /** The graph with one more edge. */
  function WithEdge(g: Nodes, a: Key, b: Key): Nodes
    requires a in g && b in g
  {
    var h := g[b := g[b].(parentCounter := g[b].parentCounter + 1)];
    h[a := h[a].(children := g[a].children + [b])]
  }

  lemma WithEdgeEdges(g: Nodes, a: Key, b: Key)
    requires a in g && b in g
    ensures WithEdge(g, a, b).Keys == g.Keys
    ensures forall x, y :: Edge(WithEdge(g, a, b), x, y) <==> Edge(g, x, y) || (x == a && y == b)
  {
  }

  lemma WithEdgeParents(g: Nodes, a: Key, b: Key, k: Key)
    requires a in g && b in g && k in g && !Edge(g, a, b)
    ensures Parents(WithEdge(g, a, b), k) == if k == b then Parents(g, k) + {a} else Parents(g, k)
    ensures |Parents(WithEdge(g, a, b), k)| == |Parents(g, k)| + if k == b then 1 else 0
  {
    hide WithEdge;
    WithEdgeEdges(g, a, b);
    var h := WithEdge(g, a, b);
    assert forall p :: p in Parents(h, k) <==> Edge(h, p, k);
    assert forall p :: p in Parents(g, k) <==> Edge(g, p, k);
  }

  lemma WithEdgeSound(g: Nodes, a: Key, b: Key)
    requires Sound(g) && a in g && b in g && !Edge(g, a, b)
    ensures Sound(WithEdge(g, a, b))
  {
    var h := WithEdge(g, a, b);
    WithEdgeEdges(g, a, b);
    forall k | k in h ensures h[k].parentCounter == |Parents(h, k)| {
      WithEdgeParents(g, a, b, k);
    }
    assert b !in g[a].children;
    hide Edge, Parents;
    forall k | k in h ensures Distinct(h[k].children) {}
  }

  /** `indexs` numbers the nodes from zero up to `index`. */
  ghost predicate Numbered(g: Nodes, index: nat, indexs: map<nat, Key>)
  {
    |g| == index && (forall i: nat :: i in indexs <==> i < index) &&
    (forall i :: i in indexs ==> indexs[i] in g && g[indexs[i]].index == i) &&
    forall k :: k in g ==> g[k].index in indexs && indexs[g[k].index] == k
  }

  lemma WithEdgeNumbered(g: Nodes, a: Key, b: Key, index: nat, indexs: map<nat, Key>)
    requires a in g && b in g && Numbered(g, index, indexs)
    ensures Numbered(WithEdge(g, a, b), index, indexs)
  {
    var h := WithEdge(g, a, b);
    assert forall k :: k in g ==> h[k].index == g[k].index;
  }

  lemma AddNodeNumbered(g: Nodes, key: Key, index: nat, indexs: map<nat, Key>)
    requires key !in g && Numbered(g, index, indexs)
    ensures Numbered(g[key := NewNode(index)], index + 1, indexs[index := key])
  {
    assert forall i :: i in indexs ==> indexs[i] != key;
  }

  method Contains(children: seq<Key>, k: Key) returns (found: bool)
    ensures found <==> k in children
  {
    for i := 0 to |children|
      invariant k !in children[..i]
    {
      if children[i] == k { return true; }
    }
    return false;
  }

  // --- the graph in a block header -------------------------------------------------

  datatype ProtoNode = ProtoNode(index: nat, children: seq<nat>)

  /** `msg` lists the nodes by number, with the numbers of their children in order. */
  ghost predicate Encodes(g: Nodes, indexs: map<nat, Key>, msg: seq<ProtoNode>)
  {
    |msg| == |g| &&
    forall i :: 0 <= i < |msg| ==> i in indexs && indexs[i] in g && msg[i] == ProtoNode(i, Indices(g, g[indexs[i]].children))
  }

  function Indices(g: Nodes, cs: seq<Key>): (r: seq<nat>)
    ensures |r| == |cs|
  {
    seq(|cs|, i requires 0 <= i < |cs| => if cs[i] in g then g[cs[i]].index else 0)
  }

  /** The edges a header's graph stands for. */
  ghost predicate ProtoEdge(msg: seq<ProtoNode>, a: Key, b: Key)
  {
    exists i :: 0 <= i < |msg| && msg[i].index == a && b in msg[i].children
  }

  ghost predicate ProtoNodeOf(msg: seq<ProtoNode>, k: Key)
  {
    exists i :: 0 <= i < |msg| && msg[i].index == k
  }

  class Dag {
    var nodes: Nodes
    var index: nat
    var indexs: map<nat, Key>

    /** Sound, and numbered by `indexs` from zero in order of insertion. */
    ghost predicate Valid()
      reads this
    {
      Sound(nodes) && Numbered(nodes, index, indexs)
    }

    constructor ()
      ensures Valid() && nodes == map[] && index == 0
    {
      nodes, index, indexs := map[], 0, map[];
    }

    method AddNode(key: Key) returns (err: Option<Error>)
      requires Valid()
      modifies this
      ensures Valid()
      ensures key in old(nodes) ==> err == Some(KeyIsExisted) && nodes == old(nodes) && index == old(index)
      ensures key !in old(nodes) ==> err == None && nodes == old(nodes)[key := NewNode(old(index))] && index == old(index) + 1
    {
      hide Sound, Numbered;
      if key in nodes { return Some(KeyIsExisted); }
      AddNodeSound(nodes, key, index);
      AddNodeNumbered(nodes, key, index, indexs);
      nodes := nodes[key := NewNode(index)];
      indexs := indexs[index := key];
      index := index + 1;
      return None;
    }

    method AddNodeWithIndex(key: Key, index: nat) returns (err: Option<Error>)
      requires Sound(nodes)
      modifies this
      ensures Sound(nodes)
      ensures key in old(nodes) ==> err == Some(KeyIsExisted) && nodes == old(nodes) && indexs == old(indexs) && this.index == old(this.index)
      ensures key !in old(nodes) ==> err == None && nodes == old(nodes)[key := NewNode(index)] && indexs == old(indexs)[index := key] && this.index == index
    {
      if key in nodes { return Some(KeyIsExisted); }
      AddNodeSound(nodes, key, index);
      nodes := nodes[key := NewNode(index)];
      indexs := indexs[index := key];
      this.index := index;
      return None;
    }

    method AddEdge(fromKey: Key, toKey: Key) returns (err: Option<Error>)
      requires Sound(nodes)
      modifies this`nodes
      ensures Sound(nodes) && nodes.Keys == old(nodes).Keys && (old(Valid()) ==> Valid())
      ensures fromKey !in nodes || toKey !in nodes ==> err == Some(KeyNotFound)
      ensures fromKey in nodes && toKey in nodes && Edge(old(nodes), fromKey, toKey) ==> err == Some(KeyIsExisted)
      ensures err == None <==> fromKey in nodes && toKey in nodes && !Edge(old(nodes), fromKey, toKey)
      ensures nodes == if err == None then WithEdge(old(nodes), fromKey, toKey) else old(nodes)
    {
      if fromKey !in nodes { return Some(KeyNotFound); }
      if toKey !in nodes { return Some(KeyNotFound); }
      hide Sound, Numbered;
      var children := nodes[fromKey].children;
      var existed := Contains(children, toKey);
      if existed { return Some(KeyIsExisted); }
      WithEdgeSound(nodes, fromKey, toKey);
      if Numbered(nodes, index, indexs) { WithEdgeNumbered(nodes, fromKey, toKey, index, indexs); }
      nodes := nodes[toKey := nodes[toKey].(parentCounter := nodes[toKey].parentCounter + 1)];
      nodes := nodes[fromKey := nodes[fromKey].(children := children + [toKey])];
      return None;
    }
  }

  /** The header graph of a block: nodes by number, children by number. */
  method ToProto(d: Dag) returns (msg: seq<ProtoNode>)
    requires d.Valid()
    ensures Encodes(d.nodes, d.indexs, msg)
  {
    var n := |d.nodes|;
    msg := seq(n, _ => ProtoNode(0, []));
    var todo := d.indexs.Keys;
    while todo != {}
      invariant |msg| == n && todo <= d.indexs.Keys
      invariant forall i :: 0 <= i < n && i !in todo ==> msg[i] == ProtoNode(i, Indices(d.nodes, d.nodes[d.indexs[i]].children))
    {
      var idx :| idx in todo;
      var v := d.nodes[d.indexs[idx]];
      msg := msg[idx := ProtoNode(v.index, Indices(d.nodes, v.children))];
      todo := todo - {idx};
    }
  }

  method AddProtoNodes(d: Dag, msg: seq<ProtoNode>)
    requires d.nodes == map[]
    modifies d
    ensures Sound(d.nodes) && forall k :: k in d.nodes <==> ProtoNodeOf(msg, k)
    ensures forall k :: k in d.nodes ==> d.nodes[k].index == k && d.nodes[k].children == []
  {
    hide ProtoNodeOf;
    NoProto(msg);
    for i := 0 to |msg|
      invariant Sound(d.nodes) && forall k :: k in d.nodes <==> ProtoNodeOf(msg[..i], k)
      invariant forall k :: k in d.nodes ==> d.nodes[k].index == k && d.nodes[k].children == []
    {
      ProtoSnoc(msg, i);
      var _ := d.AddNodeWithIndex(msg[i].index, msg[i].index);
    }
    assert msg[..|msg|] == msg;
  }

  method AddProtoEdges(d: Dag, v: ProtoNode)
    requires Sound(d.nodes) && forall k :: k in d.nodes ==> d.nodes[k].index == k
    modifies d
    ensures Sound(d.nodes) && d.nodes.Keys == old(d.nodes).Keys && forall k :: k in d.nodes ==> d.nodes[k].index == k
    ensures v.index in d.nodes ==> forall a, b :: Edge(d.nodes, a, b) <==>
              Edge(old(d.nodes), a, b) || (a == v.index && b in v.children && b in d.nodes)
  {
    hide Sound;
    for j := 0 to |v.children|
      invariant Sound(d.nodes) && d.nodes.Keys == old(d.nodes).Keys && forall k :: k in d.nodes ==> d.nodes[k].index == k
      invariant v.index in d.nodes ==> forall a, b :: Edge(d.nodes, a, b) <==>
                  Edge(old(d.nodes), a, b) || (a == v.index && b in v.children[..j] && b in d.nodes)
    {
      var c := v.children[j];
      ghost var was := d.nodes;
      if v.index in was && c in was { WithEdgeEdges(was, v.index, c); }
      var err := d.AddEdge(v.index, c);
      assert v.children[..j + 1] == v.children[..j] + [c];
    }
    assert v.children[..|v.children|] == v.children;
  }

  /** Rebuild a graph from a header: keys are numbers; nodes and edges that are refused, because
      they exist already or lead nowhere, are skipped. */
  method FromProto(msg: seq<ProtoNode>) returns (d: Dag)
    ensures fresh(d) && Sound(d.nodes)
    ensures forall k :: k in d.nodes <==> ProtoNodeOf(msg, k)
    ensures forall k :: k in d.nodes ==> d.nodes[k].index == k
    ensures forall a, b :: Edge(d.nodes, a, b) <==> ProtoEdge(msg, a, b) && ProtoNodeOf(msg, b)
  {
    d := new Dag();
    AddProtoNodes(d, msg);
    ghost var keys := d.nodes.Keys;
    assert forall a, b :: !Edge(d.nodes, a, b);
    hide ProtoNodeOf, ProtoEdge, Sound, Edge;
    NoProto(msg);
    for i := 0 to |msg|
      invariant Sound(d.nodes) && d.nodes.Keys == keys && forall k :: k in d.nodes ==> d.nodes[k].index == k
      invariant forall a, b :: Edge(d.nodes, a, b) <==> ProtoEdge(msg[..i], a, b) && b in keys
    {
      ProtoSnoc(msg, i);
      ProtoMember(msg, i);
      AddProtoEdges(d, msg[i]);
    }
    assert msg[..|msg|] == msg;
  }

  lemma ProtoMember(msg: seq<ProtoNode>, i: nat)
    requires i < |msg|
    ensures ProtoNodeOf(msg, msg[i].index)
  {
  }

  lemma NoProto(msg: seq<ProtoNode>)
    ensures forall k :: !ProtoNodeOf(msg[..0], k)
    ensures forall a, b :: !ProtoEdge(msg[..0], a, b)
  {
  }

  /** A header's graph has an edge between two numbers exactly when the block's graph has one
      between the nodes they number. */
  lemma ProtoRoundTrip(g: Nodes, index: nat, indexs: map<nat, Key>, msg: seq<ProtoNode>, i: nat, j: nat)
    requires Sound(g) && Numbered(g, index, indexs) && Encodes(g, indexs, msg) && i < |g| && j < |g|
    ensures ProtoNodeOf(msg, j)
    ensures ProtoEdge(msg, i, j) <==> Edge(g, indexs[i], indexs[j])
  {
    assert msg[j].index == j;
    var cs := g[indexs[i]].children;
    if ProtoEdge(msg, i, j) {
      var k :| 0 <= k < |msg| && msg[k].index == i && j in msg[k].children;
      var c :| 0 <= c < |cs| && Indices(g, cs)[c] == j;
      assert Edge(g, indexs[i], cs[c]);
    }
    if Edge(g, indexs[i], indexs[j]) {
      var c :| 0 <= c < |cs| && cs[c] == indexs[j];
      assert Indices(g, cs)[c] == j;
      assert msg[i].index == i && j in msg[i].children;
    }
  }

  lemma ProtoSnoc(msg: seq<ProtoNode>, i: nat)
    requires i < |msg|
    ensures forall k :: ProtoNodeOf(msg[..i + 1], k) <==> ProtoNodeOf(msg[..i], k) || k == msg[i].index
    ensures forall a, b :: ProtoEdge(msg[..i + 1], a, b) <==> ProtoEdge(msg[..i], a, b) || (a == msg[i].index && b in msg[i].children)
  {
    var p, q := msg[..i], msg[..i + 1];
    assert q == p + [msg[i]];
    forall k ensures ProtoNodeOf(q, k) <==> ProtoNodeOf(p, k) || k == msg[i].index {
      if ProtoNodeOf(p, k) { var j :| 0 <= j < i && p[j].index == k; assert q[j].index == k; }
      if k == msg[i].index { assert q[i].index == k; }
    }
    forall a, b ensures ProtoEdge(q, a, b) <==> ProtoEdge(p, a, b) || (a == msg[i].index && b in msg[i].children) {
      if ProtoEdge(p, a, b) { var j :| 0 <= j < i && p[j].index == a && b in p[j].children; assert q[j] == p[j]; }
      if a == msg[i].index && b in msg[i].children { assert q[i] == msg[i]; }
    }
  }

  lemma AddNodeSound(g: Nodes, key: Key, index: nat)
    requires Sound(g) && key !in g
    ensures Sound(g[key := NewNode(index)])
  {
    var h := g[key := NewNode(index)];
    forall k | k in h ensures h[k].parentCounter == |Parents(h, k)| {
      if k == key {
        forall p | p in Parents(h, k) ensures false { assert Edge(g, p, k); }
        assert Parents(h, k) == {};
      } else {
        assert Parents(h, k) == Parents(g, k);
      }
    }
    forall a, b | Edge(h, a, b) ensures b in h { assert Edge(g, a, b); }
  }

  // --- walks and cycles ------------------------------------------------------------

  /** Consecutive nodes of `p` are joined by edges. */
  ghost predicate Walk(g: Nodes, p: seq<Key>)
  {
    forall i :: 0 <= i < |p| - 1 ==> Edge(g, p[i], p[i + 1])
  }

  ghost predicate IsCycle(g: Nodes, p: seq<Key>)
  {
    |p| >= 2 && p[0] == p[|p| - 1] && Walk(g, p)
  }

  ghost predicate HasCycle(g: Nodes)
  {
    exists p :: IsCycle(g, p)
  }

  ghost predicate Reaches(g: Nodes, a: Key, b: Key)
  {
    exists p :: |p| >= 2 && p[0] == a && p[|p| - 1] == b && Walk(g, p)
  }

  ghost predicate HasParentIn(g: Nodes, u: set<Key>, k: Key)
  {
    exists p :: p in u && Edge(g, p, k)
  }

  lemma ParentIn(g: Nodes, u: set<Key>, k: Key) returns (p: Key)
    requires HasParentIn(g, u, k)
    ensures p in u && Edge(g, p, k)
  {
    p :| p in u && Edge(g, p, k);
  }

  /** A non-empty set in which every node has a parent in the set contains a cycle. */
  lemma StuckHasCycle(g: Nodes, u: set<Key>)
    requires u != {} && forall k :: k in u ==> HasParentIn(g, u, k)
    ensures HasCycle(g)
  {
    hide HasParentIn;
    var k :| k in u;
    WalkBack(g, u, [k]);
  }

  lemma {:induction false} WalkBack(g: Nodes, u: set<Key>, p: seq<Key>)
    requires p != [] && Walk(g, p) && Distinct(p) && forall k :: k in p ==> k in u
    requires forall k :: k in u ==> HasParentIn(g, u, k)
    ensures HasCycle(g)
    decreases |u| - |p|
  {
    hide Edge, HasParentIn;
    assert p[0] in u;
    var q := ParentIn(g, u, p[0]);
    WalkFrom(g, q, p);
    if q in p {
      var i :| 0 <= i < |p| && p[i] == q;
      WalkPrefix(g, [q] + p, i + 2);
      assert IsCycle(g, ([q] + p)[..i + 2]);
    } else {
      var r := [q] + p;
      assert forall k :: k in r ==> k == q || k in p;
      DistinctBound(r, u);
      WalkBack(g, u, r);
    }
  }

  lemma WalkFrom(g: Nodes, q: Key, p: seq<Key>)
    requires p != [] && Walk(g, p) && Edge(g, q, p[0])
    ensures Walk(g, [q] + p)
  {
  }

  lemma WalkPrefix(g: Nodes, p: seq<Key>, n: nat)
    requires Walk(g, p) && n <= |p|
    ensures Walk(g, p[..n])
  {
  }

  /** A list of all nodes in which every parent comes before its children rules cycles out. */
  ghost predicate Topological(g: Nodes, order: seq<Key>)
  {
    (forall k :: k in g ==> k in order) && Distinct(order) &&
    forall i, p :: 0 <= i < |order| && Edge(g, p, order[i]) ==> p in order[..i]
  }

  lemma TopologicalNoCycle(g: Nodes, order: seq<Key>)
    requires Topological(g, order)
    ensures !HasCycle(g)
  {
    if HasCycle(g) {
      var c :| IsCycle(g, c);
      assert Edge(g, c[0], c[1]);
      var i :| 0 <= i < |order| && order[i] == c[0];
      WalkDescends(g, order, c, |c| - 1, i);
    }
  }

  /** A walk that ends at position `i` of the list starts before it. */
  lemma {:induction false} WalkDescends(g: Nodes, order: seq<Key>, p: seq<Key>, n: nat, i: nat)
    requires Topological(g, order) && Walk(g, p) && 0 < n < |p| && i < |order| && p[n] == order[i]
    ensures p[0] in order[..i]
    decreases n
  {
    assert Edge(g, p[n - 1], order[i]);
    if n > 1 {
      var j :| 0 <= j < i && order[j] == p[n - 1];
      WalkDescends(g, order, p, n - 1, j);
    }
  }

  /** What is closed under parents contains everything that reaches it. */
  lemma {:induction false} ClosedUnderReach(g: Nodes, s: set<Key>, p: seq<Key>, n: nat)
    requires Walk(g, p) && n < |p| && p[n] in s
    requires forall a, b :: b in s && Edge(g, a, b) ==> a in s
    ensures p[0] in s
    decreases n
  {
    if n > 0 {
      assert Edge(g, p[n - 1], p[n]);
      ClosedUnderReach(g, s, p, n - 1);
    }
  }
}
