/** The Merkle Patricia trie as a mathematical tree: what `common/trie/trie.go` computes,
    before nodes are hashed and written to the store. */
module TrieTree {

  /** A byte; Go's `byte`. */
  type byte = x: int | 0 <= x < 256

  /** A route element: half a byte. */
  type nibble = x: int | 0 <= x < 16

  type Bytes = seq<byte>
  type Route = seq<nibble>

  /** The errors the trie operations return; `OutOfRange` is Go's index panic on a
      branch reached with an exhausted route. */
  datatype Error = NotFound | TooShort | TooLong | UnknownType | OutOfRange

  datatype Result<+T> = Ok(value: T) | Err(error: Error)

  /** `Nil` stands for the empty hash. */
  datatype Tree =
    | Nil
    | Leaf(path: Route, val: Bytes)
    | Ext(path: Route, child: Tree)
    | Branch(kids: seq<Tree>)

  /** Every branch has sixteen slots. */
  ghost predicate Shaped(t: Tree)
  {
    match t
    case Nil => true
    case Leaf(_, _) => true
    case Ext(_, c) => !c.Nil? && Shaped(c)
    case Branch(kids) => |kids| == 16 && forall i :: 0 <= i < 16 ==> Shaped(kids[i])
  }

  /** Length of the longest common prefix. */
  function Common(a: Route, b: Route): (m: nat)
    ensures m <= |a| && m <= |b|
    ensures a[..m] == b[..m]
    ensures m < |a| && m < |b| ==> a[m] != b[m]
  {
    if a == [] || b == [] || a[0] != b[0] then 0
    else
      var m := 1 + Common(a[1..], b[1..]);
      assert a[..m] == [a[0]] + a[1..][..m - 1];
      assert b[..m] == [b[0]] + b[1..][..m - 1];
      m
  }

  // --- the three operations -------------------------------------------------

  function Lookup(t: Tree, route: Route): Result<Bytes>
    requires Shaped(t)
  {
    match t
    case Nil => Err(NotFound)
    case Leaf(path, val) => if path == route then Ok(val) else Err(NotFound)
    case Ext(path, child) =>
      if route == [] then Err(TooShort)
      else if path <= route then Lookup(child, route[|path|..])
      else Err(NotFound)
    case Branch(kids) =>
      if route == [] then Err(TooShort) else Lookup(kids[route[0]], route[1..])
  }

  function EmptyKids(): seq<Tree> {
    seq(16, i => Nil)
  }

  /** `path` in front of `t`, without ever stacking two extensions or an extension on a leaf. */
  function Prepend(path: Route, t: Tree): Tree
  {
    match t
    case Nil => Nil
    case Leaf(p, v) => Leaf(path + p, v)
    case Ext(p, c) => Ext(path + p, c)
    case Branch(_) => Ext(path, t)
  }

  /** A branch for two subtries that part at different nibbles, below their common path. */
  function Fork(path: Route, i: nibble, a: Tree, j: nibble, b: Tree): Tree
  {
    var br := Branch(EmptyKids()[i := a][j := b]);
    if path == [] then br else Ext(path, br)
  }

  function Update(t: Tree, route: Route, val: Bytes): (r: Result<Tree>)
    requires Shaped(t)
    ensures r.Ok? ==> Shaped(r.value) && !r.value.Nil?
  {
    match t
    case Nil => Ok(Leaf(route, val))
    case Branch(kids) =>
      if route == [] then Err(OutOfRange)
      else
        var sub := Update(kids[route[0]], route[1..], val);
        if sub.Err? then sub else Ok(Branch(kids[route[0] := sub.value]))
    case Ext(path, child) =>
      var m := Common(path, route);
      if |path| > |route| then Err(TooShort)
      else if m == |path| then
        var sub := Update(child, route[m..], val);
        if sub.Err? then sub else Ok(Ext(path, sub.value))
      else
        var rest := if m + 1 < |path| then Ext(path[m + 1..], child) else child;
        Ok(Fork(path[..m], path[m], rest, route[m], Leaf(route[m + 1..], val)))
    case Leaf(path, prev) =>
      var m := Common(path, route);
      if |path| > |route| then Err(TooShort)
      else if m == |path| then
        if |route| > m then Err(TooLong) else Ok(Leaf(path, val))
      else
        Ok(Fork(path[..m], path[m], Leaf(path[m + 1..], prev), route[m], Leaf(route[m + 1..], val)))
  }

  /** How many slots of a branch are in use. */
  function Live(kids: seq<Tree>): nat
  {
    if kids == [] then 0 else (if kids[0].Nil? then 0 else 1) + Live(kids[1..])
  }

  /** The first slot in use. */
  function FirstLive(kids: seq<Tree>): (i: nat)
    requires Live(kids) > 0
    ensures i < |kids| && !kids[i].Nil?
    ensures forall j :: 0 <= j < i ==> kids[j].Nil?
  {
    if !kids[0].Nil? then 0 else 1 + FirstLive(kids[1..])
  }

  /** What a branch becomes after one of its slots has changed. */
  function Collapse(kids: seq<Tree>): (t: Tree)
    requires |kids| == 16
    ensures (forall i :: 0 <= i < 16 ==> Shaped(kids[i])) ==> Shaped(t)
  {
    if Live(kids) == 0 then Nil
    else if Live(kids) == 1 then
      var i := FirstLive(kids);
      Prepend([i], kids[i])
    else Branch(kids)
  }

  lemma PrependShaped(path: Route, t: Tree)
    requires Shaped(t)
    ensures Shaped(Prepend(path, t))
  {
  }

  function Delete(t: Tree, route: Route): (r: Result<Tree>)
    requires Shaped(t)
    ensures r.Ok? ==> Shaped(r.value)
  {
    match t
    case Nil => Err(NotFound)
    case Branch(kids) =>
      if route == [] then Err(OutOfRange)
      else
        var sub := Delete(kids[route[0]], route[1..]);
        if sub.Err? then sub else Ok(Collapse(kids[route[0] := sub.value]))
    case Ext(path, child) =>
      if Common(path, route) != |path| then Err(NotFound)
      else
        var sub := Delete(child, route[|path|..]);
        if sub.Err? then sub
        else
          PrependShaped(path, sub.value);
          Ok(Prepend(path, sub.value))
    case Leaf(path, _) =>
      if Common(path, route) != |path| then Err(NotFound) else Ok(Nil)
  }
}
