/** The iterator: an explicit stack of branch positions whose routes are Go slices that may
    share backing arrays, so that appending to one can overwrite bytes behind another. */
module TrieIterator {
  import opened TrieTree
  import opened TrieCanonical
  import opened TrieStore
  import opened TrieEntries
  import opened Trie

  /** No empty branch anywhere: what iteration needs of a tree. */
  ghost predicate Full(t: Tree)
  {
    match t
    case Nil => false
    case Leaf(_, _) => true
    case Ext(_, c) => Full(c)
    case Branch(kids) =>
      |kids| == 16 && (exists i :: 0 <= i < 16 && !kids[i].Nil?) &&
      forall i :: 0 <= i < 16 && !kids[i].Nil? ==> Full(kids[i])
  }

  lemma {:induction false} CanonFull(t: Tree, n: nat)
    requires Canon(t, n) && !t.Nil?
    ensures Full(t)
    decreases t
  {
    match t
    case Leaf(_, _) =>
    case Ext(_, c) => CanonFull(c, n - |t.path|);
    case Branch(kids) =>
      var i := FirstLive(kids);
      assert !kids[i].Nil?;
      forall i | 0 <= i < 16 && !kids[i].Nil? ensures Full(kids[i]) { CanonFull(kids[i], n - 1); }
  }

  /** A subtrie still to be visited: from slot `pos` if it is a branch, under route `route`. */
  datatype Frame = Frame(t: Tree, pos: int, route: Route)

  ghost predicate FrameOk(f: Frame)
  {
    Shaped(f.t) && Full(f.t) && (f.t.Branch? ==> 0 <= f.pos < 16 && exists i :: f.pos <= i < 16 && !f.t.kids[i].Nil?)
  }

  ghost function Pending(f: Frame): seq<Pair>
    requires FrameOk(f)
  {
    Prefixed(f.route, if f.t.Branch? then EntriesFrom(f.t, f.pos) else EntriesOf(f.t))
  }

  ghost predicate FramesOk(fs: seq<Frame>)
  {
    forall i :: 0 <= i < |fs| ==> FrameOk(fs[i])
  }

  /** What a stack of frames, top last, still has to deliver. */
  ghost function Rest(fs: seq<Frame>): seq<Pair>
    requires FramesOk(fs)
  {
    if fs == [] then [] else Pending(fs[|fs| - 1]) + Rest(fs[..|fs| - 1])
  }

  // --- one step down ---------------------------------------------------------------

  lemma PrefixedTwice(p: Route, q: Route, es: seq<Pair>)
    ensures Prefixed(p, Prefixed(q, es)) == Prefixed(p + q, es)
  {
    forall i | 0 <= i < |es| ensures Prefixed(p, Prefixed(q, es))[i] == Prefixed(p + q, es)[i] {
      assert p + (q + es[i].key) == p + q + es[i].key;
    }
  }

  lemma PrefixedConcat(p: Route, es: seq<Pair>, fs: seq<Pair>)
    ensures Prefixed(p, es + fs) == Prefixed(p, es) + Prefixed(p, fs)
  {
  }

  /** Empty slots hold no entries. */
  lemma {:induction false} SkipNil(t: Tree, i: nat, j: nat)
    requires Shaped(t) && t.Branch? && i <= j <= 16
    requires forall k :: i <= k < j ==> t.kids[k].Nil?
    ensures EntriesFrom(t, i) == EntriesFrom(t, j)
    decreases j - i
  {
    if i < j {
      SkipNil(t, i + 1, j);
      assert EntriesFrom(t, i) == EntriesFrom(t, i + 1);
    }
  }

  /** A branch is its first live slot from `pos` on, then the slots after it. */
  lemma DescendBranch(f: Frame, i: nat)
    requires FrameOk(f) && f.t.Branch? && f.pos <= i < 16 && !f.t.kids[i].Nil?
    requires forall k :: f.pos <= k < i ==> f.t.kids[k].Nil?
    ensures FrameOk(Frame(f.t.kids[i], 0, f.route + [i]))
    ensures Pending(f) == Pending(Frame(f.t.kids[i], 0, f.route + [i])) + Prefixed(f.route, EntriesFrom(f.t, i + 1))
  {
    SkipNil(f.t, f.pos, i);
    PrefixedConcat(f.route, Prefixed([i], EntriesOf(f.t.kids[i])), EntriesFrom(f.t, i + 1));
    PrefixedTwice(f.route, [i], EntriesOf(f.t.kids[i]));
  }

  lemma DescendExt(f: Frame)
    requires FrameOk(f) && f.t.Ext?
    ensures FrameOk(Frame(f.t.child, 0, f.route + f.t.path))
    ensures Pending(f) == Pending(Frame(f.t.child, 0, f.route + f.t.path))
  {
    PrefixedTwice(f.route, f.t.path, EntriesOf(f.t.child));
  }

  // --- slices ----------------------------------------------------------------------

  /** A Go slice: the first `len` elements of backing array `buf`. */
  datatype Slice = Slice(buf: nat, len: nat)

  datatype State = State(node: NodeVal, pos: int, route: Slice)

  /** The slots from `offset` on that are in use. */
  method ValidElements(offset: int, v: NodeVal) returns (valid: seq<nat>)
    ensures KindOf(v) != BranchKind ==> valid == []
    ensures KindOf(v) == BranchKind && 0 <= offset <= 16 ==>
              (forall i :: 0 <= i < |valid| ==> offset <= valid[i] < 16 && v[valid[i]] != []) &&
              (forall i, j :: 0 <= i < j < |valid| ==> valid[i] < valid[j]) &&
              (forall k :: offset <= k < 16 && v[k] != [] ==> k in valid)
  {
    valid := [];
    if KindOf(v) != BranchKind || offset < 0 { return; }
    var i := offset;
    while i < 16
      invariant offset <= i && (offset <= 16 ==> i <= 16)
      invariant forall j :: 0 <= j < |valid| ==> offset <= valid[j] < i && valid[j] < 16 && v[valid[j]] != []
      invariant forall j, k :: 0 <= j < k < |valid| ==> valid[j] < valid[k]
      invariant forall k :: offset <= k < i && k < 16 && v[k] != [] ==> k in valid
    {
      if |v[i]| > 0 { valid := valid + [i]; }
      i := i + 1;
    }
  }

  class Iterator {
    const root: Trie
    var stack: seq<State>
    var key: Slice
    var value: Bytes

    /** The backing arrays. */
    var bufs: seq<Route>

    /** The subtries on the stack and their intended routes. */
    ghost var frames: seq<Frame>

    constructor (root: Trie, node: NodeVal, pos: int, route: Route, ghost t: Tree)
      requires root.Ready() && root.Holds(t) && FrameOk(Frame(t, pos, route)) && node == ValOf(root.h, t)
      ensures Valid() && this.root == root && frames == [Frame(t, pos, route)]
    {
      var spare: nat :| true;
      this.root, bufs := root, [route + seq(spare, _ => 0)];
      stack, frames := [State(node, pos, Slice(0, |route|))], [Frame(t, pos, route)];
      key, value := Slice(0, 0), [];
    }

    ghost predicate InRange(s: Slice)
      reads this`bufs
    {
      s.buf < |bufs| && s.len <= |bufs[s.buf]|
    }

    function Content(s: Slice): Route
      requires s.buf < |bufs| && s.len <= |bufs[s.buf]|
      reads this`bufs
    {
      bufs[s.buf][..s.len]
    }

    ghost predicate Mirrors(s: State, f: Frame)
      reads this, root, root.storage
    {
      FrameOk(f) && root.Holds(f.t) && s.node == ValOf(root.h, f.t) && s.pos == f.pos &&
      InRange(s.route) && Content(s.route) == f.route
    }

    /** The stack mirrors its frames, and the routes get longer towards the top. */
    ghost predicate Valid()
      reads this, root, root.storage
    {
      root.Ready() && |stack| == |frames| &&
      (forall i :: 0 <= i < |stack| ==> Mirrors(stack[i], frames[i])) &&
      forall i, j :: 0 <= i < j < |stack| ==> stack[i].route.len <= stack[j].route.len
    }

    /** Go's `append`: in place when the backing array has room behind the slice, else into a
        new array. No slice that is at most as long as `s` sees a change. */
    method Append(s: Slice, xs: Route) returns (r: Slice)
      requires InRange(s)
      modifies this`bufs
      ensures InRange(r) && r.len == s.len + |xs| && Content(r) == old(Content(s)) + xs
      ensures forall q: Slice :: old(InRange(q)) && q.len <= s.len ==> InRange(q) && Content(q) == old(Content(q))
      ensures r.buf == if s.len + |xs| <= |old(bufs)[s.buf]| then s.buf else |old(bufs)|
    {
      var buf := bufs[s.buf];
      if s.len + |xs| <= |buf| {
        bufs := bufs[s.buf := buf[..s.len] + xs + buf[s.len + |xs|..]];
        r := Slice(s.buf, s.len + |xs|);
      } else {
        var spare: nat :| true;
        r := Slice(|bufs|, s.len + |xs|);
        bufs := bufs + [buf[..s.len] + xs + seq(spare, _ => 0)];
      }
      assert Content(r) == buf[..s.len] + xs;
    }

    /** Nothing on the stack is longer than `len`. */
    ghost predicate Deepest(len: nat)
      reads this`stack
    {
      forall i :: 0 <= i < |stack| ==> stack[i].route.len <= len
    }

    /** Lengthen the current route, the longest there is; the stack does not notice. */
    method Extend(route: Slice, xs: Route) returns (r: Slice)
      requires Valid() && InRange(route) && Deepest(route.len)
      modifies this`bufs
      ensures Valid() && InRange(r) && Deepest(r.len) && Content(r) == old(Content(route)) + xs
    {
      hide FrameOk, Stored, Sound, Addressed;
      r := Append(route, xs);
    }

    method Push(s: State, ghost f: Frame)
      requires Valid() && Mirrors(s, f) && Deepest(s.route.len)
      modifies this`stack, this`frames
      ensures Valid() && Deepest(s.route.len) && FramesOk(frames)
      ensures FrameOk(f) && frames == old(frames) + [f] && Rest(frames) == Pending(f) + old(Rest(frames))
    {
      hide FrameOk, Pending, Stored, Sound, Addressed;
      stack := stack + [s];
      frames := frames + [f];
      assert frames[..|frames| - 1] == old(frames);
    }

    method FetchChild(hash: Hash, ghost t: Tree) returns (v: NodeVal)
      requires root.Ready() && root.Holds(t) && !t.Nil? && hash == HashOf(root.h, t)
      ensures v == ValOf(root.h, t)
    {
      var fetched := root.FetchNode(hash);
      v := fetched.value;
    }

    /** The first two live slots from `pos` on, `j` being 16 when there is only one. */
    method LiveSlotsFrom(s: State, ghost cur: Frame) returns (i: nibble, j: nat)
      requires root.Ready() && Mirrors(s, cur) && cur.t.Branch?
      ensures j <= 16 && |cur.t.kids| == |s.node| == 16
      ensures FrameOk(Frame(cur.t.kids[i], 0, cur.route + [i])) && root.Holds(cur.t.kids[i])
      ensures !cur.t.kids[i].Nil? && s.node[i] == HashOf(root.h, cur.t.kids[i])
      ensures j < 16 ==> FrameOk(Frame(cur.t, j, cur.route))
      ensures Pending(cur) == Pending(Frame(cur.t.kids[i], 0, cur.route + [i])) +
                              if j < 16 then Pending(Frame(cur.t, j, cur.route)) else []
    {
      var valid := ValidElements(s.pos, s.node);
      SlotsMirror(root.h, cur.t);
      hide Stored, Sound, Addressed;
      SplitBranch(cur, s.node, valid);
      hide Full, FrameOk, Pending;
      i, j := valid[0], if |valid| > 1 then valid[1] else 16;
      KidStored(root.h, root.storage.data, cur.t, i);
    }

    /** Into the first live slot from `pos`, leaving the later ones on the stack. */
    method IntoBranch(s: State, ghost cur: Frame) returns (s': State, ghost cur': Frame)
      requires Valid() && Mirrors(s, cur) && Deepest(s.route.len) && cur.t.Branch?
      modifies this`stack, this`bufs, this`frames
      ensures Valid() && Mirrors(s', cur') && Deepest(s'.route.len) && cur'.t < cur.t && s'.pos == 0
      ensures Pending(cur') + Rest(frames) == Pending(cur) + old(Rest(frames))
    {
      hide Pending, Rest, FrameOk, Stored, Sound, Addressed, Full, Shaped, HashOf, ValOf;
      var i, j := LiveSlotsFrom(s, cur);
      if j < 16 { Push(State(s.node, j, s.route), Frame(cur.t, j, cur.route)); }
      var route := Extend(s.route, [i]);
      cur' := Frame(cur.t.kids[i], 0, cur.route + [i]);
      var v := FetchChild(s.node[i], cur'.t);
      s' := State(v, 0, route);
    }

    method IntoExt(s: State, ghost cur: Frame) returns (s': State, ghost cur': Frame)
      requires Valid() && Mirrors(s, cur) && Deepest(s.route.len) && cur.t.Ext?
      modifies this`bufs
      ensures Valid() && Mirrors(s', cur') && Deepest(s'.route.len) && cur'.t < cur.t
      ensures Pending(cur') == Pending(cur)
    {
      DescendExt(cur);
      hide Pending, FrameOk, Sound, Addressed, Full;
      var route := Extend(s.route, s.node[1]);
      cur' := Frame(cur.t.child, 0, cur.route + cur.t.path);
      var v := FetchChild(s.node[2], cur'.t);
      s' := State(v, 0, route);
    }

    method Pop() returns (s: State, ghost f: Frame)
      requires Valid() && |stack| > 0
      modifies this`stack, this`frames
      ensures Valid() && Mirrors(s, f) && Deepest(s.route.len) && FramesOk(frames)
      ensures old(Rest(frames)) == Pending(f) + Rest(frames)
    {
      s, f := stack[|stack| - 1], frames[|frames| - 1];
      stack, frames := stack[..|stack| - 1], frames[..|frames| - 1];
    }

    /** Down to the leaf of the next entry. */
    method Descend(s0: State, ghost cur0: Frame) returns (s: State, ghost cur: Frame)
      requires Valid() && Mirrors(s0, cur0) && Deepest(s0.route.len)
      modifies this`stack, this`bufs, this`frames
      ensures Valid() && Mirrors(s, cur) && Deepest(s.route.len) && cur.t.Leaf?
      ensures Pending(cur) + Rest(frames) == Pending(cur0) + old(Rest(frames))
    {
      hide Pending, Rest, Stored, Sound, Addressed, Full, Shaped, HashOf, ValOf, FrameOk;
      s, cur := s0, cur0;
      FrameKind(root.h, cur);
      while KindOf(s.node) != LeafKind
        invariant Valid() && Mirrors(s, cur) && Deepest(s.route.len)
        invariant Pending(cur) + Rest(frames) == Pending(cur0) + old(Rest(frames))
        decreases cur.t
      {
        FrameKind(root.h, cur);
        if KindOf(s.node) == BranchKind {
          s, cur := IntoBranch(s, cur);
        } else {
          s, cur := IntoExt(s, cur);
        }
      }
      FrameKind(root.h, cur);
    }

    /** Deliver the next entry off a stack that is not empty. */
    method Take()
      requires Valid() && |stack| > 0
      modifies this`stack, this`bufs, this`frames, this`key, this`value
      ensures Valid() && FramesOk(frames) && InRange(key)
      ensures [Pair(Content(key), value)] + Rest(frames) == old(Rest(frames))
    {
      hide Pending, Rest, Stored, Sound, Addressed, Full, Shaped, HashOf, ValOf, FrameOk;
      var s;
      ghost var cur;
      s, cur := Pop();
      s, cur := Descend(s, cur);
      FrameKind(root.h, cur);
      PendingLeaf(cur);
      value := s.node[2];
      key := Extend(s.route, s.node[1]);
    }

    /** Deliver the next entry, in order; no entry is left exactly when the stack is empty. */
    method Next() returns (found: bool)
      requires Valid()
      modifies this`stack, this`bufs, this`frames, this`key, this`value
      ensures Valid() && FramesOk(frames)
      ensures found <==> old(Rest(frames)) != []
      ensures found ==> InRange(key) && [Pair(Content(key), value)] + Rest(frames) == old(Rest(frames))
      ensures !found ==> frames == []
    {
      if |stack| == 0 { return false; }
      hide Pending, Rest, Stored, Sound, Addressed, Full, Shaped, HashOf, ValOf, FrameOk;
      Take();
      found := true;
    }
  }

  lemma KidStored(h: Hasher, st: Store, t: Tree, i: nibble)
    requires Shaped(t) && t.Branch? && Stored(h, st, t)
    ensures |t.kids| == 16 && Shaped(t.kids[i]) && Stored(h, st, t.kids[i]) && ValOf(h, t)[i] == HashOf(h, t.kids[i])
  {
  }

  lemma FrameKind(h: Hasher, f: Frame)
    requires FrameOk(f)
    ensures f.t.Branch? <==> KindOf(ValOf(h, f.t)) == BranchKind
    ensures f.t.Ext? <==> KindOf(ValOf(h, f.t)) == ExtKind
    ensures f.t.Leaf? <==> KindOf(ValOf(h, f.t)) == LeafKind
    ensures f.t.Leaf? ==> ValOf(h, f.t) == [[LEAF_FLAG], f.t.path, f.t.val]
    ensures !f.t.Nil?
  {
  }

  lemma PendingLeaf(f: Frame)
    requires FrameOk(f) && f.t.Leaf?
    ensures Pending(f) == [Pair(f.route + f.t.path, f.t.val)]
  {
  }

  /** A branch frame split at its first listed slot. */
  lemma SplitBranch(f: Frame, v: NodeVal, valid: seq<nat>)
    requires FrameOk(f) && f.t.Branch? && |v| == 16
    requires forall i :: 0 <= i < 16 ==> (v[i] == [] <==> f.t.kids[i].Nil?)
    requires forall i :: 0 <= i < |valid| ==> f.pos <= valid[i] < 16 && v[valid[i]] != []
    requires forall i, j :: 0 <= i < j < |valid| ==> valid[i] < valid[j]
    requires forall k :: f.pos <= k < 16 && v[k] != [] ==> k in valid
    ensures |valid| > 0 && FrameOk(Frame(f.t.kids[valid[0]], 0, f.route + [valid[0]]))
    ensures |valid| > 1 ==> FrameOk(Frame(f.t, valid[1], f.route))
    ensures Pending(f) == Pending(Frame(f.t.kids[valid[0]], 0, f.route + [valid[0]])) +
                          if |valid| > 1 then Pending(Frame(f.t, valid[1], f.route)) else []
  {
    var k :| f.pos <= k < 16 && !f.t.kids[k].Nil?;
    assert k in valid;
    FirstValid(f.t, v, f.pos, valid);
    var i := valid[0];
    DescendBranch(f, i);
    if |valid| > 1 {
      SkipNil(f.t, i + 1, valid[1]);
    } else {
      SkipNil(f.t, i + 1, 16);
    }
  }

  lemma SlotsMirror(h: Hasher, t: Tree)
    requires Sound(h) && Shaped(t) && t.Branch?
    ensures forall i :: 0 <= i < 16 ==> (ValOf(h, t)[i] == [] <==> t.kids[i].Nil?)
  {
  }

  /** The listed slots are the first live ones. */
  lemma FirstValid(t: Tree, v: NodeVal, pos: int, valid: seq<nat>)
    requires t.Branch? && |t.kids| == 16 && |v| == 16 && 0 <= pos <= 16 && |valid| > 0
    requires forall i :: 0 <= i < 16 ==> (v[i] == [] <==> t.kids[i].Nil?)
    requires forall i :: 0 <= i < |valid| ==> pos <= valid[i] < 16 && v[valid[i]] != []
    requires forall i, j :: 0 <= i < j < |valid| ==> valid[i] < valid[j]
    requires forall k :: pos <= k < 16 && v[k] != [] ==> k in valid
    ensures !t.kids[valid[0]].Nil? && forall k :: pos <= k < valid[0] ==> t.kids[k].Nil?
    ensures |valid| > 1 ==> !t.kids[valid[1]].Nil? && forall k :: valid[0] < k < valid[1] ==> t.kids[k].Nil?
    ensures |valid| == 1 ==> forall k :: valid[0] < k < 16 ==> t.kids[k].Nil?
  {
  }
}
