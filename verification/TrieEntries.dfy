/** The entries of a trie in key order: the meaning of `common/trie/iterator.go`. */
module TrieEntries {
  import opened TrieTree
  import opened TrieCanonical

  datatype Pair = Pair(key: Route, val: Bytes)

  /** Put `path` in front of every key. */
  function Prefixed(path: Route, es: seq<Pair>): (ps: seq<Pair>)
    ensures |ps| == |es|
    ensures forall i :: 0 <= i < |es| ==> ps[i] == Pair(path + es[i].key, es[i].val)
  {
    seq(|es|, i requires 0 <= i < |es| => Pair(path + es[i].key, es[i].val))
  }

  /** All entries of a tree, slot by slot. */
  function EntriesOf(t: Tree): seq<Pair>
    requires Shaped(t)
    decreases t, 17
  {
    match t
    case Nil => []
    case Leaf(path, val) => [Pair(path, val)]
    case Ext(path, c) => Prefixed(path, EntriesOf(c))
    case Branch(_) => EntriesFrom(t, 0)
  }

  /** The entries of a branch from slot `i` on. */
  function EntriesFrom(t: Tree, i: nat): seq<Pair>
    requires Shaped(t) && t.Branch? && i <= 16
    decreases t, 16 - i
  {
    if i == 16 then [] else Prefixed([i], EntriesOf(t.kids[i])) + EntriesFrom(t, i + 1)
  }

  /** Lexicographic order on routes. */
  predicate Less(a: Route, b: Route)
  {
    b != [] && (a == [] || a[0] < b[0] || (a[0] == b[0] && Less(a[1..], b[1..])))
  }

  ghost predicate Ascending(es: seq<Pair>)
  {
    forall i, j :: 0 <= i < j < |es| ==> Less(es[i].key, es[j].key)
  }

  lemma {:induction false} LessPrefixed(path: Route, a: Route, b: Route)
    ensures Less(path + a, path + b) <==> Less(a, b)
  {
    if path == [] {
      assert path + a == a && path + b == b;
    } else {
      assert (path + a)[1..] == path[1..] + a && (path + b)[1..] == path[1..] + b;
      LessPrefixed(path[1..], a, b);
    }
  }

  lemma {:induction false} LessTrans(a: Route, b: Route, c: Route)
    requires Less(a, b) && Less(b, c)
    ensures Less(a, c)
    decreases |b|
  {
    if a != [] && a[0] == b[0] && b[0] == c[0] { LessTrans(a[1..], b[1..], c[1..]); }
  }

  lemma {:induction false} LessIrreflexive(a: Route)
    ensures !Less(a, a)
  {
    if a != [] { LessIrreflexive(a[1..]); }
  }

  lemma AscendingPrefixed(path: Route, es: seq<Pair>)
    requires Ascending(es)
    ensures Ascending(Prefixed(path, es))
  {
    var ps := Prefixed(path, es);
    forall i, j | 0 <= i < j < |es| ensures Less(ps[i].key, ps[j].key) {
      LessPrefixed(path, es[i].key, es[j].key);
    }
  }

  /** The iterator's order is ascending key order. */
  lemma {:induction false} EntriesAscending(t: Tree)
    requires Shaped(t)
    ensures Ascending(EntriesOf(t))
    decreases t, 17
  {
    match t
    case Nil =>
    case Leaf(_, _) =>
    case Ext(path, c) => EntriesAscending(c); AscendingPrefixed(path, EntriesOf(c));
    case Branch(_) => EntriesFromAscending(t, 0);
  }

  lemma {:induction false} EntriesFromAscending(t: Tree, i: nat)
    requires Shaped(t) && t.Branch? && i <= 16
    ensures Ascending(EntriesFrom(t, i))
    ensures forall p :: p in EntriesFrom(t, i) ==> p.key != [] && p.key[0] >= i
    decreases t, 16 - i
  {
    if i < 16 {
      var hd, tl := Prefixed([i], EntriesOf(t.kids[i])), EntriesFrom(t, i + 1);
      EntriesAscending(t.kids[i]);
      AscendingPrefixed([i], EntriesOf(t.kids[i]));
      EntriesFromAscending(t, i + 1);
      var all := hd + tl;
      forall a, b | 0 <= a < b < |all| ensures Less(all[a].key, all[b].key) {
        if a < |hd| <= b { assert tl[b - |hd|] in tl; }
      }
    }
  }

  /** The entries are exactly the keys that are present, with their values. */
  lemma {:induction false} EntriesExact(t: Tree, n: nat, k: Route, v: Bytes)
    requires Canon(t, n) && Shaped(t)
    ensures Pair(k, v) in EntriesOf(t) <==> |k| == n && Lookup(t, k) == Ok(v)
    decreases t, 17
  {
    match t
    case Nil =>
    case Leaf(_, _) =>
    case Ext(path, c) =>
      PrefixedExact(path, EntriesOf(c), k, v);
      if path <= k { EntriesExact(c, n - |path|, k[|path|..], v); }
    case Branch(kids) => EntriesFromExact(t, n, 0, k, v);
  }

  lemma PrefixedExact(path: Route, es: seq<Pair>, k: Route, v: Bytes)
    ensures Pair(k, v) in Prefixed(path, es) <==> path <= k && Pair(k[|path|..], v) in es
  {
    var ps := Prefixed(path, es);
    if Pair(k, v) in ps {
      var i :| 0 <= i < |ps| && ps[i] == Pair(k, v);
      assert k[|path|..] == es[i].key;
    }
    if path <= k && Pair(k[|path|..], v) in es {
      var i :| 0 <= i < |es| && es[i] == Pair(k[|path|..], v);
      assert k == path + es[i].key;
      assert ps[i] == Pair(k, v);
    }
  }

  lemma {:induction false} EntriesFromExact(t: Tree, n: nat, i: nat, k: Route, v: Bytes)
    requires Canon(t, n) && Shaped(t) && t.Branch? && i <= 16
    ensures Pair(k, v) in EntriesFrom(t, i) <==> |k| == n && k[0] >= i && Lookup(t, k) == Ok(v)
    decreases t, 16 - i
  {
    if i < 16 {
      PrefixedExact([i], EntriesOf(t.kids[i]), k, v);
      EntriesFromExact(t, n, i + 1, k, v);
      if [i] <= k { EntriesExact(t.kids[i], n - 1, k[1..], v); }
      assert k != [] && k[0] == i <==> [i] <= k;
    }
  }

  /** A strictly ascending sequence is determined by its set of elements. */
  lemma {:induction false} AscendingUnique(es: seq<Pair>, fs: seq<Pair>)
    requires Ascending(es) && Ascending(fs)
    requires forall p :: p in es <==> p in fs
    ensures es == fs
    decreases |es|
  {
    assert fs == [] || fs[0] in fs;
    if es != [] {
      assert es[0] in fs;
      assert fs[0] in es;
      HeadsAgree(es, fs);
      forall p ensures p in es[1..] <==> p in fs[1..] {
        TailMember(es, p);
        TailMember(fs, p);
      }
      AscendingUnique(es[1..], fs[1..]);
      assert es == [es[0]] + es[1..] && fs == [fs[0]] + fs[1..];
    }
  }

  lemma HeadsAgree(es: seq<Pair>, fs: seq<Pair>)
    requires Ascending(es) && Ascending(fs) && es != [] && fs != []
    requires es[0] in fs && fs[0] in es
    ensures es[0] == fs[0]
  {
    var i :| 0 <= i < |fs| && fs[i] == es[0];
    var j :| 0 <= j < |es| && es[j] == fs[0];
    if i > 0 && j > 0 {
      LessTrans(es[0].key, es[j].key, fs[i].key);
      LessIrreflexive(es[0].key);
    }
  }

  lemma TailMember(es: seq<Pair>, p: Pair)
    requires Ascending(es) && es != []
    ensures p in es[1..] <==> p in es && p != es[0]
  {
    if p in es[1..] {
      var i :| 1 <= i < |es| && es[i] == p;
      LessIrreflexive(p.key);
    }
    if p in es && p != es[0] {
      var i :| 0 <= i < |es| && es[i] == p;
      assert es[1..][i - 1] == p;
    }
  }
}
