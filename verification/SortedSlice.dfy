/** A slice kept sorted by binary insertion. */
module SortedSlice {
  import opened Prelude

  /** The comparison is a total preorder: negative, zero or positive. */
  ghost predicate Ordering<T(!new)>(cmp: (T, T) -> int)
  {
    (forall a, b :: cmp(a, b) > 0 <==> cmp(b, a) < 0) &&
    (forall a, b, c :: cmp(a, b) <= 0 && cmp(b, c) <= 0 ==> cmp(a, c) <= 0)
  }

  ghost predicate Sorted<T(!new)>(cmp: (T, T) -> int, s: seq<T>)
  {
    forall i, j :: 0 <= i < j < |s| ==> cmp(s[i], s[j]) <= 0
  }

  /** The binary search ends at a place where `val` fits. */
  method Insert<T(!new)>(content: seq<T>, cmp: (T, T) -> int, val: T) returns (r: seq<T>, ghost at: nat)
    requires Ordering(cmp) && Sorted(cmp, content)
    ensures at <= |content| && r == content[..at] + [val] + content[at..] && Sorted(cmp, r)
  {
    hide Ordering, Sorted;
    if |content| == 0 {
      Between(content, cmp, val, 0, 0);
      return [val], 0;
    }
    var start, end := 0, |content| - 1;
    var result, mid := 0, 0;
    while start <= end
      invariant 0 <= start <= end + 1 <= |content|
      invariant forall i :: 0 <= i < start ==> cmp(content[i], val) < 0
      invariant forall i :: end < i < |content| ==> cmp(content[i], val) > 0
      invariant (start == 0 && end == |content| - 1) ||
                (0 <= mid < |content| && ((result > 0 && end == mid - 1) || (result < 0 && start == mid + 1)))
      decreases end - start
    {
      mid := (start + end) / 2;
      result := cmp(content[mid], val);
      if result > 0 {
        Above(content, cmp, val, mid);
        end := mid - 1;
      } else if result < 0 {
        Below(content, cmp, val, mid);
        start := mid + 1;
      } else {
        Between(content, cmp, val, mid, mid + 1);
        return content[..mid + 1] + [val] + content[mid + 1..], mid + 1;
      }
    }
    Between(content, cmp, val, start, start);
    if result > 0 {
      return content[..mid] + [val] + content[mid..], mid;
    }
    return content[..mid + 1] + [val] + content[mid + 1..], mid + 1;
  }

  lemma Flip<T(!new)>(cmp: (T, T) -> int, a: T, b: T)
    requires Ordering(cmp)
    ensures (cmp(a, b) > 0 <==> cmp(b, a) < 0) && (cmp(a, b) < 0 <==> cmp(b, a) > 0)
  {
  }

  lemma Chain<T(!new)>(cmp: (T, T) -> int, a: T, b: T, c: T)
    requires Ordering(cmp)
    ensures cmp(a, b) <= 0 && cmp(b, c) <= 0 ==> cmp(a, c) <= 0
  {
  }

  lemma SortedAt<T(!new)>(cmp: (T, T) -> int, s: seq<T>, i: nat, j: nat)
    requires Sorted(cmp, s) && i < j < |s|
    ensures cmp(s[i], s[j]) <= 0
  {
  }

  lemma Above<T(!new)>(s: seq<T>, cmp: (T, T) -> int, val: T, mid: nat)
    requires Ordering(cmp) && Sorted(cmp, s) && mid < |s| && cmp(s[mid], val) > 0
    ensures forall i :: mid <= i < |s| ==> cmp(s[i], val) > 0
  {
  }

  lemma Below<T(!new)>(s: seq<T>, cmp: (T, T) -> int, val: T, mid: nat)
    requires Ordering(cmp) && Sorted(cmp, s) && mid < |s| && cmp(s[mid], val) < 0
    ensures forall i :: 0 <= i <= mid ==> cmp(s[i], val) < 0
  {
  }

  /** Splicing `val` in at `at` keeps the order when what is before `low` is below and the rest not below. */
  lemma Between<T(!new)>(s: seq<T>, cmp: (T, T) -> int, val: T, low: nat, at: nat)
    requires Ordering(cmp) && Sorted(cmp, s) && low <= at <= |s| && at <= low + 1
    requires if low < at then cmp(s[low], val) == 0
             else (forall i :: 0 <= i < low ==> cmp(s[i], val) < 0) && forall i :: low <= i < |s| ==> cmp(s[i], val) > 0
    ensures Sorted(cmp, s[..at] + [val] + s[at..])
  {
    hide Ordering, Sorted;
    forall i | 0 <= i < |s| ensures if i < at then cmp(s[i], val) <= 0 else cmp(val, s[i]) <= 0 {
      Flip(cmp, s[i], val);
      if low < at {
        Flip(cmp, s[low], val);
        if i < low { SortedAt(cmp, s, i, low); Chain(cmp, s[i], s[low], val); }
        if i > low { SortedAt(cmp, s, low, i); Chain(cmp, val, s[low], s[i]); }
      }
    }
    SortedSplice(cmp, s, val, at);
  }

  lemma SortedSplice<T(!new)>(cmp: (T, T) -> int, s: seq<T>, val: T, at: nat)
    requires Sorted(cmp, s) && at <= |s|
    requires forall i :: 0 <= i < |s| ==> if i < at then cmp(s[i], val) <= 0 else cmp(val, s[i]) <= 0
    ensures Sorted(cmp, s[..at] + [val] + s[at..])
  {
  }

  lemma SplicedSet<T(!new)>(s: seq<T>, val: T, at: nat)
    requires at <= |s|
    ensures ToSet(s[..at] + [val] + s[at..]) == ToSet(s) + {val}
    ensures Distinct(s) && val !in s ==> Distinct(s[..at] + [val] + s[at..])
  {
  }

  /** Removes the first occurrence, by identity. */
  method Remove<T(==, !new)>(content: seq<T>, val: T) returns (r: seq<T>, ghost at: nat)
    ensures val !in content ==> r == content
    ensures val in content ==> at < |content| && content[at] == val && val !in content[..at] && r == content[..at] + content[at + 1..]
  {
    at := 0;
    for k := 0 to |content|
      invariant val !in content[..k]
    {
      if content[k] == val {
        return content[..k] + content[k + 1..], k;
      }
    }
    return content, 0;
  }

  lemma SortedWithout<T(!new)>(cmp: (T, T) -> int, s: seq<T>, at: nat)
    requires Sorted(cmp, s) && at < |s|
    ensures Sorted(cmp, s[..at] + s[at + 1..])
  {
  }

  lemma RemovedSet<T(!new)>(cmp: (T, T) -> int, s: seq<T>, at: nat)
    requires Sorted(cmp, s) && Distinct(s) && at < |s|
    ensures Sorted(cmp, s[..at] + s[at + 1..]) && Distinct(s[..at] + s[at + 1..])
    ensures ToSet(s[..at] + s[at + 1..]) == ToSet(s) - {s[at]}
  {
  }

  class Slice<T(==, !new)> {
    var content: seq<T>
    const cmp: (T, T) -> int

    ghost predicate Valid()
      reads this
    {
      Ordering(cmp) && Sorted(cmp, content)
    }

    constructor (cmp: (T, T) -> int)
      requires Ordering(cmp)
      ensures Valid() && content == [] && this.cmp == cmp
    {
      this.cmp, content := cmp, [];
    }

    method Push(val: T) returns (ghost at: nat)
      requires Valid()
      modifies this
      ensures Valid() && at <= |old(content)| && content == old(content)[..at] + [val] + old(content)[at..]
    {
      content, at := Insert(content, cmp, val);
    }

    /** Takes out a least value. */
    method PopLeft() returns (r: Option<T>)
      requires Valid()
      modifies this
      ensures Valid()
      ensures old(content) == [] ==> r == None && content == []
      ensures old(content) != [] ==> r.Some? && old(content) == [r.value] + content && forall x :: x in old(content) ==> x == r.value || cmp(r.value, x) <= 0
    {
      if |content| > 0 {
        r := Some(content[0]);
        content := content[1..];
      } else {
        r := None;
      }
    }

    /** Takes out a greatest value. */
    method PopRight() returns (r: Option<T>)
      requires Valid()
      modifies this
      ensures Valid()
      ensures old(content) == [] ==> r == None && content == []
      ensures old(content) != [] ==> r.Some? && old(content) == content + [r.value] && forall x :: x in old(content) ==> x == r.value || cmp(x, r.value) <= 0
    {
      if |content| > 0 {
        r := Some(content[|content| - 1]);
        content := content[..|content| - 1];
      } else {
        r := None;
      }
    }

    method Del(val: T)
      requires Valid()
      modifies this
      ensures Valid() && multiset(content) == multiset(old(content)) - multiset{val}
    {
      hide Ordering;
      var r, at := Remove(content, val);
      if val in content {
        SortedWithout(cmp, content, at);
        assert content == content[..at] + [val] + content[at + 1..];
      }
      content := r;
    }
  }
}
