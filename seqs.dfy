/** Sequence helpers: Python's stable `sorted(..., key=...)` over tuple keys,
    list comprehensions with a condition, and flattening a list of lists. */
module Seqs {

  /** A sort key. Python compares the tuples it sorts by lexicographically;
      every key the core sorts by has at most three numeric components. */
  datatype Key = Key(a: real, b: real, c: real)

  predicate KeyLe(k: Key, l: Key)
  {
    k.a < l.a || (k.a == l.a && (k.b < l.b || (k.b == l.b && k.c <= l.c)))
  }

  lemma KeyLeTotal(k: Key, l: Key)
    ensures KeyLe(k, l) || KeyLe(l, k)
  {
  }

  lemma KeyLeTransitive(k: Key, l: Key, m: Key)
    requires KeyLe(k, l) && KeyLe(l, m)
    ensures KeyLe(k, m)
  {
  }

  predicate SortedBy<T>(s: seq<T>, key: T -> Key)
  {
    forall i, j :: 0 <= i < j < |s| ==> KeyLe(key(s[i]), key(s[j]))
  }

  /** Inserts `x` before the first element whose key is not below its own, so
      an element keeps its place relative to later elements with an equal key. */
  function Insert<T>(x: T, s: seq<T>, key: T -> Key): (r: seq<T>)
    ensures multiset(r) == multiset(s) + multiset{x}
    ensures forall j :: 0 <= j < |r| ==> r[j] == x || r[j] in s
  {
    if s == [] || KeyLe(key(x), key(s[0])) then [x] + s
    else
      assert s == [s[0]] + s[1..];
      [s[0]] + Insert(x, s[1..], key)
  }

  /** Inserting into a sorted sequence keeps it sorted. */
  lemma {:induction false} InsertSorted<T>(x: T, s: seq<T>, key: T -> Key)
    requires SortedBy(s, key)
    ensures SortedBy(Insert(x, s, key), key)
  {
    if s == [] || KeyLe(key(x), key(s[0])) {
      forall j | 0 <= j < |s| ensures KeyLe(key(x), key(s[j])) {
        if j > 0 { KeyLeTransitive(key(x), key(s[0]), key(s[j])); }
      }
    } else {
      var t := Insert(x, s[1..], key);
      InsertSorted(x, s[1..], key);
      forall j | 0 <= j < |t| ensures KeyLe(key(s[0]), key(t[j])) {
        if t[j] == x {
          KeyLeTotal(key(x), key(s[0]));
        } else {
          var k :| 0 <= k < |s[1..]| && s[1..][k] == t[j];
          assert s[k + 1] == t[j];
        }
      }
      assert Insert(x, s, key) == [s[0]] + t;
    }
  }

  /** Python's `sorted(s, key=key)`: a stable sort (insertion sort). The
      result is in key order, a permutation of `s`, and stable: for every key
      value, the elements with that key come out in their input order. */
  function SortByKey<T>(s: seq<T>, key: T -> Key): (r: seq<T>)
    ensures SortedBy(r, key)
    ensures multiset(r) == multiset(s)
    ensures |r| == |s|
    ensures forall k :: Filter(r, HasKey(key, k)) == Filter(s, HasKey(key, k))
  {
    if s == [] then []
    else
      assert s == [s[0]] + s[1..];
      var t := SortByKey(s[1..], key);
      var r := Insert(s[0], t, key);
      InsertSorted(s[0], t, key);
      assert |r| == |multiset(r)|;
      forall k ensures Filter(r, HasKey(key, k)) == Filter(s, HasKey(key, k)) {
        InsertStable(s[0], t, key, k);
      }
      r
  }

  /** The elements whose key is `k`, as a test. */
  function HasKey<T>(key: T -> Key, k: Key): T -> bool
  {
    x => key(x) == k
  }

  /** Insertion puts `x` before every element with the same key. */
  lemma {:induction false} InsertStable<T>(x: T, s: seq<T>, key: T -> Key, k: Key)
    ensures Filter(Insert(x, s, key), HasKey(key, k)) == Filter([x] + s, HasKey(key, k))
  {
    var p := HasKey(key, k);
    assert ([x] + s)[1..] == s;
    if s == [] || KeyLe(key(x), key(s[0])) {
    } else {
      InsertStable(x, s[1..], key, k);
      var t := Insert(x, s[1..], key);
      assert ([s[0]] + t)[1..] == t;
      assert ([x] + s[1..])[1..] == s[1..];
      assert s == [s[0]] + s[1..];
      assert key(s[0]) != key(x);
    }
  }

  /** Sorting a sequence that is already in key order changes nothing; in
      particular sorting twice by the same key is sorting once. */
  lemma {:induction false} SortSortedIsIdentity<T>(s: seq<T>, key: T -> Key)
    requires SortedBy(s, key)
    ensures SortByKey(s, key) == s
  {
    if s != [] {
      SortSortedIsIdentity(s[1..], key);
      assert s == [s[0]] + s[1..];
    }
  }

  lemma SortTwice<T>(s: seq<T>, key: T -> Key)
    ensures SortByKey(SortByKey(s, key), key) == SortByKey(s, key)
  {
    SortSortedIsIdentity(SortByKey(s, key), key);
  }

  /** Python's `[x for x in s if p(x)]`. */
  function Filter<T>(s: seq<T>, p: T -> bool): (r: seq<T>)
    ensures |r| <= |s|
  {
    if s == [] then []
    else
      var t := Filter(s[1..], p);
      if p(s[0]) then [s[0]] + t else t
  }

  /** The filtered sequence holds exactly the elements that pass. */
  lemma {:induction false} FilterMembers<T>(s: seq<T>, p: T -> bool)
    ensures forall i :: 0 <= i < |Filter(s, p)| ==> p(Filter(s, p)[i]) && Filter(s, p)[i] in s
    ensures forall i :: 0 <= i < |s| && p(s[i]) ==> s[i] in Filter(s, p)
  {
    if s != [] {
      FilterMembers(s[1..], p);
      assert forall i :: 1 <= i < |s| ==> s[i] == s[1..][i - 1];
    }
  }

  /** Filtering keeps order: it distributes over concatenation. */
  lemma {:induction false} FilterAppend<T>(a: seq<T>, b: seq<T>, p: T -> bool)
    ensures Filter(a + b, p) == Filter(a, p) + Filter(b, p)
  {
    if a == [] {
      assert a + b == b;
    } else {
      assert (a + b)[1..] == a[1..] + b;
      FilterAppend(a[1..], b, p);
    }
  }

  lemma FilterSingle<T>(x: T, p: T -> bool)
    ensures Filter([x], p) == if p(x) then [x] else []
  {
    assert [x][1..] == [];
  }

  /** Filtering one more element of a prefix appends it when it passes. */
  lemma FilterSnoc<T>(s: seq<T>, k: int, p: T -> bool)
    requires 0 <= k < |s|
    ensures Filter(s[..k + 1], p) == Filter(s[..k], p) + if p(s[k]) then [s[k]] else []
  {
    assert s[..k + 1] == s[..k] + [s[k]];
    FilterAppend(s[..k], [s[k]], p);
    FilterSingle(s[k], p);
  }

  /** Filtering by a condition and by its negation splits a sequence: every
      element lands on exactly one side. */
  lemma {:induction false} FilterComplement<T>(s: seq<T>, p: T -> bool, q: T -> bool)
    requires forall x :: q(x) == !p(x)
    ensures multiset(Filter(s, p)) + multiset(Filter(s, q)) == multiset(s)
  {
    if s != [] {
      FilterComplement(s[1..], p, q);
      FilterConsMultiset(s, p);
      FilterConsMultiset(s, q);
      MultisetSplit(s[0], p(s[0]), multiset(Filter(s, p)), multiset(Filter(s, q)),
                    multiset(Filter(s[1..], p)), multiset(Filter(s[1..], q)));
      assert s == [s[0]] + s[1..];
    }
  }

  /** `x` goes to exactly one of two bags that split the rest. */
  lemma MultisetSplit<T>(x: T, px: bool, fp: multiset<T>, fq: multiset<T>, a: multiset<T>, b: multiset<T>)
    requires fp == (if px then multiset{x} else multiset{}) + a
    requires fq == (if !px then multiset{x} else multiset{}) + b
    ensures fp + fq == multiset{x} + (a + b)
  {
  }

  lemma FilterConsMultiset<T>(s: seq<T>, p: T -> bool)
    requires s != []
    ensures multiset(Filter(s, p)) == (if p(s[0]) then multiset{s[0]} else multiset{}) + multiset(Filter(s[1..], p))
  {
    if p(s[0]) {
      assert Filter(s, p) == [s[0]] + Filter(s[1..], p);
    }
  }

  /** Filtering with a condition every element meets changes nothing. */
  lemma {:induction false} FilterAll<T>(s: seq<T>, p: T -> bool)
    requires forall i :: 0 <= i < |s| ==> p(s[i])
    ensures Filter(s, p) == s
  {
    if s != [] { FilterAll(s[1..], p); }
  }

  /** Python's `[f(x) for x in s]`. */
  function Map<T, U>(s: seq<T>, f: T -> U): (r: seq<U>)
    ensures |r| == |s| && forall i :: 0 <= i < |s| ==> r[i] == f(s[i])
  {
    if s == [] then [] else [f(s[0])] + Map(s[1..], f)
  }

  lemma {:induction false} MapAppend<T, U>(a: seq<T>, b: seq<T>, f: T -> U)
    ensures Map(a + b, f) == Map(a, f) + Map(b, f)
  {
    if a == [] {
      assert a + b == b;
    } else {
      assert (a + b)[1..] == a[1..] + b;
      MapAppend(a[1..], b, f);
    }
  }

  /** Mapping one more element of a prefix appends its image. */
  lemma MapSnoc<T, U>(s: seq<T>, i: int, f: T -> U)
    requires 0 <= i < |s|
    ensures Map(s[..i + 1], f) == Map(s[..i], f) + [f(s[i])]
  {
    assert s[..i + 1] == s[..i] + [s[i]];
    MapAppend(s[..i], [s[i]], f);
  }

  /** Mapping the filtered prefix one element further appends the image of
      that element when it passes the filter. */
  lemma MapFilterSnoc<T, U>(s: seq<T>, k: int, p: T -> bool, f: T -> U)
    requires 0 <= k < |s|
    ensures Map(Filter(s[..k + 1], p), f) == Map(Filter(s[..k], p), f) + if p(s[k]) then [f(s[k])] else []
  {
    FilterSnoc(s, k, p);
    MapAppend(Filter(s[..k], p), if p(s[k]) then [s[k]] else [], f);
    if p(s[k]) {
      assert Map([s[k]], f) == [f(s[k])];
    } else {
      assert Map([], f) == [];
    }
  }

  /** A running maximum started at `init`: Python's `m = max(m, f(x))` over
      `s`, from left to right. */
  function MaxOver<T>(init: real, s: seq<T>, f: T -> real): (r: real)
    ensures r >= init && forall i :: 0 <= i < |s| ==> r >= f(s[i])
    ensures r == init || exists i :: 0 <= i < |s| && r == f(s[i])
  {
    if s == [] then init
    else
      var m := MaxOver(init, s[..|s| - 1], f);
      assert forall i :: 0 <= i < |s| - 1 ==> s[..|s| - 1][i] == s[i];
      if f(s[|s| - 1]) > m then f(s[|s| - 1]) else m
  }

  /** A running minimum started at `init`. */
  function MinOver<T>(init: real, s: seq<T>, f: T -> real): (r: real)
    ensures r <= init && forall i :: 0 <= i < |s| ==> r <= f(s[i])
    ensures r == init || exists i :: 0 <= i < |s| && r == f(s[i])
  {
    if s == [] then init
    else
      var m := MinOver(init, s[..|s| - 1], f);
      assert forall i :: 0 <= i < |s| - 1 ==> s[..|s| - 1][i] == s[i];
      if f(s[|s| - 1]) < m then f(s[|s| - 1]) else m
  }

  /** One more element of a prefix updates the running maximum and minimum. */
  lemma OverSnoc<T>(init: real, s: seq<T>, k: int, f: T -> real)
    requires 0 <= k < |s|
    ensures MaxOver(init, s[..k + 1], f) == if f(s[k]) > MaxOver(init, s[..k], f) then f(s[k]) else MaxOver(init, s[..k], f)
    ensures MinOver(init, s[..k + 1], f) == if f(s[k]) < MinOver(init, s[..k], f) then f(s[k]) else MinOver(init, s[..k], f)
  {
    assert s[..k + 1][..k] == s[..k];
  }

  function Flatten<T>(ss: seq<seq<T>>): seq<T>
  {
    if ss == [] then [] else ss[0] + Flatten(ss[1..])
  }

  lemma {:induction false} FlattenAppend<T>(ss: seq<seq<T>>, t: seq<T>)
    ensures Flatten(ss + [t]) == Flatten(ss) + t
  {
    if ss == [] {
      assert [] + [t] == [t];
    } else {
      assert (ss + [t])[1..] == ss[1..] + [t];
      FlattenAppend(ss[1..], t);
    }
  }

  lemma {:induction false} FlattenConcat<T>(ss: seq<seq<T>>, tt: seq<seq<T>>)
    ensures Flatten(ss + tt) == Flatten(ss) + Flatten(tt)
  {
    if ss == [] {
      assert ss + tt == tt;
    } else {
      assert (ss + tt)[1..] == ss[1..] + tt;
      FlattenConcat(ss[1..], tt);
    }
  }

  lemma MulStep(i: int, n: int)
    ensures i * n == (i - 1) * n + n
  {
  }

  /** Rows of one length n flatten to |ss| * n elements. */
  lemma {:induction false} FlattenLength<T>(ss: seq<seq<T>>, n: nat)
    requires forall i :: 0 <= i < |ss| ==> |ss[i]| == n
    ensures |Flatten(ss)| == |ss| * n
  {
    if ss != [] {
      FlattenLength(ss[1..], n);
      MulStep(|ss|, n);
    }
  }

  /** Flattening rows of one length n puts row i, column j at i * n + j. */
  lemma {:induction false} FlattenAt<T>(ss: seq<seq<T>>, n: nat, i: int, j: int)
    requires forall i :: 0 <= i < |ss| ==> |ss[i]| == n
    requires 0 <= i < |ss| && 0 <= j < n
    ensures i * n + j < |Flatten(ss)| && Flatten(ss)[i * n + j] == ss[i][j]
    decreases i
  {
    FlattenLength(ss, n);
    if i > 0 {
      FlattenAt(ss[1..], n, i - 1, j);
      MulStep(i, n);
    }
  }

  /** What one of the lists holds, the flattened list holds. */
  /** Every element of a flattened sequence comes from one of its rows. */
  lemma {:induction false} FlattenMemberOf<T>(ss: seq<seq<T>>, x: T)
    requires x in Flatten(ss)
    ensures exists i :: 0 <= i < |ss| && x in ss[i]
  {
    if x !in ss[0] {
      FlattenMemberOf(ss[1..], x);
      var i :| 0 <= i < |ss[1..]| && x in ss[1..][i];
      assert x in ss[i + 1];
    }
  }

  lemma {:induction false} FlattenMember<T>(ss: seq<seq<T>>, i: int, x: T)
    requires 0 <= i < |ss| && x in ss[i]
    ensures x in Flatten(ss)
    decreases i
  {
    if i > 0 {
      FlattenMember(ss[1..], i - 1, x);
    }
  }

  /** A group: non-empty, each element linked to the one before it. */
  predicate IsChain<T>(l: seq<T>, linked: (T, T) -> bool)
  {
    l != [] && forall k :: 0 <= k < |l| - 1 ==> linked(l[k], l[k + 1])
  }

  /** Each group starts with an element not linked to the previous group's last. */
  predicate ChainsBreakApart<T>(gs: seq<seq<T>>, linked: (T, T) -> bool)
  {
    forall j :: 0 <= j < |gs| - 1 ==>
      gs[j] == [] || gs[j + 1] == [] || !linked(gs[j][|gs[j]| - 1], gs[j + 1][0])
  }

  /** The state of a loop that cuts a sequence into chains: finished groups,
      and an open group that is not linked to the last finished one. */
  predicate Chaining<T>(gs: seq<seq<T>>, cur: seq<T>, linked: (T, T) -> bool)
  {
    && (forall j :: 0 <= j < |gs| ==> IsChain(gs[j], linked))
    && ChainsBreakApart(gs, linked)
    && (cur != [] ==> IsChain(cur, linked))
    && (cur != [] && gs != [] ==> !linked(gs[|gs| - 1][|gs[|gs| - 1]| - 1], cur[0]))
  }

  lemma ChainingExtend<T>(gs: seq<seq<T>>, cur: seq<T>, x: T, linked: (T, T) -> bool)
    requires Chaining(gs, cur, linked) && (cur == [] || linked(cur[|cur| - 1], x))
    requires cur == [] && gs != [] ==> !linked(gs[|gs| - 1][|gs[|gs| - 1]| - 1], x)
    ensures Chaining(gs, cur + [x], linked)
  {
  }

  lemma ChainingBreak<T>(gs: seq<seq<T>>, cur: seq<T>, x: T, linked: (T, T) -> bool)
    requires Chaining(gs, cur, linked) && cur != [] && !linked(cur[|cur| - 1], x)
    ensures Chaining(gs + [cur], [x], linked)
  {
  }

  lemma ChainingClose<T>(gs: seq<seq<T>>, cur: seq<T>, linked: (T, T) -> bool)
    requires Chaining(gs, cur, linked) && cur != []
    ensures forall j :: 0 <= j < |gs + [cur]| ==> IsChain((gs + [cur])[j], linked)
    ensures ChainsBreakApart(gs + [cur], linked)
  {
  }

  /** A loop that cuts `s` into groups, closing the open group after every
      element that is the last one or is not linked to its successor. */
  method SplitChains<T>(s: seq<T>, linked: (T, T) -> bool) returns (groups: seq<seq<T>>)
    ensures Flatten(groups) == s
    ensures forall j :: 0 <= j < |groups| ==> IsChain(groups[j], linked)
    ensures ChainsBreakApart(groups, linked)
  {
    groups := [];
    var current: seq<T> := [];
    for i := 0 to |s|
      invariant Flatten(groups) + current == s[..i]
      invariant Chaining(groups, current, linked)
      invariant i < |s| && current != [] ==> linked(current[|current| - 1], s[i])
      invariant i < |s| && current == [] && groups != [] ==>
                  !linked(groups[|groups| - 1][|groups[|groups| - 1]| - 1], s[i])
      invariant i == |s| ==> current == []
    {
      assert s[..i + 1] == s[..i] + [s[i]];
      var closes := i == |s| - 1 || !linked(s[i], s[i + 1]);
      groups, current := ChainStep(groups, current, s[..i], s[i], closes, linked);
    }
    assert s[..|s|] == s;
  }

  /** One iteration of `SplitChains`: the element joins the open group, which
      closes when `closes` holds. */
  method ChainStep<T>(groups: seq<seq<T>>, current: seq<T>, ghost seen: seq<T>, x: T, closes: bool,
                      linked: (T, T) -> bool)
    returns (groups': seq<seq<T>>, current': seq<T>)
    requires Flatten(groups) + current == seen && Chaining(groups, current, linked)
    requires current != [] ==> linked(current[|current| - 1], x)
    requires current == [] && groups != [] ==> !linked(groups[|groups| - 1][|groups[|groups| - 1]| - 1], x)
    ensures Flatten(groups') + current' == seen + [x] && Chaining(groups', current', linked)
    ensures closes ==> current' == [] && groups' == groups + [current + [x]]
    ensures !closes ==> current' == current + [x] && groups' == groups
  {
    ChainingExtend(groups, current, x, linked);
    current' := current + [x];
    groups' := groups;
    if closes {
      ChainingClose(groups, current', linked);
      FlattenAppend(groups, current');
      groups' := groups + [current'];
      current' := [];
    }
  }

  /** The maximal runs of consecutive `p` elements, as a loop collects them:
      `cur` is the open run; a `p` element extends it, any other element
      closes it, and the end of the input flushes it. */
  function Runs<T>(cur: seq<T>, s: seq<T>, p: T -> bool): seq<seq<T>>
    decreases |s|
  {
    if s == [] then (if cur == [] then [] else [cur])
    else if p(s[0]) then Runs(cur + [s[0]], s[1..], p)
    else if cur == [] then Runs([], s[1..], p)
    else [cur] + Runs([], s[1..], p)
  }

  /** Every run is non-empty and made of `p` elements. */
  lemma {:induction false} RunsWellFormed<T>(cur: seq<T>, s: seq<T>, p: T -> bool)
    requires forall i :: 0 <= i < |cur| ==> p(cur[i])
    ensures forall j :: 0 <= j < |Runs(cur, s, p)| ==> Runs(cur, s, p)[j] != []
    ensures forall j, i :: 0 <= j < |Runs(cur, s, p)| && 0 <= i < |Runs(cur, s, p)[j]| ==> p(Runs(cur, s, p)[j][i])
    decreases |s|
  {
    if s != [] {
      if p(s[0]) {
        RunsWellFormed(cur + [s[0]], s[1..], p);
      } else {
        RunsWellFormed([], s[1..], p);
      }
    }
  }

  /** The runs hold exactly the `p` elements, in input order. */
  lemma {:induction false} RunsPartition<T>(cur: seq<T>, s: seq<T>, p: T -> bool)
    ensures Flatten(Runs(cur, s, p)) == cur + Filter(s, p)
    decreases |s|
  {
    if s == [] {
      if cur != [] { assert Flatten([cur]) == cur + Flatten([cur][1..]); }
    } else if p(s[0]) {
      RunsPartition(cur + [s[0]], s[1..], p);
    } else if cur == [] {
      RunsPartition([], s[1..], p);
    } else {
      RunsPartition([], s[1..], p);
      assert ([cur] + Runs([], s[1..], p))[1..] == Runs([], s[1..], p);
    }
  }

  /** How many maximal runs of `p` elements start in `s`, given whether the
      element before `s` satisfied `p`. */
  function RunStarts<T>(prev: bool, s: seq<T>, p: T -> bool): nat
    decreases |s|
  {
    if s == [] then 0
    else (if p(s[0]) && !prev then 1 else 0) + RunStarts(p(s[0]), s[1..], p)
  }

  /** There is one run per maximal stretch of consecutive `p` elements. */
  lemma {:induction false} RunsCount<T>(cur: seq<T>, s: seq<T>, p: T -> bool)
    ensures |Runs(cur, s, p)| == RunStarts(cur != [], s, p) + (if cur != [] then 1 else 0)
    decreases |s|
  {
    if s != [] {
      if p(s[0]) {
        RunsCount(cur + [s[0]], s[1..], p);
      } else {
        RunsCount([], s[1..], p);
      }
    }
  }
}
