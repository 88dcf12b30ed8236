/** Priority ordering shared by both popup editors: the comparator
    `(a.priority ?? Number.MAX_VALUE) - (b.priority ?? Number.MAX_VALUE)`
    with a stable sort, renumbering to 1..N, and the index-based list move
    the drag-and-drop handler performs. */
module RuleOrder {
  import opened Wrappers
  import opened Config

  // ---------------------------------------------------------------------------
  // The priority order: numbers ascending, a missing priority after every number

  predicate PriorityLeq(a: Option<nat>, b: Option<nat>) {
    match b
    case None => true
    case Some(y) => a.Some? && a.value <= y
  }

  lemma PriorityLeqTotalOrder(a: Option<nat>, b: Option<nat>, c: Option<nat>)
    ensures PriorityLeq(a, a)
    ensures PriorityLeq(a, b) || PriorityLeq(b, a)
    ensures PriorityLeq(a, b) && PriorityLeq(b, a) ==> a == b
    ensures PriorityLeq(a, b) && PriorityLeq(b, c) ==> PriorityLeq(a, c)
  {
  }

  /** Ascending by key. */
  ghost predicate SortedBy<T>(s: seq<T>, key: T -> Option<nat>) {
    forall i, j :: 0 <= i < j < |s| ==> PriorityLeq(key(s[i]), key(s[j]))
  }

  /** The elements whose key is `p`, in their order: equal-key elements. */
  function WithKey<T>(s: seq<T>, key: T -> Option<nat>, p: Option<nat>): seq<T> {
    if s == [] then []
    else (if key(s[0]) == p then [s[0]] else []) + WithKey(s[1..], key, p)
  }

  lemma {:induction false} WithKeyAppend<T>(a: seq<T>, b: seq<T>, key: T -> Option<nat>, p: Option<nat>)
    ensures WithKey(a + b, key, p) == WithKey(a, key, p) + WithKey(b, key, p)
  {
    if a != [] {
      assert (a + b)[1..] == a[1..] + b;
      WithKeyAppend(a[1..], b, key, p);
    } else {
      assert a + b == b;
    }
  }

  lemma WithKeyCons<T>(x: T, t: seq<T>, key: T -> Option<nat>, p: Option<nat>)
    ensures WithKey([x] + t, key, p) == (if key(x) == p then [x] else []) + WithKey(t, key, p)
  {
    assert ([x] + t)[1..] == t;
  }

  /** No element has key `p` when every key is strictly above it. */
  lemma {:induction false} WithKeyAbove<T>(s: seq<T>, key: T -> Option<nat>, p: Option<nat>)
    requires forall i :: 0 <= i < |s| ==> !PriorityLeq(key(s[i]), p)
    ensures WithKey(s, key, p) == []
  {
    if s != [] {
      WithKeyAbove(s[1..], key, p);
    }
  }

  // ---------------------------------------------------------------------------
  // Stable insertion sort

  /** Insert `x` after every element whose key is at most its own. */
  function InsertBy<T>(x: T, s: seq<T>, key: T -> Option<nat>): (r: seq<T>)
    ensures |r| == |s| + 1
  {
    if s == [] then [x]
    else if PriorityLeq(key(s[0]), key(x)) then [s[0]] + InsertBy(x, s[1..], key)
    else [x] + s
  }

  /** Inserting adds `x` and loses nothing. */
  lemma {:induction false} InsertByPermutes<T>(x: T, s: seq<T>, key: T -> Option<nat>)
    ensures multiset(InsertBy(x, s, key)) == multiset(s) + multiset{x}
  {
    if s != [] && PriorityLeq(key(s[0]), key(x)) {
      InsertByPermutes(x, s[1..], key);
      MultisetCons(s);
      MultisetCons(InsertBy(x, s, key));
    }
  }

  lemma {:induction false} InsertBySorted<T>(x: T, s: seq<T>, key: T -> Option<nat>)
    requires SortedBy(s, key)
    ensures SortedBy(InsertBy(x, s, key), key)
  {
    if s != [] && PriorityLeq(key(s[0]), key(x)) {
      var t := InsertBy(x, s[1..], key);
      InsertBySorted(x, s[1..], key);
      InsertByPermutes(x, s[1..], key);
      forall k | 0 <= k < |t|
        ensures PriorityLeq(key(s[0]), key(t[k]))
      {
        assert t[k] in multiset(s[1..]) + multiset{x};
        if t[k] != x {
          var m :| 0 <= m < |s[1..]| && s[1..][m] == t[k];
          assert s[m + 1] == t[k];
        }
      }
      assert InsertBy(x, s, key) == [s[0]] + t;
    } else if s != [] {
      forall k | 0 <= k < |s|
        ensures PriorityLeq(key(x), key(s[k]))
      {
        PriorityLeqTotalOrder(key(x), key(s[0]), key(s[k]));
      }
    }
  }

  /** Inserting `x` places it after the elements sharing its key. */
  lemma {:induction false} InsertByWithKey<T>(x: T, s: seq<T>, key: T -> Option<nat>, p: Option<nat>)
    requires SortedBy(s, key)
    ensures WithKey(InsertBy(x, s, key), key, p) == WithKey(s, key, p) + (if key(x) == p then [x] else [])
  {
    if s == [] {
      WithKeyCons(x, [], key, p);
      assert [x] + [] == [x];
    } else if PriorityLeq(key(s[0]), key(x)) {
      assert SortedBy(s[1..], key);
      InsertByWithKey(x, s[1..], key, p);
      InsertAfterHead(x, s, key, p);
    } else {
      InsertBelowAll(x, s, key, p);
    }
  }

  lemma InsertAfterHead<T>(x: T, s: seq<T>, key: T -> Option<nat>, p: Option<nat>)
    requires s != [] && PriorityLeq(key(s[0]), key(x))
    requires WithKey(InsertBy(x, s[1..], key), key, p) == WithKey(s[1..], key, p) + (if key(x) == p then [x] else [])
    ensures WithKey(InsertBy(x, s, key), key, p) == WithKey(s, key, p) + (if key(x) == p then [x] else [])
  {
    var y, rest := s[0], s[1..];
    var t := InsertBy(x, rest, key);
    var head := if key(y) == p then [y] else [];
    var tail := if key(x) == p then [x] else [];
    assert InsertBy(x, s, key) == [y] + t;
    WithKeyCons(y, t, key, p);
    assert WithKey(s, key, p) == head + WithKey(rest, key, p);
    AppendAssoc(head, WithKey(rest, key, p), tail);
  }


  lemma InsertBelowAll<T>(x: T, s: seq<T>, key: T -> Option<nat>, p: Option<nat>)
    requires SortedBy(s, key)
    requires s != [] && !PriorityLeq(key(s[0]), key(x))
    ensures WithKey(InsertBy(x, s, key), key, p) == WithKey(s, key, p) + (if key(x) == p then [x] else [])
  {
    WithKeyCons(x, s, key, p);
    assert InsertBy(x, s, key) == [x] + s;
    if key(x) == p {
      forall i | 0 <= i < |s|
        ensures !PriorityLeq(key(s[i]), p)
      {
        PriorityLeqTotalOrder(key(x), key(s[0]), key(s[i]));
      }
      WithKeyAbove(s, key, p);
    }
  }

  /** `[...s].sort(byPriority)`: the stable sort by key. Its result is ordered
      by key, holds the same elements, and keeps equal-key elements in their
      original order. */
  function SortBy<T>(s: seq<T>, key: T -> Option<nat>): (r: seq<T>)
    ensures |r| == |s|
    ensures multiset(r) == multiset(s)
    ensures SortedBy(r, key)
  {
    if s == [] then []
    else
      var init := s[..|s| - 1];
      var sortedInit := SortBy(init, key);
      InsertBySorted(s[|s| - 1], sortedInit, key);
      InsertByPermutes(s[|s| - 1], sortedInit, key);
      assert s == init + [s[|s| - 1]];
      InsertBy(s[|s| - 1], sortedInit, key)
  }

  /** The sort is stable: the elements of each key keep their order. */
  lemma {:induction false} SortByStable<T>(s: seq<T>, key: T -> Option<nat>, p: Option<nat>)
    ensures WithKey(SortBy(s, key), key, p) == WithKey(s, key, p)
    decreases |s|
  {
    if s != [] {
      var init := s[..|s| - 1];
      var x := s[|s| - 1];
      var sortedInit := SortBy(init, key);
      SortByStable(init, key, p);
      assert s == init + [x];
      InsertByWithKey(x, sortedInit, key, p);
      WithKeyAppend(init, [x], key, p);
      WithKeyCons(x, [], key, p);
      assert [x] + [] == [x];
    }
  }

  /** Inserting an element no smaller than every element appends it. */
  lemma {:induction false} InsertByAtEnd<T>(x: T, s: seq<T>, key: T -> Option<nat>)
    requires forall i :: 0 <= i < |s| ==> PriorityLeq(key(s[i]), key(x))
    ensures InsertBy(x, s, key) == s + [x]
  {
    if s != [] {
      InsertByAtEnd(x, s[1..], key);
      assert s == [s[0]] + s[1..];
    }
  }

  /** Sorting an already ordered sequence returns it unchanged. */
  lemma {:induction false} SortBySortedIdentity<T>(s: seq<T>, key: T -> Option<nat>)
    requires SortedBy(s, key)
    ensures SortBy(s, key) == s
  {
    if s != [] {
      var init := s[..|s| - 1];
      assert SortedBy(init, key);
      SortBySortedIdentity(init, key);
      InsertByAtEnd(s[|s| - 1], init, key);
      assert init + [s[|s| - 1]] == s;
    }
  }

  // ---------------------------------------------------------------------------
  // Renumbering

  /** The rule with its priority cleared: every field the editors never renumber. */
  function Unranked(r: Rule): Rule {
    r.(priority := None)
  }

  /** Priorities run 1, 2, …, N down the sequence. */
  ghost predicate Numbered(s: seq<Rule>) {
    forall i :: 0 <= i < |s| ==> s[i].priority == Some(i + 1)
  }

  /** `group.forEach((r, i) => { r.priority = i + 1; })`. */
  function Renumber(s: seq<Rule>): (r: seq<Rule>)
    ensures |r| == |s|
    ensures Numbered(r)
    ensures forall i :: 0 <= i < |r| ==> Unranked(r[i]) == Unranked(s[i])
    ensures forall i :: 0 <= i < |r| ==> r[i].category == s[i].category && r[i].id == s[i].id
  {
    seq(|s|, i requires 0 <= i < |s| => s[i].(priority := Some(i + 1)))
  }

  /** Renumbering a sequence already numbered 1..N changes nothing. */
  lemma RenumberNumbered(s: seq<Rule>)
    requires Numbered(s)
    ensures Renumber(s) == s
  {
  }

  function RulePriority(r: Rule): Option<nat> {
    r.priority
  }

  /** A sequence numbered 1..N is in priority order. */
  lemma NumberedIsSorted(s: seq<Rule>)
    requires Numbered(s)
    ensures SortedBy(s, RulePriority)
  {
  }

  // ---------------------------------------------------------------------------
  // Moving one element of a list

  /** `list.splice(oldIndex, 1)` then `list.splice(newIndex, 0, moved)`; a
      `newIndex` past the end appends. */
  function Move<T>(s: seq<T>, oldIndex: nat, newIndex: nat): (r: seq<T>)
    requires oldIndex < |s|
    ensures |r| == |s|
    ensures multiset(r) == multiset(s)
    ensures r[if newIndex < |s| then newIndex else |s| - 1] == s[oldIndex]
    ensures var at := if newIndex < |s| then newIndex else |s| - 1;
      r[..at] + r[at + 1..] == s[..oldIndex] + s[oldIndex + 1..]
  {
    var moved := s[oldIndex];
    var rest := s[..oldIndex] + s[oldIndex + 1..];
    var at := if newIndex <= |rest| then newIndex else |rest|;
    assert s == s[..oldIndex] + [moved] + s[oldIndex + 1..];
    var r := rest[..at] + [moved] + rest[at..];
    assert rest == rest[..at] + rest[at..];
    assert multiset(r) == multiset(rest[..at]) + multiset{moved} + multiset(rest[at..]);
    assert multiset(s) == multiset(s[..oldIndex]) + multiset{moved} + multiset(s[oldIndex + 1..]);
    assert multiset(rest) == multiset(rest[..at]) + multiset(rest[at..]);
    assert multiset(rest) == multiset(s[..oldIndex]) + multiset(s[oldIndex + 1..]);
    assert r[..at] == rest[..at] && r[at + 1..] == rest[at..];
    assert r[..at] + r[at + 1..] == rest;
    assert multiset(r) == multiset(rest) + multiset{moved};
    assert multiset(s) == multiset(rest) + multiset{moved};
    r
  }

  /** Moving an element onto its own index changes nothing. */
  lemma MoveSameIndex<T>(s: seq<T>, i: nat)
    requires i < |s|
    ensures Move(s, i, i) == s
  {
    assert s == s[..i] + [s[i]] + s[i + 1..];
    var rest := s[..i] + s[i + 1..];
    assert rest[..i] == s[..i] && rest[i..] == s[i + 1..];
  }

  // ---------------------------------------------------------------------------
  // Ranking one category of the rule list in place

  /** No value occurs twice. */
  ghost predicate Distinct<T>(s: seq<T>) {
    forall i, j :: 0 <= i < j < |s| ==> s[i] != s[j]
  }

  lemma {:induction false} DistinctCount<T>(s: seq<T>, x: T)
    requires Distinct(s)
    ensures multiset(s)[x] <= 1
  {
    if s != [] {
      assert s == [s[0]] + s[1..];
      DistinctCount(s[1..], x);
      if s[0] == x {
        assert x !in s[1..];
      }
    }
  }

  lemma {:induction false} RepeatCount<T>(s: seq<T>, i: nat, j: nat)
    requires i < j < |s| && s[i] == s[j]
    ensures multiset(s)[s[i]] >= 2
  {
    assert s == s[..j] + [s[j]] + s[j + 1..];
    assert s[i] in s[..j];
  }

  /** A permutation of a duplicate-free sequence is duplicate-free. */
  lemma PermutationDistinct<T>(s: seq<T>, t: seq<T>)
    requires Distinct(s) && multiset(t) == multiset(s)
    ensures Distinct(t)
  {
    forall i, j | 0 <= i < j < |t|
      ensures t[i] != t[j]
    {
      if t[i] == t[j] {
        RepeatCount(t, i, j);
        DistinctCount(s, t[i]);
      }
    }
  }

  /** Position `i` of `rules` holds a rule of category `c`. */
  predicate HoldsCategory(rules: seq<Rule>, c: Category, i: nat) {
    i < |rules| && rules[i].category == c
  }

  /** The positions of `rules` whose rule is of category `c`, from `from` on, ascending. */
  function PositionsFrom(rules: seq<Rule>, c: Category, from: nat): (r: seq<nat>)
    ensures forall k :: 0 <= k < |r| ==> from <= r[k] < |rules| && HoldsCategory(rules, c, r[k])
    ensures forall k, l :: 0 <= k < l < |r| ==> r[k] < r[l]
    decreases |rules| - from
  {
    if from >= |rules| then []
    else (if rules[from].category == c then [from] else []) + PositionsFrom(rules, c, from + 1)
  }

  /** The positions holding category `c`, in list order: what
      `rules.filter(r => r.category === c)` keeps, as positions. */
  function CategoryPositions(rules: seq<Rule>, c: Category): (r: seq<nat>)
    ensures forall k :: 0 <= k < |r| ==> r[k] < |rules| && HoldsCategory(rules, c, r[k])
    ensures Distinct(r)
  {
    PositionsFrom(rules, c, 0)
  }

  /** The priority of the rule at a position (a position past the end has none). */
  function PriorityAt(rules: seq<Rule>): nat -> Option<nat> {
    (i: nat) => if i < |rules| then rules[i].priority else None
  }

  /** The category's positions sorted by the priority of their rules: the
      list the drag handler works on. */
  function RankedPositions(rules: seq<Rule>, c: Category): (r: seq<nat>)
    ensures multiset(r) == multiset(CategoryPositions(rules, c))
    ensures forall k :: 0 <= k < |r| ==> HoldsCategory(rules, c, r[k])
  {
    var positions := CategoryPositions(rules, c);
    var r := SortBy(positions, PriorityAt(rules));
    PositionsPermutation(rules, c, positions, r);
    r
  }

  /** `order.forEach((rule, index) => { rule.priority = index + 1; })` where
      `order` lists positions of `rules`: the rule at `order[k]` gets priority
      `k + 1`, from `k = from` on. */
  function AssignRanks(rules: seq<Rule>, order: seq<nat>, from: nat): (r: seq<Rule>)
    requires from <= |order|
    requires forall k :: 0 <= k < |order| ==> order[k] < |rules|
    requires Distinct(order)
    ensures |r| == |rules|
    ensures forall i :: 0 <= i < |r| ==> Unranked(r[i]) == Unranked(rules[i])
    ensures forall k :: from <= k < |order| ==> r[order[k]].priority == Some(k + 1)
    ensures forall i :: 0 <= i < |r| && i !in order[from..] ==> r[i] == rules[i]
    decreases |order| - from
  {
    if from == |order| then rules
    else
      var i := order[from];
      var next := AssignRanks(rules[i := rules[i].(priority := Some(from + 1))], order, from + 1);
      assert forall k :: from < k < |order| ==> order[k] != i;
      next
  }

  // ---------------------------------------------------------------------------
  // Mapping and uniqueness

  /** `s.map(f)`; `f` may be partial, defined on every element. */
  function Image<A, B>(f: A --> B, s: seq<A>): (r: seq<B>)
    requires forall i :: 0 <= i < |s| ==> f.requires(s[i])
    ensures |r| == |s|
    ensures forall i :: 0 <= i < |s| ==> r[i] == f(s[i])
  {
    seq(|s|, i requires 0 <= i < |s| => f(s[i]))
  }

  /** Replacing one element replaces its image. */
  lemma ImageUpdate<A, B>(f: A --> B, s: seq<A>, i: nat, x: A)
    requires i < |s| && f.requires(x)
    requires forall k :: 0 <= k < |s| ==> f.requires(s[k])
    ensures Image(f, s[i := x]) == Image(f, s)[i := f(x)]
  {
  }

  lemma ImageAppend<A, B>(f: A --> B, a: seq<A>, b: seq<A>)
    requires forall i :: 0 <= i < |a| ==> f.requires(a[i])
    requires forall i :: 0 <= i < |b| ==> f.requires(b[i])
    ensures Image(f, a + b) == Image(f, a) + Image(f, b)
  {
  }

  lemma MultisetCancel<T>(x: T, a: multiset<T>, b: multiset<T>)
    requires multiset{x} + a == multiset{x} + b
    ensures a == b
  {
    forall y
      ensures a[y] == b[y]
    {
      assert (multiset{x} + a)[y] == (multiset{x} + b)[y];
    }
  }

  /** Mapping preserves being a permutation. */
  lemma {:induction false} ImagePermutation<A, B>(f: A --> B, a: seq<A>, b: seq<A>)
    requires forall i :: 0 <= i < |a| ==> f.requires(a[i])
    requires multiset(a) == multiset(b)
    ensures forall i :: 0 <= i < |b| ==> f.requires(b[i])
    ensures multiset(Image(f, a)) == multiset(Image(f, b))
    decreases |a|
  {
    forall i | 0 <= i < |b|
      ensures f.requires(b[i])
    {
      assert b[i] in multiset(a);
    }
    if a != [] {
      var x, t := a[0], a[1..];
      assert x in multiset(b);
      var j :| 0 <= j < |b| && b[j] == x;
      var b' := b[..j] + b[j + 1..];
      MultisetCons(a);
      MultisetRemove(b, j);
      MultisetCancel(x, multiset(t), multiset(b'));
      ImagePermutation(f, t, b');
      var fa, fb := Image(f, a), Image(f, b);
      assert fa[1..] == Image(f, t);
      MultisetCons(fa);
      assert fb[..j] + fb[j + 1..] == Image(f, b');
      MultisetRemove(fb, j);
    }
  }

  /** Taking out the element at `j` takes it out of the multiset. */
  lemma MultisetRemove<T>(s: seq<T>, j: nat)
    requires j < |s|
    ensures multiset(s) == multiset{s[j]} + multiset(s[..j] + s[j + 1..])
  {
    assert s == s[..j] + [s[j]] + s[j + 1..];
  }

  /** Strictly increasing keys. */
  ghost predicate StrictlySortedBy<T>(s: seq<T>, key: T -> Option<nat>) {
    forall i, j :: 0 <= i < j < |s| ==> PriorityLeq(key(s[i]), key(s[j])) && key(s[i]) != key(s[j])
  }

  /** Sorted with no key repeated is strictly sorted. */
  lemma SortedDistinctStrict<T>(s: seq<T>, key: T -> Option<nat>)
    requires SortedBy(s, key) && Distinct(Image(key, s))
    ensures StrictlySortedBy(s, key)
  {
    var ks := Image(key, s);
    forall i, j | 0 <= i < j < |s|
      ensures key(s[i]) != key(s[j])
    {
      assert ks[i] != ks[j];
    }
  }

  /** Two strictly sorted arrangements of the same elements are the same. */
  lemma {:induction false} StrictlySortedUnique<T>(a: seq<T>, b: seq<T>, key: T -> Option<nat>)
    requires StrictlySortedBy(a, key) && StrictlySortedBy(b, key)
    requires multiset(a) == multiset(b)
    ensures a == b
    decreases |a|
  {
    if a != [] {
      StrictlySortedSameHead(a, b, key);
      MultisetCons(a);
      MultisetCons(b);
      MultisetCancel(a[0], multiset(a[1..]), multiset(b[1..]));
      StrictlySortedUnique(a[1..], b[1..], key);
      assert a == [a[0]] + a[1..] && b == [b[0]] + b[1..];
    }
  }

  /** Both arrangements start with the element of least key. */
  lemma StrictlySortedSameHead<T>(a: seq<T>, b: seq<T>, key: T -> Option<nat>)
    requires StrictlySortedBy(a, key) && StrictlySortedBy(b, key)
    requires multiset(a) == multiset(b) && a != []
    ensures b != [] && a[0] == b[0]
  {
    assert a[0] in multiset(b);
    var i :| 0 <= i < |b| && b[i] == a[0];
    assert b[0] in multiset(a);
    var j :| 0 <= j < |a| && a[j] == b[0];
    PriorityLeqTotalOrder(key(a[0]), key(b[0]), key(b[0]));
    assert key(a[0]) == key(b[0]) by {
      assert PriorityLeq(key(a[0]), key(a[j]));
      assert PriorityLeq(key(b[0]), key(b[i]));
    }
    assert i == 0;
  }

  lemma MultisetCons<T>(s: seq<T>)
    requires s != []
    ensures multiset(s) == multiset{s[0]} + multiset(s[1..])
  {
    assert s == [s[0]] + s[1..];
  }

  /** The rules at the given positions, in the given order. */
  function Pick(rules: seq<Rule>, order: seq<nat>): (r: seq<Rule>)
    requires forall k :: 0 <= k < |order| ==> order[k] < |rules|
    ensures |r| == |order|
    ensures forall k :: 0 <= k < |order| ==> r[k] == rules[order[k]]
  {
    Image(RuleAt(rules), order)
  }

  /** Indexing into `rules`, as a partial function of the position. */
  function RuleAt(rules: seq<Rule>): nat --> Rule {
    (i: nat) requires i < |rules| => rules[i]
  }

  lemma PickCons(rules: seq<Rule>, i: nat, order: seq<nat>)
    requires i < |rules|
    requires forall k :: 0 <= k < |order| ==> order[k] < |rules|
    ensures Pick(rules, [i] + order) == [rules[i]] + Pick(rules, order)
  {
  }

  lemma {:induction false} OfCategoryPositionsFrom(rules: seq<Rule>, c: Category, from: nat)
    requires from <= |rules|
    ensures OfCategory(rules[from..], c) == Pick(rules, PositionsFrom(rules, c, from))
    decreases |rules| - from
  {
    if from < |rules| {
      OfCategoryPositionsFrom(rules, c, from + 1);
      var x, tail := rules[from], rules[from + 1..];
      var later := PositionsFrom(rules, c, from + 1);
      assert rules[from..] == [x] + tail;
      OfCategoryCons(x, tail, c);
      if x.category == c {
        assert PositionsFrom(rules, c, from) == [from] + later;
        PickCons(rules, from, later);
      } else {
        assert PositionsFrom(rules, c, from) == later;
      }
    } else {
      assert rules[from..] == [];
    }
  }

  /** Filtering a category picks the rules at the category's positions. */
  lemma OfCategoryPositions(rules: seq<Rule>, c: Category)
    ensures OfCategory(rules, c) == Pick(rules, CategoryPositions(rules, c))
  {
    OfCategoryPositionsFrom(rules, c, 0);
    assert rules[0..] == rules;
  }

  /** Picking a rearrangement of the positions rearranges the picked rules. */
  lemma PickPermutation(rules: seq<Rule>, a: seq<nat>, b: seq<nat>)
    requires forall k :: 0 <= k < |a| ==> a[k] < |rules|
    requires multiset(a) == multiset(b)
    ensures forall k :: 0 <= k < |b| ==> b[k] < |rules|
    ensures multiset(Pick(rules, a)) == multiset(Pick(rules, b))
  {
    forall k | 0 <= k < |b|
      ensures b[k] < |rules|
    {
      assert b[k] in multiset(a);
    }
    ImagePermutation(RuleAt(rules), a, b);
  }

  /** Positions depend only on the categories along the list. */
  lemma {:induction false} PositionsSameCategories(a: seq<Rule>, b: seq<Rule>, c: Category, from: nat)
    requires |a| == |b|
    requires forall i :: 0 <= i < |a| ==> a[i].category == b[i].category
    ensures PositionsFrom(a, c, from) == PositionsFrom(b, c, from)
    decreases |a| - from
  {
    if from < |a| {
      PositionsSameCategories(a, b, c, from + 1);
    }
  }

  /** Numbered along `order`: the rule at `order[k]` has priority `k + 1`. */
  lemma PickNumbered(rules: seq<Rule>, order: seq<nat>)
    requires forall k :: 0 <= k < |order| ==> order[k] < |rules|
    requires forall k :: 0 <= k < |order| ==> rules[order[k]].priority == Some(k + 1)
    ensures Numbered(Pick(rules, order))
    ensures StrictlySortedBy(Pick(rules, order), RulePriority)
    ensures Distinct(Image(RulePriority, Pick(rules, order)))
  {
  }

  /** After ranking the category of `c` along `order` (a rearrangement of its
      positions), sorting that category by priority lists its rules in
      exactly the order `order` gives. */
  lemma RankedOrder(rules: seq<Rule>, c: Category, order: seq<nat>)
    requires multiset(order) == multiset(CategoryPositions(rules, c))
    requires Distinct(order)
    requires forall k :: 0 <= k < |order| ==> order[k] < |rules| && HoldsCategory(rules, c, order[k])
    ensures var ranked := RankAlong(rules, c, order);
      SortBy(OfCategory(ranked, c), RulePriority) == Pick(ranked, order)
  {
    var positions := CategoryPositions(rules, c);
    var ranked := RankAlong(rules, c, order);
    assert CategoryPositions(ranked, c) == positions by {
      PositionsSameCategories(rules, ranked, c, 0);
    }
    var block := OfCategory(ranked, c);
    var picked := Pick(ranked, order);
    assert multiset(block) == multiset(picked) by {
      OfCategoryPositions(ranked, c);
      PickPermutation(ranked, positions, order);
    }
    PickNumbered(ranked, order);
    var sorted := SortBy(block, RulePriority);
    ImagePermutation(RulePriority, picked, sorted);
    PermutationDistinct(Image(RulePriority, picked), Image(RulePriority, sorted));
    SortedDistinctStrict(sorted, RulePriority);
    StrictlySortedUnique(sorted, picked, RulePriority);
  }

  /** `f` is defined on every element of `s` and `kb` ranks `f(x)` as `ka` ranks `x`. */
  ghost predicate KeysAgree<A, B>(f: A --> B, ka: A -> Option<nat>, kb: B -> Option<nat>, s: seq<A>) {
    forall i :: 0 <= i < |s| ==> f.requires(s[i]) && ka(s[i]) == kb(f(s[i]))
  }

  lemma KeysAgreePermutation<A, B>(f: A --> B, ka: A -> Option<nat>, kb: B -> Option<nat>, s: seq<A>, t: seq<A>)
    requires KeysAgree(f, ka, kb, s) && multiset(t) <= multiset(s)
    ensures KeysAgree(f, ka, kb, t)
  {
    forall i | 0 <= i < |t|
      ensures f.requires(t[i]) && ka(t[i]) == kb(f(t[i]))
    {
      assert t[i] in multiset(s);
    }
  }

  lemma {:induction false} InsertByImage<A, B>(f: A --> B, ka: A -> Option<nat>, kb: B -> Option<nat>, x: A, s: seq<A>)
    requires f.requires(x) && ka(x) == kb(f(x))
    requires KeysAgree(f, ka, kb, s)
    ensures KeysAgree(f, ka, kb, InsertBy(x, s, ka))
    ensures InsertBy(f(x), Image(f, s), kb) == Image(f, InsertBy(x, s, ka))
  {
    KeysAgreeInsert(f, ka, kb, x, s);
    if s == [] {
      assert Image(f, [x]) == [f(x)];
    } else if PriorityLeq(ka(s[0]), ka(x)) {
      InsertByImage(f, ka, kb, x, s[1..]);
      InsertByImageAfterHead(f, ka, kb, x, s);
    } else {
      InsertByImageBelowAll(f, ka, kb, x, s);
    }
  }

  lemma InsertByImageAfterHead<A, B>(f: A --> B, ka: A -> Option<nat>, kb: B -> Option<nat>, x: A, s: seq<A>)
    requires f.requires(x) && ka(x) == kb(f(x))
    requires KeysAgree(f, ka, kb, s) && s != [] && PriorityLeq(ka(s[0]), ka(x))
    requires KeysAgree(f, ka, kb, InsertBy(x, s[1..], ka))
    requires InsertBy(f(x), Image(f, s[1..]), kb) == Image(f, InsertBy(x, s[1..], ka))
    requires KeysAgree(f, ka, kb, InsertBy(x, s, ka))
    ensures InsertBy(f(x), Image(f, s), kb) == Image(f, InsertBy(x, s, ka))
  {
    var fs := Image(f, s);
    var t := InsertBy(x, s[1..], ka);
    assert InsertBy(f(x), fs, kb) == [f(s[0])] + Image(f, t) by {
      assert kb(fs[0]) == ka(s[0]);
      assert fs[1..] == Image(f, s[1..]);
    }
    assert InsertBy(x, s, ka) == [s[0]] + t;
    assert Image(f, [s[0]] + t) == [f(s[0])] + Image(f, t) by {
      ImageAppend(f, [s[0]], t);
      assert Image(f, [s[0]]) == [f(s[0])];
    }
  }

  lemma InsertByImageBelowAll<A, B>(f: A --> B, ka: A -> Option<nat>, kb: B -> Option<nat>, x: A, s: seq<A>)
    requires f.requires(x) && ka(x) == kb(f(x))
    requires KeysAgree(f, ka, kb, s) && s != [] && !PriorityLeq(ka(s[0]), ka(x))
    ensures InsertBy(f(x), Image(f, s), kb) == Image(f, InsertBy(x, s, ka))
  {
    var fs := Image(f, s);
    assert kb(fs[0]) == ka(s[0]);
    assert InsertBy(f(x), fs, kb) == [f(x)] + fs;
    ImageAppend(f, [x], s);
    assert Image(f, [x]) == [f(x)];
  }

  lemma KeysAgreeInsert<A, B>(f: A --> B, ka: A -> Option<nat>, kb: B -> Option<nat>, x: A, s: seq<A>)
    requires f.requires(x) && ka(x) == kb(f(x))
    requires KeysAgree(f, ka, kb, s)
    ensures KeysAgree(f, ka, kb, InsertBy(x, s, ka))
  {
    var r := InsertBy(x, s, ka);
    InsertByPermutes(x, s, ka);
    forall i | 0 <= i < |r|
      ensures f.requires(r[i]) && ka(r[i]) == kb(f(r[i]))
    {
      assert r[i] in multiset(s) + multiset{x};
    }
  }

  /** Sorting the images is the image of the sorted sequence, when the keys agree. */
  lemma {:induction false} SortByImage<A, B>(f: A --> B, ka: A -> Option<nat>, kb: B -> Option<nat>, s: seq<A>)
    requires KeysAgree(f, ka, kb, s)
    ensures KeysAgree(f, ka, kb, SortBy(s, ka))
    ensures SortBy(Image(f, s), kb) == Image(f, SortBy(s, ka))
    decreases |s|
  {
    KeysAgreePermutation(f, ka, kb, s, SortBy(s, ka));
    if s != [] {
      var init, x := s[..|s| - 1], s[|s| - 1];
      SortByImageStep(f, ka, kb, s, init, x);
    }
  }

  lemma {:induction false} SortByImageStep<A, B>(f: A --> B, ka: A -> Option<nat>, kb: B -> Option<nat>, s: seq<A>, init: seq<A>, x: A)
    requires KeysAgree(f, ka, kb, s)
    requires s != [] && init == s[..|s| - 1] && x == s[|s| - 1]
    requires KeysAgree(f, ka, kb, SortBy(s, ka))
    ensures SortBy(Image(f, s), kb) == Image(f, SortBy(s, ka))
    decreases |s|, 0
  {
    assert f.requires(x) && ka(x) == kb(f(x));
    assert KeysAgree(f, ka, kb, init);
    SortByImage(f, ka, kb, init);
    var image := Image(f, s);
    assert image[..|image| - 1] == Image(f, init);
    assert image[|image| - 1] == f(x);
    InsertByImage(f, ka, kb, x, SortBy(init, ka));
  }

  /** The list the drag handler works on, as rules, is the category's rules
      sorted by priority: the order the popup shows. */
  lemma RankedPositionsShown(rules: seq<Rule>, c: Category)
    ensures Pick(rules, RankedPositions(rules, c)) == SortBy(OfCategory(rules, c), RulePriority)
  {
    var positions := CategoryPositions(rules, c);
    OfCategoryPositions(rules, c);
    assert KeysAgree(RuleAt(rules), PriorityAt(rules), RulePriority, positions);
    SortByImage(RuleAt(rules), PriorityAt(rules), RulePriority, positions);
    var ranked := RankedPositions(rules, c);
    assert Pick(rules, ranked) == Image(RuleAt(rules), ranked);
    assert Pick(rules, positions) == Image(RuleAt(rules), positions);
  }

  /** Where the element at index `i` after a move came from. */
  function MoveSource(len: nat, oldIndex: nat, newIndex: nat, i: nat): (j: nat)
    requires oldIndex < len && i < len
    ensures j < len
  {
    var at := if newIndex < len then newIndex else len - 1;
    var k := if i < at then i else if i == at then oldIndex else i - 1;
    if i == at then oldIndex else if k < oldIndex then k else k + 1
  }

  /** Every element of a moved sequence, by index. */
  lemma MoveAt<T>(s: seq<T>, oldIndex: nat, newIndex: nat)
    requires oldIndex < |s|
    ensures forall i :: 0 <= i < |s| ==> Move(s, oldIndex, newIndex)[i] == s[MoveSource(|s|, oldIndex, newIndex, i)]
  {
    var rest := s[..oldIndex] + s[oldIndex + 1..];
    var at := if newIndex <= |rest| then newIndex else |rest|;
    var m := rest[..at] + [s[oldIndex]] + rest[at..];
    assert Move(s, oldIndex, newIndex) == m;
    forall i | 0 <= i < |s|
      ensures m[i] == s[MoveSource(|s|, oldIndex, newIndex, i)]
    {
      if i < at {
        assert m[i] == rest[i];
      } else if i > at {
        assert m[i] == rest[i - 1];
      }
    }
  }

  /** Moving commutes with mapping. */
  lemma MoveImage<A, B>(f: A --> B, s: seq<A>, oldIndex: nat, newIndex: nat)
    requires oldIndex < |s|
    requires forall i :: 0 <= i < |s| ==> f.requires(s[i])
    ensures forall i :: 0 <= i < |s| ==> f.requires(Move(s, oldIndex, newIndex)[i])
    ensures Image(f, Move(s, oldIndex, newIndex)) == Move(Image(f, s), oldIndex, newIndex)
  {
    MoveAt(s, oldIndex, newIndex);
    MoveAt(Image(f, s), oldIndex, newIndex);
  }

  /** Moving positions moves the rules picked from them. */
  lemma MovePick(rules: seq<Rule>, order: seq<nat>, oldIndex: nat, newIndex: nat)
    requires oldIndex < |order|
    requires forall k :: 0 <= k < |order| ==> order[k] < |rules|
    ensures forall k :: 0 <= k < |order| ==> Move(order, oldIndex, newIndex)[k] < |rules|
    ensures Pick(rules, Move(order, oldIndex, newIndex)) == Move(Pick(rules, order), oldIndex, newIndex)
  {
    MoveAt(order, oldIndex, newIndex);
    MoveAt(Pick(rules, order), oldIndex, newIndex);
  }

  /** An element ranked strictly below every other comes first after sorting. */
  lemma SortByStrictMin<T>(s: seq<T>, key: T -> Option<nat>, x: T)
    requires x in s
    requires forall y :: y in s && y != x ==> !PriorityLeq(key(y), key(x))
    ensures |SortBy(s, key)| >= 1 && SortBy(s, key)[0] == x
  {
    var sorted := SortBy(s, key);
    assert x in multiset(sorted);
    var k :| 0 <= k < |sorted| && sorted[k] == x;
    assert sorted[0] in multiset(s);
    if k > 0 {
      assert PriorityLeq(key(sorted[0]), key(sorted[k]));
    }
  }

  /** The first element heads the elements that share its key. */
  lemma WithKeyHead<T>(s: seq<T>, key: T -> Option<nat>)
    requires s != []
    ensures var w := WithKey(s, key, key(s[0])); |w| >= 1 && w[0] == s[0]
  {
    assert s == [s[0]] + s[1..];
    WithKeyCons(s[0], s[1..], key, key(s[0]));
  }

  /** The first element comes first after sorting when no element ranks
      below it (sorting is stable). */
  lemma SortByFirstMin<T>(s: seq<T>, key: T -> Option<nat>)
    requires s != []
    requires forall i :: 0 <= i < |s| ==> PriorityLeq(key(s[0]), key(s[i]))
    ensures |SortBy(s, key)| >= 1 && SortBy(s, key)[0] == s[0]
  {
    var sorted := SortBy(s, key);
    var p := key(s[0]);
    assert key(sorted[0]) == p by {
      assert s[0] in multiset(sorted);
      var k :| 0 <= k < |sorted| && sorted[k] == s[0];
      assert sorted[0] in multiset(s);
      var j :| 0 <= j < |s| && s[j] == sorted[0];
      PriorityLeqTotalOrder(p, key(sorted[0]), p);
      if k > 0 {
        assert PriorityLeq(key(sorted[0]), key(sorted[k]));
      }
    }
    WithKeyHead(s, key);
    WithKeyHead(sorted, key);
    SortByStable(s, key, p);
  }

  /** The drag list has one entry per rule of the category. */
  lemma RankedPositionsLength(rules: seq<Rule>, c: Category)
    ensures |RankedPositions(rules, c)| == |OfCategory(rules, c)|
  {
    OfCategoryPositions(rules, c);
  }

  /** A rearrangement of positions of the category holds positions of the
      category, each once. */
  lemma PositionsPermutation(rules: seq<Rule>, c: Category, positions: seq<nat>, order: seq<nat>)
    requires forall k :: 0 <= k < |positions| ==> HoldsCategory(rules, c, positions[k])
    requires Distinct(positions)
    requires multiset(order) == multiset(positions)
    ensures Distinct(order)
    ensures forall k :: 0 <= k < |order| ==> HoldsCategory(rules, c, order[k])
  {
    PermutationDistinct(positions, order);
    forall k | 0 <= k < |order|
      ensures HoldsCategory(rules, c, order[k])
    {
      assert order[k] in multiset(positions);
    }
  }

  /** A moved drag list still lists each position of the category once. */
  lemma MovedPositions(rules: seq<Rule>, c: Category, oldIndex: nat, newIndex: nat)
    requires oldIndex < |RankedPositions(rules, c)|
    ensures var order := Move(RankedPositions(rules, c), oldIndex, newIndex);
      && multiset(order) == multiset(CategoryPositions(rules, c))
      && Distinct(order)
      && (forall k :: 0 <= k < |order| ==> HoldsCategory(rules, c, order[k]))
  {
    MovedPermutation(rules, c, oldIndex, newIndex);
    PositionsPermutation(rules, c, CategoryPositions(rules, c), Move(RankedPositions(rules, c), oldIndex, newIndex));
  }

  lemma MovedPermutation(rules: seq<Rule>, c: Category, oldIndex: nat, newIndex: nat)
    requires oldIndex < |RankedPositions(rules, c)|
    ensures multiset(Move(RankedPositions(rules, c), oldIndex, newIndex)) == multiset(CategoryPositions(rules, c))
  {
  }

  /** The rule at `order[k]` has priority `k + 1`. */
  ghost predicate RankedAlong(rules: seq<Rule>, order: seq<nat>) {
    forall k :: 0 <= k < |order| ==> order[k] < |rules| && rules[order[k]].priority == Some(k + 1)
  }

  /** Ranking the category along a rearrangement of its positions: the rule
      at `order[k]` gets priority `k + 1`; rules of other categories and all
      other fields stay as they were. */
  function RankAlong(rules: seq<Rule>, c: Category, order: seq<nat>): (r: seq<Rule>)
    requires Distinct(order)
    requires forall k :: 0 <= k < |order| ==> order[k] < |rules| && HoldsCategory(rules, c, order[k])
    ensures |r| == |rules|
    ensures forall i :: 0 <= i < |rules| ==> Unranked(r[i]) == Unranked(rules[i])
    ensures forall i :: 0 <= i < |rules| && !HoldsCategory(rules, c, i) ==> r[i] == rules[i]
    ensures RankedAlong(r, order)
  {
    assert order[0..] == order;
    var r := AssignRanks(rules, order, 0);
    forall i | 0 <= i < |rules| && !HoldsCategory(rules, c, i)
      ensures r[i] == rules[i]
    {
      assert i !in order;
    }
    r
  }

  // ---------------------------------------------------------------------------
  // Dragging a rule within its category

  /** The drag handler of one category's list (`initSortable`'s `onEnd`), on
      the rule list, before anything else is done to it. Nothing is
      stored when the indices are equal, and nothing when `oldIndex` is past
      the list (the handler then fails on the missing rule before saving).
      Otherwise the dragged list's rules are renumbered 1..N in the new
      order, in place; no other rule and no other field changes. */
  function RankDragged(rules: seq<Rule>, c: Category, oldIndex: nat, newIndex: nat): (r: Option<seq<Rule>>)
    ensures r.Some? <==> oldIndex != newIndex && oldIndex < |OfCategory(rules, c)|
    ensures r.Some? ==> |r.value| == |rules|
    ensures r.Some? ==> forall i :: 0 <= i < |rules| ==> Unranked(r.value[i]) == Unranked(rules[i])
    ensures r.Some? ==> forall i :: 0 <= i < |rules| && rules[i].category != c ==> r.value[i] == rules[i]
    ensures r.Some? ==>
      oldIndex < |RankedPositions(rules, c)| && RankedAlong(r.value, Move(RankedPositions(rules, c), oldIndex, newIndex))
  {
    var ranked := RankedPositions(rules, c);
    RankedPositionsLength(rules, c);
    if oldIndex == newIndex || oldIndex >= |ranked| then None
    else
      MovedPositions(rules, c, oldIndex, newIndex);
      Some(RankAlong(rules, c, Move(ranked, oldIndex, newIndex)))
  }

  /** After a drag, the category shows its rules in the dragged order: the
      list shown before, with the rule from `oldIndex` moved to `newIndex`
      (or to the end when `newIndex` is past it), and renumbered. */
  lemma RankDraggedShown(rules: seq<Rule>, c: Category, oldIndex: nat, newIndex: nat)
    requires RankDragged(rules, c, oldIndex, newIndex).Some?
    ensures var before := SortBy(OfCategory(rules, c), RulePriority);
      var after := RankDragged(rules, c, oldIndex, newIndex).value;
      var shown := SortBy(OfCategory(after, c), RulePriority);
      && oldIndex < |before| == |shown|
      && Image(Unranked, shown) == Image(Unranked, Move(before, oldIndex, newIndex))
      && Numbered(shown)
  {
    var ranked := RankedPositions(rules, c);
    RankedPositionsLength(rules, c);
    var order := Move(ranked, oldIndex, newIndex);
    MovedPositions(rules, c, oldIndex, newIndex);
    var after := RankAlong(rules, c, order);
    assert RankDragged(rules, c, oldIndex, newIndex).value == after;
    var before := SortBy(OfCategory(rules, c), RulePriority);
    var shown := SortBy(OfCategory(after, c), RulePriority);
    assert shown == Pick(after, order) by {
      RankedOrder(rules, c, order);
    }
    assert Pick(rules, order) == Move(before, oldIndex, newIndex) by {
      RankedPositionsShown(rules, c);
      MovePick(rules, ranked, oldIndex, newIndex);
    }
    PickErased(after, rules, order);
    PickNumbered(after, order);
  }

  /** Positions picked from two lists that agree apart from priorities
      give rules that agree apart from priorities. */
  lemma PickErased(a: seq<Rule>, b: seq<Rule>, order: seq<nat>)
    requires |a| == |b|
    requires forall i :: 0 <= i < |a| ==> Unranked(a[i]) == Unranked(b[i])
    requires forall k :: 0 <= k < |order| ==> order[k] < |a|
    ensures Image(Unranked, Pick(a, order)) == Image(Unranked, Pick(b, order))
  {
  }
}
