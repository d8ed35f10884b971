/** Tab order: "pin one entity first, keep the rest in order with its id filtered out",
    `findIndex`/`find` by id, the id-based active-tab flag and the tab-centring
    arithmetic. The same projection serves the category tabs (keyed by category id)
    and the subcategory tabs (keyed by subcategory id), so it is generic in the entity
    and takes the id accessor as `key`. */
module Order {
  import opened Seqs

  /** The predicate of `xs.filter(x => x.id !== k)`. */
  function KeyDiffers<T>(k: int, key: T -> int): T -> bool
  {
    x => key(x) != k
  }

  /** `xs.filter(x => key(x) !== k)`. */
  function Without<T(!new)>(xs: seq<T>, k: int, key: T -> int): (r: seq<T>)
    ensures forall x :: x in r <==> x in xs && key(x) != k
    ensures IsSubsequence(r, xs)
  {
    FilterIsSubsequence(xs, KeyDiffers(k, key));
    FilterMembers(xs, KeyDiffers(k, key));
    Filter(xs, KeyDiffers(k, key))
  }

  /** `pin ? [pin, ...xs.filter(x => key(x) !== key(pin))] : xs`. */
  function Pinned<T(!new)>(xs: seq<T>, pin: Option<T>, key: T -> int): (r: seq<T>)
    ensures pin.None? ==> r == xs
    ensures pin.Some? ==> |r| > 0 && r[0] == pin.value
    ensures pin.Some? ==> IsSubsequence(r[1..], xs)
    ensures pin.Some? ==> forall x :: x in r[1..] <==> x in xs && key(x) != key(pin.value)
  {
    match pin
    case None => xs
    case Some(p) =>
      var rest := Without(xs, key(p), key);
      assert ([p] + rest)[1..] == rest;
      [p] + rest
  }

  /** How many elements of `xs` have id `k`. */
  function CountKey<T>(xs: seq<T>, k: int, key: T -> int): nat
  {
    if xs == [] then 0
    else CountKey(xs[..|xs| - 1], k, key) + (if key(xs[|xs| - 1]) == k then 1 else 0)
  }

  /** Filtering by id removes exactly the elements carrying that id. */
  lemma {:induction false} WithoutLength<T(!new)>(xs: seq<T>, k: int, key: T -> int)
    ensures |Without(xs, k, key)| == |xs| - CountKey(xs, k, key)
  {
    if xs != [] {
      WithoutLength(xs[..|xs| - 1], k, key);
    }
  }

  /** The pinned order has one entry for the pinned entity and one for every entity
      whose id differs from it. */
  lemma PinnedLength<T(!new)>(xs: seq<T>, p: T, key: T -> int)
    ensures |Pinned(xs, Some(p), key)| == 1 + |xs| - CountKey(xs, key(p), key)
  {
    WithoutLength(xs, key(p), key);
  }

  lemma {:induction false} WithoutNoMatch<T(!new)>(xs: seq<T>, k: int, key: T -> int)
    requires CountKey(xs, k, key) == 0
    ensures Without(xs, k, key) == xs
  {
    if xs != [] {
      WithoutNoMatch(xs[..|xs| - 1], k, key);
      assert xs[..|xs| - 1] + [xs[|xs| - 1]] == xs;
    }
  }

  lemma {:induction false} CountKeyMember<T>(xs: seq<T>, x: T, key: T -> int)
    requires x in xs
    ensures CountKey(xs, key(x), key) >= 1
  {
    var init := xs[..|xs| - 1];
    if x != xs[|xs| - 1] {
      assert x in init by { assert xs == init + [xs[|xs| - 1]]; }
      CountKeyMember(init, x, key);
    }
  }

  /** With `p` the only element of `xs` that has its id, removing that id removes `p`
      once and nothing else. */
  lemma {:induction false} WithoutUnique<T(!new)>(xs: seq<T>, p: T, key: T -> int)
    requires p in xs && CountKey(xs, key(p), key) == 1
    ensures multiset(Without(xs, key(p), key)) == multiset(xs) - multiset{p}
  {
    var init, last := xs[..|xs| - 1], xs[|xs| - 1];
    assert xs == init + [last];
    if last == p {
      WithoutNoMatch(init, key(p), key);
    } else {
      assert p in init;
      CountKeyMember(init, p, key);
      WithoutUnique(init, p, key);
    }
  }

  /** When the pinned entity occurs exactly once (by id) in the input, pinning is a
      permutation: nothing is dropped or duplicated. */
  lemma PinnedIsPermutation<T(!new)>(xs: seq<T>, p: T, key: T -> int)
    requires p in xs && CountKey(xs, key(p), key) == 1
    ensures multiset(Pinned(xs, Some(p), key)) == multiset(xs)
  {
    WithoutUnique(xs, p, key);
  }

  /** Pinning an already pinned order with the same entity changes nothing: the tab
      bar that receives an order pinned by its caller and pins it again shows the same
      sequence. */
  lemma PinnedIdempotent<T(!new)>(xs: seq<T>, pin: Option<T>, key: T -> int)
    ensures Pinned(Pinned(xs, pin, key), pin, key) == Pinned(xs, pin, key)
  {
    if pin.Some? {
      var p := pin.value;
      var differs := KeyDiffers(key(p), key);
      var rest := Filter(xs, differs);
      PinnedSome(xs, p, key);
      PinnedSome([p] + rest, p, key);
      FilterAppend([p], rest, differs);
      assert Filter([p], differs) == [] by {
        assert [p][..0] == [];
        assert !differs(p);
      }
      FilterIdempotent(xs, differs);
      assert Filter([p] + rest, differs) == rest;
      assert Pinned([p] + rest, Some(p), key) == [p] + rest;
    }
  }

  lemma PinnedSome<T(!new)>(xs: seq<T>, p: T, key: T -> int)
    ensures Pinned(xs, Some(p), key) == [p] + Filter(xs, KeyDiffers(key(p), key))
  {
  }

  /** No two elements share an id. */
  predicate UniqueKeys<T>(xs: seq<T>, key: T -> int)
  {
    forall i, j :: 0 <= i < j < |xs| ==> key(xs[i]) != key(xs[j])
  }

  /** A tab is highlighted when the visible entity has its id. */
  predicate IsActive<T>(tab: T, visible: Option<T>, key: T -> int)
  {
    visible.Some? && key(visible.value) == key(tab)
  }

  /** With unique ids at most one tab of a bar is highlighted. */
  lemma AtMostOneActive<T>(tabs: seq<T>, visible: Option<T>, key: T -> int, i: nat, j: nat)
    requires UniqueKeys(tabs, key)
    requires i < |tabs| && j < |tabs|
    requires IsActive(tabs[i], visible, key) && IsActive(tabs[j], visible, key)
    ensures i == j
  {
  }

  /** Filtering keeps ids unique. */
  lemma {:induction false} FilterKeepsUniqueKeys<T(!new)>(xs: seq<T>, p: T -> bool, key: T -> int)
    requires UniqueKeys(xs, key)
    ensures UniqueKeys(Filter(xs, p), key)
  {
    if xs != [] {
      var init, last := xs[..|xs| - 1], xs[|xs| - 1];
      FilterKeepsUniqueKeys(init, p, key);
      FilterMembers(init, p);
      var f := Filter(init, p);
      if p(last) {
        forall i | 0 <= i < |f| ensures key(f[i]) != key(last) {
          assert f[i] in init;
          var j :| 0 <= j < |init| && init[j] == f[i];
          assert xs[j] == f[i];
        }
      }
    }
  }

  /** Pinning an entity of a list with unique ids keeps the ids unique, so at most one
      tab of the pinned bar is highlighted. */
  lemma PinnedKeepsUniqueKeys<T(!new)>(xs: seq<T>, pin: Option<T>, key: T -> int)
    requires UniqueKeys(xs, key)
    ensures UniqueKeys(Pinned(xs, pin, key), key)
  {
    if pin.Some? {
      var p := pin.value;
      var rest := Without(xs, key(p), key);
      FilterKeepsUniqueKeys(xs, KeyDiffers(key(p), key), key);
      var r := Pinned(xs, pin, key);
      forall i, j | 0 <= i < j < |r| ensures key(r[i]) != key(r[j]) {
        assert r[j] == rest[j - 1];
        if i == 0 {
          assert rest[j - 1] in rest;
        } else {
          assert r[i] == rest[i - 1];
        }
      }
    }
  }

  /** `xs.findIndex(x => key(x) === k)`, with -1 as `None`. */
  function IndexOfKey<T>(xs: seq<T>, k: int, key: T -> int): (r: Option<nat>)
    ensures r.Some? ==> r.value < |xs| && key(xs[r.value]) == k
                        && forall j :: 0 <= j < r.value ==> key(xs[j]) != k
    ensures r.None? ==> forall j :: 0 <= j < |xs| ==> key(xs[j]) != k
  {
    if xs == [] then None
    else if key(xs[0]) == k then Some(0)
    else match IndexOfKey(xs[1..], k, key)
      case None => None
      case Some(i) => Some(i + 1)
  }

  /** `xs.find(x => key(x) === k)`: the first element with the key. */
  function FindByKey<T>(xs: seq<T>, k: int, key: T -> int): (r: Option<T>)
    ensures r.Some? ==> r.value in xs && key(r.value) == k
    ensures r.Some? ==> exists i :: 0 <= i < |xs| && r.value == xs[i] && key(xs[i]) == k
                                    && forall j :: 0 <= j < i ==> key(xs[j]) != k
    ensures r.None? ==> forall x :: x in xs ==> key(x) != k
  {
    match IndexOfKey(xs, k, key)
    case None => None
    case Some(i) => Some(xs[i])
  }

  /** The horizontal scroll position that centres tab `index` in the tab bar:
      `max(0, index * tabWidth - containerWidth / 2 + tabWidth / 2)`. The widths the
      screens use are even, so the halves are exact. */
  function CentreTarget(index: nat, tabWidth: nat, containerWidth: nat): (x: nat)
    requires tabWidth % 2 == 0 && containerWidth % 2 == 0
    ensures x >= index * tabWidth - containerWidth / 2 + tabWidth / 2
    ensures x == 0 || x == index * tabWidth - containerWidth / 2 + tabWidth / 2
  {
    var raw := index * tabWidth - containerWidth / 2 + tabWidth / 2;
    if raw > 0 then raw else 0
  }

  /** Tabs further right are never scrolled to a smaller position. */
  lemma CentreTargetMonotone(i: nat, j: nat, tabWidth: nat, containerWidth: nat)
    requires tabWidth % 2 == 0 && containerWidth % 2 == 0
    requires i <= j
    ensures CentreTarget(i, tabWidth, containerWidth) <= CentreTarget(j, tabWidth, containerWidth)
  {
    assert i * tabWidth <= j * tabWidth by {
      var d := j - i;
      assert j * tabWidth == i * tabWidth + d * tabWidth;
    }
  }
}
