/** Find-or-insert over a list whose elements carry a key: the shape shared by
    the three merge levels of core/core.go (hosts by IPv4, ports by Number,
    host keys by Type). A linear search returns the first element with the
    incoming element's key; a hit is merged in place, a miss is appended. */
module Keyed {
  import opened Model

  predicate Distinct<K(==)>(s: seq<K>)
  {
    forall i, j :: 0 <= i < j < |s| ==> s[i] != s[j]
  }

  /** The position of the first occurrence of `x` (the linear searches
      findHostByIPv4, findPortByNumber and findKeyByType). */
  function FirstIndexOf<K(==)>(s: seq<K>, x: K): (r: Option<nat>)
    ensures r.None? <==> x !in s
    ensures r.Some? ==> r.value < |s| && s[r.value] == x
    ensures r.Some? ==> forall j :: 0 <= j < r.value ==> s[j] != x
  {
    if s == [] then None
    else if s[0] == x then Some(0)
    else
      match FirstIndexOf(s[1..], x)
      case None => None
      case Some(i) =>
        assert forall j :: 1 <= j <= i ==> s[j] == s[1..][j - 1];
        Some(i + 1)
  }

  /** The keys of the elements, in order. */
  function KeysOf<T(!new), K(==)>(s: seq<T>, key: T -> K): seq<K>
  {
    seq(|s|, i requires 0 <= i < |s| => key(s[i]))
  }

  /** Merging into an element with the same key keeps that key. */
  ghost predicate KeepsKey<T(!new), K>(key: T -> K, merge: (T, T) -> T)
  {
    forall a, b :: key(a) == key(b) ==> key(merge(a, b)) == key(a)
  }

  /** One find-or-insert step: merge `x` into the first element with its key,
      or append it when there is none. */
  function Upsert<T(!new), K(==)>(s: seq<T>, x: T, key: T -> K, merge: (T, T) -> T): seq<T>
  {
    match FirstIndexOf(KeysOf(s, key), key(x))
    case Some(i) => s[i := merge(s[i], x)]
    case None => s + [x]
  }

  /** The loop over the incoming elements, in order. */
  function UpsertAll<T(!new), K(==)>(s: seq<T>, inc: seq<T>, key: T -> K, merge: (T, T) -> T): seq<T>
    decreases |inc|
  {
    if inc == [] then s
    else Upsert(UpsertAll(s, inc[..|inc| - 1], key, merge), inc[|inc| - 1], key, merge)
  }

  /** The values of `inc`, in order, that are not in `known` and do not
      repeat an earlier value of `inc`. */
  function NewValues<K(==)>(known: seq<K>, inc: seq<K>): seq<K>
    decreases |inc|
  {
    if inc == [] then []
    else
      var pre := NewValues(known, inc[..|inc| - 1]);
      var x := inc[|inc| - 1];
      if x in known || x in pre then pre else pre + [x]
  }

  /** The element a lookup by key finds: the first one with that key. */
  function Lookup<T(!new), K(==)>(s: seq<T>, key: T -> K, k: K): Option<T>
  {
    match FirstIndexOf(KeysOf(s, key), k)
    case Some(i) => Some(s[i])
    case None => None
  }

  /** Reference definition of what ends up stored under key `k`: the element
      `base` found there before (or else the first incoming element with key
      `k`), merged in turn with every later incoming element with key `k`. */
  function Accumulate<T(!new), K(==)>(base: Option<T>, inc: seq<T>, key: T -> K, k: K, merge: (T, T) -> T): Option<T>
    decreases |inc|
  {
    if inc == [] then base
    else
      var acc := Accumulate(base, inc[..|inc| - 1], key, k, merge);
      var x := inc[|inc| - 1];
      if key(x) != k then acc
      else
        match acc
        case None => Some(x)
        case Some(a) => Some(merge(a, x))
  }

  // ---------------------------------------------------------------------
  // Facts about the searches and the key sequence

  lemma FirstIndexOfPrefix<K>(a: seq<K>, b: seq<K>, x: K)
    requires x in a
    ensures FirstIndexOf(a + b, x) == FirstIndexOf(a, x)
  {
    var i := FirstIndexOf(a, x).value;
    var i' := FirstIndexOf(a + b, x).value;
    assert (a + b)[i] == x;
  }

  lemma FirstIndexOfAppend<K>(a: seq<K>, y: K, x: K)
    ensures FirstIndexOf(a + [y], x) ==
      if x in a then FirstIndexOf(a, x) else if x == y then Some(|a|) else None
  {
    if x in a {
      FirstIndexOfPrefix(a, [y], x);
    } else if x == y {
      var r := FirstIndexOf(a + [y], x);
      assert (a + [y])[|a|] == x;
    } else {
      assert x !in a + [y];
    }
  }

  lemma KeysOfAppend<T(!new), K>(s: seq<T>, x: T, key: T -> K)
    ensures KeysOf(s + [x], key) == KeysOf(s, key) + [key(x)]
  {
  }

  lemma KeysOfConcat<T(!new), K>(a: seq<T>, b: seq<T>, key: T -> K)
    ensures KeysOf(a + b, key) == KeysOf(a, key) + KeysOf(b, key)
  {
  }

  lemma KeysOfPrefix<T(!new), K>(s: seq<T>, n: nat, key: T -> K)
    requires n <= |s|
    ensures KeysOf(s[..n], key) == KeysOf(s, key)[..n]
  {
  }

  lemma KeysOfUpdate<T(!new), K>(s: seq<T>, i: nat, y: T, key: T -> K)
    requires i < |s| && key(y) == key(s[i])
    ensures KeysOf(s[i := y], key) == KeysOf(s, key)
  {
  }

  /** A step keeps the keys in place and appends the key of `x` iff it is new. */
  lemma UpsertStepKeys<T(!new), K>(s: seq<T>, x: T, key: T -> K, merge: (T, T) -> T)
    requires KeepsKey(key, merge)
    ensures KeysOf(Upsert(s, x, key, merge), key) ==
      if key(x) in KeysOf(s, key) then KeysOf(s, key) else KeysOf(s, key) + [key(x)]
  {
    match FirstIndexOf(KeysOf(s, key), key(x))
    case Some(i) =>
      assert key(s[i]) == key(x);
      KeysOfUpdate(s, i, merge(s[i], x), key);
    case None =>
      KeysOfAppend(s, x, key);
  }

  // ---------------------------------------------------------------------
  // NewValues

  lemma {:induction false} NewValuesFacts<K>(known: seq<K>, inc: seq<K>)
    ensures Distinct(NewValues(known, inc))
    ensures forall x :: x in NewValues(known, inc) ==> x !in known && x in inc
    ensures forall x :: x in inc ==> x in known || x in NewValues(known, inc)
    ensures |NewValues(known, inc)| <= |inc|
    decreases |inc|
  {
    if inc != [] {
      var pre := inc[..|inc| - 1];
      NewValuesFacts(known, pre);
      assert inc == pre + [inc[|inc| - 1]];
    }
  }

  /** Incoming values that are pairwise distinct and all new are taken as they are. */
  lemma {:induction false} NewValuesAllFresh<K>(known: seq<K>, inc: seq<K>)
    requires Distinct(inc)
    requires forall x :: x in inc ==> x !in known
    ensures NewValues(known, inc) == inc
    decreases |inc|
  {
    if inc != [] {
      var pre := inc[..|inc| - 1];
      assert forall x :: x in pre ==> x in inc;
      NewValuesAllFresh(known, pre);
      assert inc[|inc| - 1] !in pre;
      assert inc == pre + [inc[|inc| - 1]];
    }
  }

  // ---------------------------------------------------------------------
  // What UpsertAll does

  /** Existing keys keep their positions; the new keys of the incoming
      elements follow, each once, in order of first appearance. */
  lemma {:induction false} UpsertAllKeys<T(!new), K>(s: seq<T>, inc: seq<T>, key: T -> K, merge: (T, T) -> T)
    requires KeepsKey(key, merge)
    ensures KeysOf(UpsertAll(s, inc, key, merge), key) ==
      KeysOf(s, key) + NewValues(KeysOf(s, key), KeysOf(inc, key))
    decreases |inc|
  {
    if inc != [] {
      var pre := inc[..|inc| - 1];
      var x := inc[|inc| - 1];
      UpsertAllKeys(s, pre, key, merge);
      UpsertStepKeys(UpsertAll(s, pre, key, merge), x, key, merge);
      KeysOfPrefix(inc, |inc| - 1, key);
      assert KeysOf(inc, key)[..|inc| - 1] == KeysOf(pre, key);
      assert KeysOf(inc, key)[|inc| - 1] == key(x);
    }
  }

  /** UpsertAll keeps the first |s| positions and adds one element per new key. */
  lemma UpsertAllLength<T(!new), K>(s: seq<T>, inc: seq<T>, key: T -> K, merge: (T, T) -> T)
    requires KeepsKey(key, merge)
    ensures |UpsertAll(s, inc, key, merge)| == |s| + |NewValues(KeysOf(s, key), KeysOf(inc, key))|
  {
    UpsertAllKeys(s, inc, key, merge);
    assert |KeysOf(UpsertAll(s, inc, key, merge), key)| == |UpsertAll(s, inc, key, merge)|;
  }

  /** When the keys were unique before, they are unique after. */
  lemma UpsertAllDistinct<T(!new), K>(s: seq<T>, inc: seq<T>, key: T -> K, merge: (T, T) -> T)
    requires KeepsKey(key, merge)
    requires Distinct(KeysOf(s, key))
    ensures Distinct(KeysOf(UpsertAll(s, inc, key, merge), key))
  {
    UpsertAllKeys(s, inc, key, merge);
    var ks := KeysOf(s, key);
    var nv := NewValues(ks, KeysOf(inc, key));
    NewValuesFacts(ks, KeysOf(inc, key));
    var r := ks + nv;
    forall i, j | 0 <= i < j < |r| ensures r[i] != r[j] {
      if j >= |ks| && i < |ks| {
        assert r[j] in nv;
        assert r[i] in ks;
      } else if i >= |ks| {
        assert r[i] == nv[i - |ks|] && r[j] == nv[j - |ks|];
      }
    }
  }

  /** Lookup after one step. */
  lemma UpsertLookup<T(!new), K>(s: seq<T>, x: T, key: T -> K, merge: (T, T) -> T, k: K)
    requires KeepsKey(key, merge)
    ensures Lookup(Upsert(s, x, key, merge), key, k) ==
      if key(x) != k then Lookup(s, key, k)
      else match Lookup(s, key, k)
        case None => Some(x)
        case Some(a) => Some(merge(a, x))
  {
    var ks := KeysOf(s, key);
    UpsertStepKeys(s, x, key, merge);
    match FirstIndexOf(ks, key(x))
    case Some(i) =>
      assert key(s[i]) == key(x);
    case None =>
      FirstIndexOfAppend(ks, key(x), k);
  }

  /** What a lookup finds after the merge is given by Accumulate. */
  lemma {:induction false} UpsertAllLookup<T(!new), K>(s: seq<T>, inc: seq<T>, key: T -> K, merge: (T, T) -> T, k: K)
    requires KeepsKey(key, merge)
    ensures Lookup(UpsertAll(s, inc, key, merge), key, k) ==
      Accumulate(Lookup(s, key, k), inc, key, k, merge)
    decreases |inc|
  {
    if inc != [] {
      var pre := inc[..|inc| - 1];
      UpsertAllLookup(s, pre, key, merge, k);
      UpsertLookup(UpsertAll(s, pre, key, merge), inc[|inc| - 1], key, merge, k);
    }
  }

  /** An element is left exactly as it was unless it is the first with its
      key and some incoming element carries that key. */
  lemma {:induction false} UpsertAllUntouched<T(!new), K>(s: seq<T>, inc: seq<T>, key: T -> K, merge: (T, T) -> T, j: nat)
    requires KeepsKey(key, merge)
    requires j < |s|
    requires key(s[j]) !in KeysOf(inc, key) || FirstIndexOf(KeysOf(s, key), key(s[j])) != Some(j)
    ensures j < |UpsertAll(s, inc, key, merge)| && UpsertAll(s, inc, key, merge)[j] == s[j]
    decreases |inc|
  {
    UpsertAllLength(s, inc, key, merge);
    if inc != [] {
      var pre := inc[..|inc| - 1];
      var x := inc[|inc| - 1];
      var u := UpsertAll(s, pre, key, merge);
      KeysOfPrefix(inc, |inc| - 1, key);
      assert KeysOf(pre, key) == KeysOf(inc, key)[..|inc| - 1];
      UpsertAllUntouched(s, pre, key, merge, j);
      UpsertAllKeys(s, pre, key, merge);
      var ks := KeysOf(s, key);
      var ku := KeysOf(u, key);
      assert ku == ks + NewValues(ks, KeysOf(pre, key));
      match FirstIndexOf(ku, key(x))
      case None =>
      case Some(i) =>
        if i == j {
          assert key(x) == key(s[j]);
          assert key(x) == KeysOf(inc, key)[|inc| - 1];
          assert key(s[j]) in ks;
          FirstIndexOfPrefix(ks, NewValues(ks, KeysOf(pre, key)), key(s[j]));
          assert false;
        }
    }
  }

  /** Incoming elements with pairwise distinct, all-new keys are appended as they are. */
  lemma {:induction false} UpsertAllFresh<T(!new), K>(s: seq<T>, inc: seq<T>, key: T -> K, merge: (T, T) -> T)
    requires KeepsKey(key, merge)
    requires Distinct(KeysOf(inc, key))
    requires forall x :: x in KeysOf(inc, key) ==> x !in KeysOf(s, key)
    ensures UpsertAll(s, inc, key, merge) == s + inc
    decreases |inc|
  {
    if inc != [] {
      var pre := inc[..|inc| - 1];
      var x := inc[|inc| - 1];
      KeysOfPrefix(inc, |inc| - 1, key);
      assert KeysOf(pre, key) == KeysOf(inc, key)[..|inc| - 1];
      UpsertAllFresh(s, pre, key, merge);
      KeysOfConcat(s, pre, key);
      assert key(x) == KeysOf(inc, key)[|inc| - 1];
      assert key(x) !in KeysOf(s + pre, key);
      assert inc == pre + [x];
    }
  }

  /** Merging the concatenation of two lists is merging one after the other. */
  lemma {:induction false} UpsertAllConcat<T(!new), K>(s: seq<T>, a: seq<T>, b: seq<T>, key: T -> K, merge: (T, T) -> T)
    ensures UpsertAll(s, a + b, key, merge) == UpsertAll(UpsertAll(s, a, key, merge), b, key, merge)
    decreases |b|
  {
    if b == [] {
      assert a + b == a;
    } else {
      UpsertAllConcat(s, a, b[..|b| - 1], key, merge);
      assert (a + b)[..|a + b| - 1] == a + b[..|b| - 1];
    }
  }

  /** Incoming values that are all known add nothing. */
  lemma NewValuesNone<K>(known: seq<K>, inc: seq<K>)
    requires forall x :: x in inc ==> x in known
    ensures NewValues(known, inc) == []
  {
    NewValuesFacts(known, inc);
    var nv := NewValues(known, inc);
    assert forall x :: x !in nv;
  }

  /** A list merged into a result that already holds, under each of the
      list's keys, what accumulating the list there would give is left as
      it is. */
  lemma UpsertAllAgain<T(!new), K>(r: seq<T>, inc: seq<T>, key: T -> K, merge: (T, T) -> T)
    requires KeepsKey(key, merge)
    requires forall k :: k in KeysOf(inc, key) ==> k in KeysOf(r, key)
    requires forall k :: k in KeysOf(inc, key) ==>
      Accumulate(Lookup(r, key, k), inc, key, k, merge) == Lookup(r, key, k)
    ensures UpsertAll(r, inc, key, merge) == r
  {
    var u := UpsertAll(r, inc, key, merge);
    UpsertAllKeys(r, inc, key, merge);
    NewValuesNone(KeysOf(r, key), KeysOf(inc, key));
    assert KeysOf(u, key) == KeysOf(r, key);
    forall j | 0 <= j < |r| ensures u[j] == r[j] {
      UpsertAllAgainAt(r, inc, key, merge, j);
    }
  }

  lemma UpsertAllAgainAt<T(!new), K>(r: seq<T>, inc: seq<T>, key: T -> K, merge: (T, T) -> T, j: nat)
    requires KeepsKey(key, merge)
    requires j < |r|
    requires KeysOf(UpsertAll(r, inc, key, merge), key) == KeysOf(r, key)
    requires key(r[j]) in KeysOf(inc, key) ==>
      Accumulate(Lookup(r, key, key(r[j])), inc, key, key(r[j]), merge) == Lookup(r, key, key(r[j]))
    ensures UpsertAll(r, inc, key, merge)[j] == r[j]
  {
    var k := key(r[j]);
    if k !in KeysOf(inc, key) || FirstIndexOf(KeysOf(r, key), k) != Some(j) {
      UpsertAllUntouched(r, inc, key, merge, j);
    } else {
      UpsertAllLookup(r, inc, key, merge, k);
    }
  }

  // ---------------------------------------------------------------------
  // Idempotence

  /** `a` merged in turn with every element of `t`. */
  function Fold<T>(a: T, t: seq<T>, merge: (T, T) -> T): T
    decreases |t|
  {
    if t == [] then a else merge(Fold(a, t[..|t| - 1], merge), t[|t| - 1])
  }

  /** The incoming elements with key `k`, in order. */
  function Select<T(!new), K(==)>(inc: seq<T>, key: T -> K, k: K): (r: seq<T>)
    ensures |r| <= |inc|
    ensures forall x :: x in r ==> x in inc && key(x) == k
    decreases |inc|
  {
    if inc == [] then []
    else
      var pre := Select(inc[..|inc| - 1], key, k);
      var x := inc[|inc| - 1];
      assert forall y :: y in inc[..|inc| - 1] ==> y in inc;
      if key(x) == k then pre + [x] else pre
  }

  /** Folding a list into the result of folding it once changes nothing, and
      an element merged into itself is unchanged, for elements satisfying
      `ok`. */
  ghost predicate FoldAbsorbing<T(!new)>(merge: (T, T) -> T, ok: T -> bool)
  {
    (forall a, t :: (forall x :: x in t ==> ok(x)) ==> Fold(Fold(a, t, merge), t, merge) == Fold(a, t, merge)) &&
    (forall b :: ok(b) ==> merge(b, b) == b)
  }

  lemma {:induction false} FoldCons<T>(a: T, x: T, t: seq<T>, merge: (T, T) -> T)
    ensures Fold(a, [x] + t, merge) == Fold(merge(a, x), t, merge)
    decreases |t|
  {
    if t == [] {
      assert ([x] + t)[..0] == [];
    } else {
      FoldCons(a, x, t[..|t| - 1], merge);
      assert ([x] + t)[..|t|] == [x] + t[..|t| - 1];
    }
  }

  /** Accumulating onto a stored element folds the incoming elements of its key into it. */
  lemma {:induction false} AccumulateFromSome<T(!new), K>(a: T, inc: seq<T>, key: T -> K, k: K, merge: (T, T) -> T)
    ensures Accumulate(Some(a), inc, key, k, merge) == Some(Fold(a, Select(inc, key, k), merge))
    decreases |inc|
  {
    if inc != [] {
      var pre := inc[..|inc| - 1];
      AccumulateFromSome(a, pre, key, k, merge);
      var s := Select(pre, key, k);
      assert (s + [inc[|inc| - 1]])[..|s|] == s;
    }
  }

  /** With nothing stored, the first incoming element of the key is taken and
      the later ones are folded into it. */
  lemma {:induction false} AccumulateFromNone<T(!new), K>(inc: seq<T>, key: T -> K, k: K, merge: (T, T) -> T)
    ensures var s := Select(inc, key, k);
      Accumulate(None, inc, key, k, merge) == if s == [] then None else Some(Fold(s[0], s[1..], merge))
    decreases |inc|
  {
    if inc != [] {
      var pre := inc[..|inc| - 1];
      AccumulateFromNone(pre, key, k, merge);
      var s := Select(pre, key, k);
      var x := inc[|inc| - 1];
      if key(x) == k && s != [] {
        assert (s + [x])[1..] == s[1..] + [x];
        assert (s[1..] + [x])[..|s| - 1] == s[1..];
      }
    }
  }

  /** Accumulating the same incoming list a second time changes nothing. */
  lemma AccumulateTwice<T(!new), K>(base: Option<T>, inc: seq<T>, key: T -> K, k: K, merge: (T, T) -> T, ok: T -> bool)
    requires FoldAbsorbing(merge, ok)
    requires forall x :: x in inc ==> ok(x)
    ensures Accumulate(Accumulate(base, inc, key, k, merge), inc, key, k, merge) ==
      Accumulate(base, inc, key, k, merge)
  {
    var s := Select(inc, key, k);
    match base
    case Some(a) =>
      AccumulateFromSome(a, inc, key, k, merge);
      AccumulateFromSome(Fold(a, s, merge), inc, key, k, merge);
    case None =>
      AccumulateFromNone(inc, key, k, merge);
      if s != [] {
        var c := Fold(s[0], s[1..], merge);
        assert s == [s[0]] + s[1..];
        FoldCons(s[0], s[0], s[1..], merge);
        assert c == Fold(s[0], s, merge);
        AccumulateFromSome(c, inc, key, k, merge);
      }
  }

  /** Merging the same incoming list twice gives what merging it once gives. */
  lemma UpsertAllTwice<T(!new), K>(s: seq<T>, inc: seq<T>, key: T -> K, merge: (T, T) -> T, ok: T -> bool)
    requires KeepsKey(key, merge) && FoldAbsorbing(merge, ok)
    requires forall x :: x in inc ==> ok(x)
    ensures UpsertAll(UpsertAll(s, inc, key, merge), inc, key, merge) == UpsertAll(s, inc, key, merge)
  {
    var r := UpsertAll(s, inc, key, merge);
    UpsertAllKeys(s, inc, key, merge);
    NewValuesFacts(KeysOf(s, key), KeysOf(inc, key));
    forall k | k in KeysOf(inc, key)
      ensures Accumulate(Lookup(r, key, k), inc, key, k, merge) == Lookup(r, key, k)
    {
      UpsertAllLookup(s, inc, key, merge, k);
      AccumulateTwice(Lookup(s, key, k), inc, key, k, merge, ok);
    }
    UpsertAllAgain(r, inc, key, merge);
  }

  /** Merging a list with distinct keys into itself changes nothing. */
  lemma UpsertAllSelf<T(!new), K>(inc: seq<T>, key: T -> K, merge: (T, T) -> T, ok: T -> bool)
    requires KeepsKey(key, merge) && FoldAbsorbing(merge, ok)
    requires Distinct(KeysOf(inc, key))
    requires forall x :: x in inc ==> ok(x)
    ensures UpsertAll(inc, inc, key, merge) == inc
  {
    UpsertAllFresh([], inc, key, merge);
    assert [] + inc == inc;
    UpsertAllTwice([], inc, key, merge, ok);
  }
}
