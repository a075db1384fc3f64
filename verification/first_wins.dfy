/**
  First-write-wins deduplication by a key, the pattern both the aggregation
  store (a `Map` filled with `if (!map.has(key)) map.set(key, …)`) and the
  download planner (a `Set` of seen URLs) implement: walk the sequence left to
  right and keep an element only when its key has not been taken yet.
 */
module FirstWins {

  /** The set of keys the elements of `xs` carry. */
  function KeySet<T, K(==)>(xs: seq<T>, key: T -> K): (ks: set<K>)
    ensures forall i | 0 <= i < |xs| :: key(xs[i]) in ks
    decreases |xs|
  {
    if xs == [] then {}
    else
      var rest := KeySet(xs[1..], key);
      assert forall i | 1 <= i < |xs| :: xs[i] == xs[1..][i - 1];
      {key(xs[0])} + rest
  }

  lemma KeySetHas<T, K>(xs: seq<T>, key: T -> K, x: T)
    requires x in xs
    ensures key(x) in KeySet(xs, key)
  {
    var i :| 0 <= i < |xs| && xs[i] == x;
  }

  lemma {:induction false} KeySetAppend<T, K>(p: seq<T>, s: seq<T>, key: T -> K)
    ensures KeySet(p + s, key) == KeySet(p, key) + KeySet(s, key)
    decreases |p|
  {
    if p == [] {
      assert p + s == s;
    } else {
      assert (p + s)[1..] == p[1..] + s;
      KeySetAppend(p[1..], s, key);
    }
  }

  /** No key occurs twice in `xs`. */
  ghost predicate DistinctKeys<T, K>(xs: seq<T>, key: T -> K) {
    forall i, j | 0 <= i < j < |xs| :: key(xs[i]) != key(xs[j])
  }

  /** `xs[i]` is the first element of `xs` carrying its key. */
  ghost predicate IsFirst<T, K>(xs: seq<T>, key: T -> K, i: int) {
    0 <= i < |xs| && forall j | 0 <= j < i :: key(xs[j]) != key(xs[i])
  }

  /** The scan, with the keys already taken before it starts. */
  function KeepFirstAfter<T, K(==)>(xs: seq<T>, key: T -> K, taken: set<K>): (r: seq<T>)
    ensures |r| <= |xs|
    ensures forall i | 0 <= i < |r| :: key(r[i]) !in taken

    decreases |xs|
  {
    if xs == [] then []
    else if key(xs[0]) in taken then KeepFirstAfter(xs[1..], key, taken)
    else
      [xs[0]] + KeepFirstAfter(xs[1..], key, taken + {key(xs[0])})
  }

  /** The deduplicated sequence: the first element for each key, in order. */
  function KeepFirst<T, K(==)>(xs: seq<T>, key: T -> K): (r: seq<T>)
    ensures DistinctKeys(r, key)
    ensures KeySet(r, key) == KeySet(xs, key)
  {
    KeepFirstAfterDistinct(xs, key, {});
    KeepFirstAfterKeys(xs, key, {});
    KeepFirstAfter(xs, key, {})
  }

  /** The scan keeps one element for every key not taken before it. */
  lemma {:induction false} KeepFirstAfterKeys<T, K>(xs: seq<T>, key: T -> K, taken: set<K>)
    ensures KeySet(KeepFirstAfter(xs, key, taken), key) == KeySet(xs, key) - taken
    decreases |xs|
  {
    if xs != [] {
      if key(xs[0]) in taken {
        KeepFirstAfterKeys(xs[1..], key, taken);
      } else {
        var rest := KeepFirstAfter(xs[1..], key, taken + {key(xs[0])});
        KeepFirstAfterKeys(xs[1..], key, taken + {key(xs[0])});
        assert ([xs[0]] + rest)[1..] == rest;
      }
    }
  }

  /** No key survives the scan twice. */
  lemma {:induction false} KeepFirstAfterDistinct<T, K>(xs: seq<T>, key: T -> K, taken: set<K>)
    ensures DistinctKeys(KeepFirstAfter(xs, key, taken), key)
    decreases |xs|
  {
    if xs != [] {
      if key(xs[0]) in taken {
        KeepFirstAfterDistinct(xs[1..], key, taken);
      } else {
        var rest := KeepFirstAfter(xs[1..], key, taken + {key(xs[0])});
        KeepFirstAfterDistinct(xs[1..], key, taken + {key(xs[0])});
        var r := [xs[0]] + rest;
        forall i, j | 0 <= i < j < |r| ensures key(r[i]) != key(r[j]) {
          if i > 0 {
            assert r[i] == rest[i - 1] && r[j] == rest[j - 1];
          } else {
            assert r[j] == rest[j - 1];
          }
        }
      }
    }
  }

  /** The scan only keeps elements of its input. */
  lemma {:induction false} KeepFirstAfterSubset<T, K>(xs: seq<T>, key: T -> K, taken: set<K>)
    ensures forall x | x in KeepFirstAfter(xs, key, taken) :: x in xs
    decreases |xs|
  {
    if xs != [] {
      if key(xs[0]) in taken {
        KeepFirstAfterSubset(xs[1..], key, taken);
      } else {
        KeepFirstAfterSubset(xs[1..], key, taken + {key(xs[0])});
      }
    }
  }

  /** An independent definition of the same result, built from the back: the
      last element is kept exactly when no earlier element carries its key. */
  function FirstsByPrefix<T, K(==)>(xs: seq<T>, key: T -> K): seq<T>
    decreases |xs|
  {
    if xs == [] then []
    else
      var init := xs[..|xs| - 1];
      if key(xs[|xs| - 1]) in KeySet(init, key) then FirstsByPrefix(init, key)
      else FirstsByPrefix(init, key) + [xs[|xs| - 1]]
  }

  lemma {:induction false} PrefixThenScan<T, K>(p: seq<T>, xs: seq<T>, key: T -> K)
    ensures FirstsByPrefix(p + xs, key) == FirstsByPrefix(p, key) + KeepFirstAfter(xs, key, KeySet(p, key))
    decreases |xs|
  {
    if xs == [] {
      assert p + xs == p;
    } else {
      var x := xs[0];
      var p' := p + [x];
      assert p + xs == p' + xs[1..];
      PrefixThenScan(p', xs[1..], key);
      assert p'[..|p'| - 1] == p;
      KeySetAppend(p, [x], key);
      assert KeySet([x], key) == {key(x)};
      var rest := KeepFirstAfter(xs[1..], key, KeySet(p', key));
      if key(x) in KeySet(p, key) {
        assert KeySet(p', key) == KeySet(p, key);
        assert FirstsByPrefix(p', key) == FirstsByPrefix(p, key);
      } else {
        assert FirstsByPrefix(p', key) == FirstsByPrefix(p, key) + [x];
        assert (FirstsByPrefix(p, key) + [x]) + rest == FirstsByPrefix(p, key) + ([x] + rest);
      }
    }
  }

  /** The left-to-right scan and the definition from the back agree on every input. */
  lemma KeepFirstIsFirstsByPrefix<T, K>(xs: seq<T>, key: T -> K)
    ensures KeepFirst(xs, key) == FirstsByPrefix(xs, key)
  {
    PrefixThenScan([], xs, key);
    assert [] + xs == xs;
  }

  /** First write wins: the first element carrying each key is the one kept. */
  lemma {:induction false} KeepsFirstOccurrence<T, K>(xs: seq<T>, key: T -> K, taken: set<K>, i: int)
    requires IsFirst(xs, key, i) && key(xs[i]) !in taken
    ensures xs[i] in KeepFirstAfter(xs, key, taken)
    decreases |xs|
  {
    if i > 0 {
      assert key(xs[0]) != key(xs[i]);
      assert IsFirst(xs[1..], key, i - 1) by {
        forall j | 0 <= j < i - 1 ensures key(xs[1..][j]) != key(xs[1..][i - 1]) {
          assert key(xs[j + 1]) != key(xs[i]);
        }
      }
      var t' := if key(xs[0]) in taken then taken else taken + {key(xs[0])};
      KeepsFirstOccurrence(xs[1..], key, t', i - 1);
    }
  }

  /** The scan distributes over concatenation: the second part is scanned with
      the keys of the first part already taken. */
  lemma {:induction false} KeepFirstAfterAppend<T, K>(p: seq<T>, s: seq<T>, key: T -> K, taken: set<K>)
    ensures KeepFirstAfter(p + s, key, taken)
         == KeepFirstAfter(p, key, taken) + KeepFirstAfter(s, key, taken + KeySet(p, key))
    decreases |p|
  {
    if p == [] {
      assert p + s == s;
      assert taken + KeySet(p, key) == taken;
    } else {
      var x := p[0];
      var t' := if key(x) in taken then taken else taken + {key(x)};
      assert (p + s)[0] == x;
      assert (p + s)[1..] == p[1..] + s;
      assert t' + KeySet(p[1..], key) == taken + KeySet(p, key);
      KeepFirstAfterAppend(p[1..], s, key, t');
      var a := KeepFirstAfter(p[1..], key, t');
      var b := KeepFirstAfter(s, key, taken + KeySet(p, key));
      if key(x) !in taken {
        assert [x] + (a + b) == ([x] + a) + b;
      }
    }
  }

  /** A sequence whose keys are distinct and not yet taken passes the scan whole. */
  lemma {:induction false} KeepFirstAfterFresh<T, K>(s: seq<T>, key: T -> K, taken: set<K>)
    requires DistinctKeys(s, key)
    requires forall i | 0 <= i < |s| :: key(s[i]) !in taken
    ensures KeepFirstAfter(s, key, taken) == s
    decreases |s|
  {
    if s != [] {
      assert forall i | 0 <= i < |s| - 1 :: s[1..][i] == s[i + 1];
      KeepFirstAfterFresh(s[1..], key, taken + {key(s[0])});
    }
  }

  /** Deduplicating twice is deduplicating once. */
  lemma KeepFirstIdempotent<T, K>(xs: seq<T>, key: T -> K)
    ensures KeepFirst(KeepFirst(xs, key), key) == KeepFirst(xs, key)
  {
    KeepFirstAfterFresh(KeepFirst(xs, key), key, {});
  }
}
