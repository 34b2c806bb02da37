/** Sorted enumerations of keys compared by their code units. */
module Ordering {
  /** Lexicographic order. */
  predicate Less(a: seq<nat>, b: seq<nat>) {
    b != [] && (a == [] || a[0] < b[0] || (a[0] == b[0] && Less(a[1..], b[1..])))
  }

  lemma {:induction false} LessIsIrreflexive(a: seq<nat>)
    ensures !Less(a, a)
  {
    if a != [] {
      LessIsIrreflexive(a[1..]);
    }
  }

  lemma {:induction false} LessIsTransitive(a: seq<nat>, b: seq<nat>, c: seq<nat>)
    requires Less(a, b) && Less(b, c)
    ensures Less(a, c)
  {
    if a != [] && a[0] == b[0] == c[0] {
      LessIsTransitive(a[1..], b[1..], c[1..]);
    }
  }

  lemma {:induction false} LessIsTotal(a: seq<nat>, b: seq<nat>)
    ensures a == b || Less(a, b) || Less(b, a)
  {
    if a != [] && b != [] {
      LessIsTotal(a[1..], b[1..]);
      if a[0] == b[0] && a[1..] == b[1..] {
        assert a == [a[0]] + a[1..] == b;
      }
    }
  }

  /** The first difference decides, and a prefix precedes what it is a prefix of. */
  lemma {:induction false} LessIsLexicographic(a: seq<nat>, b: seq<nat>, k: nat)
    requires k <= |a| && k <= |b| && a[..k] == b[..k]
    ensures k < |a| && k < |b| && a[k] < b[k] ==> Less(a, b) && !Less(b, a)
    ensures k == |a| && k < |b| ==> Less(a, b) && !Less(b, a)
  {
    if k > 0 {
      assert a[0] == a[..k][0] == b[..k][0] == b[0];
      assert a[1..][..k - 1] == a[..k][1..] == b[..k][1..] == b[1..][..k - 1];
      LessIsLexicographic(a[1..], b[1..], k - 1);
    }
  }

  /** The comparison as a loop over both sequences. */
  method Compare(a: seq<nat>, b: seq<nat>) returns (less: bool)
    ensures less <==> Less(a, b)
  {
    var k := 0;
    while k < |a| && k < |b|
      invariant k <= |a| && k <= |b|
      invariant Less(a, b) <==> Less(a[k..], b[k..])
    {
      if a[k] != b[k] {
        return a[k] < b[k];
      }
      k := k + 1;
    }
    less := |a| < |b|;
  }

  ghost predicate Injective(units: string -> seq<nat>) {
    forall a, b :: units(a) == units(b) ==> a == b
  }

  ghost predicate Ascending(units: string -> seq<nat>, keys: seq<string>) {
    forall i, j | 0 <= i < j < |keys| :: Less(units(keys[i]), units(keys[j]))
  }

  /** `r` lists exactly `keys`, in strictly ascending order. */
  ghost predicate Enumerates(units: string -> seq<nat>, r: seq<string>, keys: set<string>) {
    Ascending(units, r) && forall k :: k in r <==> k in keys
  }

  lemma FirstIsLeast(units: string -> seq<nat>, a: seq<string>, b: seq<string>)
    requires a != [] && b != [] && Ascending(units, a) && Ascending(units, b)
    requires forall k :: k in a <==> k in b
    ensures a[0] == b[0]
  {
    assert b[0] in a && a[0] in b;
    var i :| 0 <= i < |a| && a[i] == b[0];
    var j :| 0 <= j < |b| && b[j] == a[0];
    if i > 0 && j > 0 {
      LessIsTransitive(units(a[0]), units(b[0]), units(a[0]));
      LessIsIrreflexive(units(a[0]));
    }
  }

  lemma TailEnumerates(units: string -> seq<nat>, a: seq<string>, keys: set<string>)
    requires a != [] && Enumerates(units, a, keys)
    ensures Enumerates(units, a[1..], keys - {a[0]})
  {
    LessIsIrreflexive(units(a[0]));
    forall k ensures k in a[1..] <==> k in keys - {a[0]} {
      if k in a[1..] {
        var i :| 0 < i < |a| && a[i] == k;
      }
      if k in keys - {a[0]} {
        var i :| 0 <= i < |a| && a[i] == k;
        assert a[1..][i - 1] == k;
      }
    }
  }

  lemma EmptyEnumeration(units: string -> seq<nat>, a: seq<string>, keys: set<string>)
    requires Enumerates(units, a, keys)
    ensures a == [] <==> keys == {}
  {
    if a != [] {
      assert a[0] in keys;
    }
  }

  /** There is only one sorted enumeration. */
  lemma {:induction false} EnumerationIsUnique(units: string -> seq<nat>, a: seq<string>, b: seq<string>,
                                               keys: set<string>)
    requires Enumerates(units, a, keys) && Enumerates(units, b, keys)
    ensures a == b
    decreases |a|
  {
    EmptyEnumeration(units, a, keys);
    EmptyEnumeration(units, b, keys);
    if keys != {} {
      FirstIsLeast(units, a, b);
      TailEnumerates(units, a, keys);
      TailEnumerates(units, b, keys);
      EnumerationIsUnique(units, a[1..], b[1..], keys - {a[0]});
      assert a == [a[0]] + a[1..];
    }
  }

  /** Inserts a key before the first greater one. */
  function Insert(units: string -> seq<nat>, key: string, sorted: seq<string>): seq<string> {
    if sorted == [] || Less(units(key), units(sorted[0])) then [key] + sorted
    else [sorted[0]] + Insert(units, key, sorted[1..])
  }

  lemma LeastFirst(units: string -> seq<nat>, key: string, sorted: seq<string>, keys: set<string>)
    requires Enumerates(units, sorted, keys) && forall k | k in keys :: Less(units(key), units(k))
    ensures Enumerates(units, [key] + sorted, keys + {key})
  {
    var r := [key] + sorted;
    forall i, j | 0 <= i < j < |r| ensures Less(units(r[i]), units(r[j])) {
      assert r[j] == sorted[j - 1] && sorted[j - 1] in keys;
    }
  }

  lemma FirstIsBelow(units: string -> seq<nat>, sorted: seq<string>, keys: set<string>, k: string)
    requires sorted != [] && Enumerates(units, sorted, keys) && k in keys && k != sorted[0]
    ensures Less(units(sorted[0]), units(k))
  {
    assert k in sorted;
  }

  lemma {:induction false} InsertEnumerates(units: string -> seq<nat>, key: string, sorted: seq<string>,
                                            keys: set<string>)
    requires Injective(units) && Enumerates(units, sorted, keys) && key !in keys
    ensures Enumerates(units, Insert(units, key, sorted), keys + {key})
    decreases |sorted|
  {
    hide Enumerates;
    EmptyEnumeration(units, sorted, keys);
    if sorted == [] {
      LeastFirst(units, key, sorted, keys);
    } else {
      var first := sorted[0];
      assert first in keys by { FirstIsListed(units, sorted, keys); }
      if Less(units(key), units(first)) {
        forall k | k in keys ensures Less(units(key), units(k)) {
          if k != first {
            FirstIsBelow(units, sorted, keys, k);
            LessIsTransitive(units(key), units(first), units(k));
          }
        }
        LeastFirst(units, key, sorted, keys);
      } else {
        LessIsTotal(units(key), units(first));
        TailEnumerates(units, sorted, keys);
        InsertEnumerates(units, key, sorted[1..], keys - {first});
        var rest := keys - {first} + {key};
        forall k | k in rest ensures Less(units(first), units(k)) {
          if k != key {
            FirstIsBelow(units, sorted, keys, k);
          }
        }
        LeastFirst(units, first, Insert(units, key, sorted[1..]), rest);
        assert rest + {first} == keys + {key};
      }
    }
  }

  lemma FirstIsListed(units: string -> seq<nat>, sorted: seq<string>, keys: set<string>)
    requires sorted != [] && Enumerates(units, sorted, keys)
    ensures sorted[0] in keys
  {
  }

  lemma {:induction false} EnumerationExists(units: string -> seq<nat>, keys: set<string>)
    requires Injective(units)
    ensures exists r :: Enumerates(units, r, keys)
  {
    if keys == {} {
      assert Enumerates(units, [], keys);
    } else {
      var k :| k in keys;
      EnumerationExists(units, keys - {k});
      var r :| Enumerates(units, r, keys - {k});
      InsertEnumerates(units, k, r, keys - {k});
      assert keys - {k} + {k} == keys;
    }
  }

  /** The sorted enumeration. */
  ghost function Sorted(units: string -> seq<nat>, keys: set<string>): (r: seq<string>)
    requires Injective(units)
    ensures Enumerates(units, r, keys)
  {
    EnumerationExists(units, keys);
    var r :| Enumerates(units, r, keys);
    r
  }

  /** Collects the keys in any order and sorts them; the result does not depend on the order. */
  method SortKeys(units: string -> seq<nat>, keys: set<string>) returns (r: seq<string>)
    requires Injective(units)
    ensures r == Sorted(units, keys)
  {
    r := [];
    var todo := keys;
    while todo != {}
      invariant todo <= keys && Enumerates(units, r, keys - todo)
    {
      var k :| k in todo;
      InsertEnumerates(units, k, r, keys - todo);
      r := Insert(units, k, r);
      assert keys - todo + {k} == keys - (todo - {k});
      todo := todo - {k};
    }
    assert keys - todo == keys;
    EnumerationIsUnique(units, r, Sorted(units, keys), keys);
  }
}
