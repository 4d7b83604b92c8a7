/**
 The order in which `std::map<std::string, ...>` is walked: keys in lexicographic order.
 */
module Ordering {

  predicate AtMost(a: string, b: string) {
    a == "" || (b != "" && (a[0] < b[0] || (a[0] == b[0] && AtMost(a[1..], b[1..]))))
  }

  lemma {:induction false} Total(a: string, b: string)
    ensures AtMost(a, b) || AtMost(b, a)
  {
    if a == "" || b == "" {
    } else {
      Total(a[1..], b[1..]);
    }
  }

  lemma {:induction false} Antisymmetric(a: string, b: string)
    requires AtMost(a, b) && AtMost(b, a)
    ensures a == b
  {
    if a == "" || b == "" {
    } else {
      Antisymmetric(a[1..], b[1..]);
      assert a == [a[0]] + a[1..] && b == [b[0]] + b[1..];
    }
  }

  lemma {:induction false} Transitive(a: string, b: string, c: string)
    requires AtMost(a, b) && AtMost(b, c)
    ensures AtMost(a, c)
  {
    if a == "" || a[0] != b[0] || b[0] != c[0] {
    } else {
      Transitive(a[1..], b[1..], c[1..]);
    }
  }

  predicate IsLeast(k: string, keys: set<string>) {
    k in keys && forall other | other in keys :: AtMost(k, other)
  }

  lemma {:induction false} LeastExists(keys: set<string>)
    requires keys != {}
    ensures exists k :: IsLeast(k, keys)
  {
    var any :| any in keys;
    Total(any, any);
    if keys == {any} {
      assert IsLeast(any, keys);
    } else {
      LeastExists(keys - {any});
      var k :| IsLeast(k, keys - {any});
      Total(any, k);
      if AtMost(any, k) {
        forall other | other in keys ensures AtMost(any, other) {
          if other != any {
            Transitive(any, k, other);
          }
        }
        assert IsLeast(any, keys);
      } else {
        assert IsLeast(k, keys);
      }
    }
  }

  function Least(keys: set<string>): (k: string)
    requires keys != {}
    ensures IsLeast(k, keys)
  {
    LeastExists(keys);
    LeastUnique(keys);
    var k :| IsLeast(k, keys);
    k
  }

  lemma LeastUnique(keys: set<string>)
    ensures forall a, b | IsLeast(a, keys) && IsLeast(b, keys) :: a == b
  {
    forall a, b | IsLeast(a, keys) && IsLeast(b, keys) ensures a == b {
      Antisymmetric(a, b);
    }
  }

  /** The keys in the order a map is walked. */
  function InOrder(keys: set<string>): (r: seq<string>)
    ensures forall k :: k in r <==> k in keys
    ensures NoRepeats(r)
  {
    if keys == {} then []
    else
      var k := Least(keys);
      var rest := InOrder(keys - {k});
      assert keys == {k} + (keys - {k});
      [k] + rest
  }

  predicate NoRepeats<T(==)>(s: seq<T>) {
    forall i, j | 0 <= i < j < |s| :: s[i] != s[j]
  }

  function Elements(keys: seq<string>): set<string> {
    set k | k in keys
  }

  /** Walking on by one key. */
  lemma ElementsStep(keys: seq<string>, i: nat)
    requires i < |keys| && NoRepeats(keys)
    ensures keys[i] in keys && keys[i] !in Elements(keys[..i])
    ensures Elements(keys[..i + 1]) == Elements(keys[..i]) + {keys[i]}
  {
    assert keys[..i + 1] == keys[..i] + [keys[i]];
  }

  lemma ElementsEnds(keys: set<string>)
    ensures var r := InOrder(keys); Elements(r[..0]) == {} && Elements(r[..|r|]) == keys
  {
    assert InOrder(keys)[..|InOrder(keys)|] == InOrder(keys);
  }

  predicate Ascending(keys: seq<string>) {
    forall i, j | 0 <= i < j < |keys| :: AtMost(keys[i], keys[j])
  }

  /** The walk goes up. */
  lemma {:induction false} InOrderAscends(keys: set<string>)
    ensures Ascending(InOrder(keys))
  {
    if keys == {} {
    } else {
      var k := Least(keys);
      var rest := InOrder(keys - {k});
      InOrderAscends(keys - {k});
      forall i, j | 0 <= i < j < |rest| + 1 ensures AtMost(([k] + rest)[i], ([k] + rest)[j]) {
        assert rest[j - 1] in rest;
        assert i > 0 ==> AtMost(rest[i - 1], rest[j - 1]);
      }
    }
  }

  /** One key goes before another when it is the start of it, or has the smaller character at the first
      place where they differ. */
  lemma {:induction false} Lexicographic(a: string, b: string)
    ensures AtMost(a, b) <==> a <= b || exists n: nat :: n < |a| && n < |b| && a[..n] == b[..n] && a[n] < b[n]
  {
    if a == "" || b == "" {
    } else {
      Lexicographic(a[1..], b[1..]);
      if a[0] == b[0] {
        assert a == [a[0]] + a[1..] && b == [b[0]] + b[1..];
        assert forall n: nat | n < |a| - 1 && n < |b| - 1 ::
          a[..n + 1] == [a[0]] + a[1..][..n] && b[..n + 1] == [b[0]] + b[1..][..n];
        if n: nat :| n < |a[1..]| && n < |b[1..]| && a[1..][..n] == b[1..][..n] && a[1..][n] < b[1..][n] {
          assert a[..n + 1] == b[..n + 1] && a[n + 1] < b[n + 1];
        }
        if n: nat :| n < |a| && n < |b| && a[..n] == b[..n] && a[n] < b[n] {
          assert n > 0 && a[1..][..n - 1] == a[..n][1..] && b[1..][..n - 1] == b[..n][1..];
          assert a[1..][n - 1] < b[1..][n - 1];
        }
      } else {
        assert a[0] < b[0] ==> a[..0] == b[..0];
        assert forall n: nat | 0 < n < |a| && n < |b| :: a[..n][0] == a[0] && b[..n][0] == b[0];
      }
    }
  }
}
