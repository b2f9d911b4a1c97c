/** A JavaScript `Map` iterates its entries in insertion order: a `set` on a
    key already present keeps its place, a `delete` drops it, a `set` on a
    new key appends it. The services keep that order as a sequence of keys
    beside their maps; this module holds what is needed to reason about it. */
module Keys {

  /** No key occurs twice. */
  predicate NoDup(s: seq<string>)
  {
    forall i, j :: 0 <= i < j < |s| ==> s[i] != s[j]
  }

  /** The key sequence `s` with `k` dropped and every other key kept in order:
      the iteration order after `Map.delete(k)`. */
  function Without(s: seq<string>, k: string): (r: seq<string>)
    ensures forall x :: x in r <==> x in s && x != k
    ensures |r| <= |s|
    ensures NoDup(s) ==> NoDup(r)
    ensures k !in s ==> r == s
  {
    if s == [] then []
    else if s[0] == k then Without(s[1..], k)
    else
      var rest := Without(s[1..], k);
      assert NoDup(s) ==> s[0] !in s[1..];
      [s[0]] + rest
  }

  /** In a duplicate-free order, dropping `k` cuts out exactly the one place
      where it occurs and leaves the keys before and after it as they were. */
  lemma {:induction false} WithoutAt(s: seq<string>, k: string, i: int)
    requires NoDup(s) && 0 <= i < |s| && s[i] == k
    ensures Without(s, k) == s[..i] + s[i+1..]
    decreases |s|
  {
    if i == 0 {
      assert k !in s[1..] by {
        forall j | 0 <= j < |s[1..]|
          ensures s[1..][j] != k
        {
          assert s[1..][j] == s[j + 1];
        }
      }
      assert s[..0] + s[1..] == s[1..];
    } else {
      assert s[0] != k;
      assert NoDup(s[1..]) by {
        forall a, b | 0 <= a < b < |s[1..]|
          ensures s[1..][a] != s[1..][b]
        {
          assert s[1..][a] == s[a + 1] && s[1..][b] == s[b + 1];
        }
      }
      assert s[1..][i - 1] == k;
      WithoutAt(s[1..], k, i - 1);
      assert s[..i] == [s[0]] + s[1..][..i - 1];
      assert s[i + 1..] == s[1..][i..];
    }
  }

  /** The values stored under `keys`, in the order of `keys`:
      `Array.from(m.values())` when `keys` is the map's insertion order. */
  function ValuesAt<V>(keys: seq<string>, m: map<string, V>): (r: seq<V>)
    requires forall k :: k in keys ==> k in m
    ensures |r| == |keys|
    ensures forall i :: 0 <= i < |keys| ==> r[i] == m[keys[i]]
  {
    if keys == [] then [] else [m[keys[0]]] + ValuesAt(keys[1..], m)
  }

  /** A duplicate-free key sequence listing exactly the keys of a map is as
      long as the map is large. */
  lemma {:induction false} OrderCoversMap<V>(keys: seq<string>, m: map<string, V>)
    requires NoDup(keys)
    requires forall k :: k in keys <==> k in m
    ensures |keys| == |m|
    decreases |keys|
  {
    if keys != [] {
      var k := keys[0];
      var rest := m - {k};
      assert forall x :: x in keys[1..] <==> x in rest by {
        forall x
          ensures x in keys[1..] <==> x in rest
        {
          if x in keys[1..] {
            var j :| 1 <= j < |keys| && keys[j] == x;
            assert keys[0] != keys[j];
          }
        }
      }
      OrderCoversMap(keys[1..], rest);
      assert m.Keys == rest.Keys + {k};
    } else {
      assert m.Keys == {};
    }
  }
}
