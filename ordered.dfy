/**
 * Iteration order of Rust's `BTreeMap` and `BTreeSet` with `String` keys:
 * ascending by the byte-wise (here: character-wise) order of the keys.
 * A map is modelled as a Dafny `map`; `SortedKeys` lists its keys in the
 * order a `for` loop over the `BTreeMap` visits them.
 */
module Ordered {
  import opened Wrappers
  import opened Text

  predicate LexLt(a: string, b: string) { LexLe(a, b) && a != b }

  predicate StrictlySorted(s: seq<string>)
  {
    forall i, j :: 0 <= i < j < |s| ==> LexLt(s[i], s[j])
  }

  /** The least element of a non-empty set of strings. */
  method MinOf(s: set<string>) returns (m: string)
    requires s != {}
    ensures m in s && forall x :: x in s ==> LexLe(m, x)
  {
    m :| m in s;
    LexLeRefl(m);
    var remaining := s - {m};
    while remaining != {}
      invariant m in s && remaining <= s
      invariant forall y :: y in s && y !in remaining ==> LexLe(m, y)
      decreases |remaining|
    {
      var x :| x in remaining;
      if !LexLe(m, x) {
        LexLeTotal(m, x);
        forall y | y in s && y !in remaining ensures LexLe(x, y) {
          LexLeTrans(x, m, y);
        }
        LexLeRefl(x);
      }
      else {
        assert LexLe(m, x);
      }
      if !LexLe(m, x) {
        m := x;
      }
      remaining := remaining - {x};
    }
  }

  /** The keys of `m` in ascending order, each once: the visiting order of a `BTreeMap`. */
  method SortedKeys<V>(m: map<string, V>) returns (keys: seq<string>)
    ensures StrictlySorted(keys)
    ensures forall k :: k in m <==> k in keys
  {
    keys := [];
    var remaining := m.Keys;
    while remaining != {}
      invariant remaining <= m.Keys
      invariant StrictlySorted(keys)
      invariant forall k :: k in m <==> k in keys || k in remaining
      invariant forall k :: k in keys ==> k !in remaining
      invariant forall i, x :: 0 <= i < |keys| && x in remaining ==> LexLt(keys[i], x)
      decreases |remaining|
    {
      var k := MinOf(remaining);
      keys := keys + [k];
      remaining := remaining - {k};
    }
  }

  /** In a strictly sorted list, everything below `keys[i]` comes before position `i`. */
  lemma SortedBelow(keys: seq<string>, i: nat, x: string)
    requires StrictlySorted(keys) && i < |keys|
    requires x in keys && LexLt(x, keys[i])
    ensures x in keys[..i]
  {
    var j :| 0 <= j < |keys| && keys[j] == x;
    if j >= i {
      if j > i {
        assert LexLt(keys[i], keys[j]);
        LexLeAntisymmetric(keys[i], keys[j]);
      }
      assert false;
    }
    assert keys[..i][j] == x;
  }

  /**
   * The map a loop builds by inserting the pairs in order (`None` entries
   * insert nothing): a later pair for a key replaces an earlier one.
   */
  function Inserted<V>(entries: seq<Option<(string, V)>>): (m: map<string, V>)
    decreases |entries|
  {
    if entries == [] then map[]
    else
      var m := Inserted(entries[..|entries| - 1]);
      match entries[|entries| - 1]
      case None => m
      case Some((k, v)) => m[k := v]
  }

  /** No entry after position `i` has the key of entry `i`. */
  predicate LastWithKey<V>(entries: seq<Option<(string, V)>>, i: nat)
    requires i < |entries| && entries[i].Some?
  {
    forall j :: i < j < |entries| && entries[j].Some? ==> entries[j].value.0 != entries[i].value.0
  }

  /** The keys of the built map are those of the entries. */
  lemma {:induction false} InsertedKeys<V>(entries: seq<Option<(string, V)>>)
    ensures forall k :: k in Inserted(entries) <==>
      exists i :: 0 <= i < |entries| && entries[i].Some? && entries[i].value.0 == k
    decreases |entries|
  {
    if entries != [] {
      var n := |entries| - 1;
      var init := entries[..n];
      InsertedKeys(init);
      forall k ensures k in Inserted(entries) <==>
        exists i :: 0 <= i < |entries| && entries[i].Some? && entries[i].value.0 == k
      {
        if k in Inserted(entries) {
          if !(entries[n].Some? && entries[n].value.0 == k) {
            assert k in Inserted(init);
            var i :| 0 <= i < |init| && init[i].Some? && init[i].value.0 == k;
            assert entries[i] == init[i];
          }
        } else {
          forall i | 0 <= i < |entries| && entries[i].Some? ensures entries[i].value.0 != k {
            if i < n {
              assert init[i] == entries[i];
            } else {
              assert Inserted(entries) == Inserted(init)[entries[n].value.0 := entries[n].value.1];
            }
          }
        }
      }
    }
  }

  /** Each key maps to the value of the last entry with that key. */
  lemma {:induction false} InsertedValues<V>(entries: seq<Option<(string, V)>>, i: nat)
    requires i < |entries| && entries[i].Some? && LastWithKey(entries, i)
    ensures entries[i].value.0 in Inserted(entries) && Inserted(entries)[entries[i].value.0] == entries[i].value.1
    decreases |entries|
  {
    var n := |entries| - 1;
    var init := entries[..n];
    if i < n {
      assert init[i] == entries[i];
      assert LastWithKey(init, i) by {
        forall j | i < j < |init| && init[j].Some? ensures init[j].value.0 != init[i].value.0 {
          assert init[j] == entries[j];
        }
      }
      InsertedValues(init, i);
    }
  }

  /** An entry that put a given key into the map. */
  lemma InsertedWitness<V>(entries: seq<Option<(string, V)>>, k: string) returns (i: nat)
    requires k in Inserted(entries)
    ensures i < |entries| && entries[i].Some? && entries[i].value.0 == k
  {
    InsertedKeys(entries);
    i :| 0 <= i < |entries| && entries[i].Some? && entries[i].value.0 == k;
  }
}
