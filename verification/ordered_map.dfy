/** An insertion-ordered key/value table with the semantics of a JavaScript
    `Map`: `Set` on a new key appends, `Set` on an existing key replaces the
    value where it stands, and `Delete` keeps the order of what remains.
    Both the room registry and each room's player table are such tables, and
    the relay iterates over them in this order. */
module OrderedMap {
  import opened Common

  type Table<K(==), V> = seq<(K, V)>

  /** The keys of `t`, in insertion order. */
  function Keys<K(==), V>(t: Table<K, V>): (ks: seq<K>)
    ensures |ks| == |t|
    ensures forall i :: 0 <= i < |t| ==> ks[i] == t[i].0
  {
    if |t| == 0 then [] else [t[0].0] + Keys(t[1..])
  }

  predicate HasKey<K(==), V>(t: Table<K, V>, k: K)
  {
    exists i :: 0 <= i < |t| && t[i].0 == k
  }

  /** No key occurs twice: what a `Map` guarantees. */
  predicate KeysUnique<K(==), V>(t: Table<K, V>)
  {
    forall i, j :: 0 <= i < j < |t| ==> t[i].0 != t[j].0
  }

  /** Position of the first entry with key `k`, or -1 if there is none. */
  function IndexOf<K(==), V>(t: Table<K, V>, k: K): (i: int)
    ensures -1 <= i < |t|
    ensures i == -1 <==> !HasKey(t, k)
    ensures 0 <= i ==> t[i].0 == k
    ensures 0 <= i ==> forall j :: 0 <= j < i ==> t[j].0 != k
  {
    if |t| == 0 then -1
    else if t[0].0 == k then 0
    else
      var j := IndexOf(t[1..], k);
      assert forall j' :: 1 <= j' < |t| ==> t[j'] == t[1..][j' - 1];
      if j < 0 then -1 else j + 1
  }

  /** `Map.get`: the value stored under `k`, if any. */
  function Get<K(==), V>(t: Table<K, V>, k: K): (r: Option<V>)
    ensures r.Some? <==> HasKey(t, k)
    ensures r.Some? ==> (k, r.value) in t
  {
    var i := IndexOf(t, k);
    if i < 0 then None else Some(t[i].1)
  }

  /** `Map.set`: replace in place when `k` is present, append otherwise. */
  function Set<K(==), V>(t: Table<K, V>, k: K, v: V): (r: Table<K, V>)
    ensures HasKey(t, k) ==> |r| == |t| && Keys(r) == Keys(t)
    ensures !HasKey(t, k) ==> |r| == |t| + 1 && r[..|t|] == t && r[|t|] == (k, v)
    ensures forall e :: e in r ==> e == (k, v) || e in t
  {
    var i := IndexOf(t, k);
    if i < 0 then t + [(k, v)]
    else
      var r := t[i := (k, v)];
      assert forall e :: e in r ==> e == (k, v) || e in t by {
        forall e | e in r ensures e == (k, v) || e in t {
          var j :| 0 <= j < |r| && r[j] == e;
          if j != i { assert t[j] == e; }
        }
      }
      r
  }

  /** `Map.delete`: drop the entry for `k`, keeping the order of the rest. */
  function Delete<K(==), V>(t: Table<K, V>, k: K): (r: Table<K, V>)
    ensures !HasKey(t, k) ==> r == t
    ensures HasKey(t, k) ==> |r| == |t| - 1
    ensures forall e :: e in r ==> e in t
  {
    var i := IndexOf(t, k);
    if i < 0 then t else t[..i] + t[i + 1..]
  }

  /** Reading back a key just set yields the new value. */
  lemma {:induction false} GetSetSame<K, V>(t: Table<K, V>, k: K, v: V)
    ensures Get(Set(t, k, v), k) == Some(v)
  {
    var r := Set(t, k, v);
    var i := IndexOf(t, k);
    if i < 0 {
      assert r[|t|].0 == k;
      var j := IndexOf(r, k);
      assert j == |t|;
    } else {
      assert r[i] == (k, v);
      assert forall j :: 0 <= j < i ==> r[j] == t[j];
      assert IndexOf(r, k) == i;
    }
  }

  /** Setting one key leaves what every other key reads unchanged. */
  lemma {:induction false} GetSetOther<K, V>(t: Table<K, V>, k: K, v: V, k': K)
    requires k' != k
    ensures Get(Set(t, k, v), k') == Get(t, k')
  {
    var r := Set(t, k, v);
    var i := IndexOf(t, k);
    if i < 0 {
      assert forall j :: 0 <= j < |t| ==> r[j] == t[j];
      var a := IndexOf(t, k');
      var b := IndexOf(r, k');
      if a < 0 {
        assert r[|t|].0 != k';
        assert b == -1;
      } else {
        assert b == a;
      }
    } else {
      assert forall j :: 0 <= j < |t| && j != i ==> r[j] == t[j];
      var a := IndexOf(t, k');
      var b := IndexOf(r, k');
      if a < 0 {
        assert b == -1;
      } else {
        assert b == a;
      }
    }
  }

  /** Setting a key keeps the keys pairwise distinct. */
  lemma {:induction false} SetKeepsKeysUnique<K, V>(t: Table<K, V>, k: K, v: V)
    requires KeysUnique(t)
    ensures KeysUnique(Set(t, k, v))
  {
    var r := Set(t, k, v);
    if HasKey(t, k) {
      assert Keys(r) == Keys(t);
      forall i, j | 0 <= i < j < |r| ensures r[i].0 != r[j].0 {
        assert r[i].0 == Keys(r)[i] == Keys(t)[i] == t[i].0;
        assert r[j].0 == Keys(r)[j] == Keys(t)[j] == t[j].0;
      }
    } else {
      forall i, j | 0 <= i < j < |r| ensures r[i].0 != r[j].0 {
        if j == |t| {
          assert r[i] == t[i];
        } else {
          assert r[i] == t[i] && r[j] == t[j];
        }
      }
    }
  }

  /** With distinct keys, deleting a present key removes exactly its entry
      and keeps the others in their order. */
  lemma DeleteShape<K, V>(t: Table<K, V>, k: K)
    requires HasKey(t, k)
    ensures Delete(t, k) == t[..IndexOf(t, k)] + t[IndexOf(t, k) + 1..]
    ensures forall j :: 0 <= j < |Delete(t, k)| ==>
      Delete(t, k)[j] == t[if j < IndexOf(t, k) then j else j + 1]
  {
    var i := IndexOf(t, k);
    var r := t[..i] + t[i + 1..];
    assert Delete(t, k) == r;
    forall j | 0 <= j < |r| ensures r[j] == t[if j < i then j else j + 1] {
      if j < i {
        assert r[j] == t[..i][j];
      } else {
        assert r[j] == t[i + 1..][j - i];
      }
    }
  }

  /** On a table with distinct keys, the deleted key is gone and the keys
      left stay distinct. */
  lemma {:induction false} DeleteRemovesKey<K, V>(t: Table<K, V>, k: K)
    requires KeysUnique(t)
    ensures !HasKey(Delete(t, k), k)
    ensures KeysUnique(Delete(t, k))
  {
    var r := Delete(t, k);
    var i := IndexOf(t, k);
    if i >= 0 {
      DeleteShape(t, k);
      forall j | 0 <= j < |r| ensures r[j].0 != k {
        if j >= i { assert r[j] == t[j + 1]; assert t[j + 1].0 != t[i].0; }
        else { assert r[j] == t[j]; }
      }
      forall a, b | 0 <= a < b < |r| ensures r[a].0 != r[b].0 {
        var a' := if a < i then a else a + 1;
        var b' := if b < i then b else b + 1;
        assert r[a] == t[a'] && r[b] == t[b'];
      }
    }
  }

  /** Deleting one key changes no other key's value. */
  lemma {:induction false} GetDeleteOther<K, V>(t: Table<K, V>, k: K, k': K)
    requires KeysUnique(t)
    requires k' != k
    ensures Get(Delete(t, k), k') == Get(t, k')
  {
    var r := Delete(t, k);
    var i := IndexOf(t, k);
    if i >= 0 {
      DeleteShape(t, k);
      var x := IndexOf(t, k');
      var y := IndexOf(r, k');
      if x < 0 {
        assert y == -1;
      } else if x < i {
        assert r[x] == t[x];
        assert y == x;
      } else {
        assert r[x - 1] == t[x];
        assert y == x - 1;
      }
    }
  }

  /** With distinct keys an entry's position is the position of its key. */
  lemma UniqueEntryIndex<K, V>(t: Table<K, V>, i: int)
    requires KeysUnique(t)
    requires 0 <= i < |t|
    ensures IndexOf(t, t[i].0) == i
  {
  }

  /** Position of the first entry whose value satisfies `p`, or -1: the
      source's `for ... of` scans that stop at the first match. */
  function FirstWhere<K(==), V>(t: Table<K, V>, p: V -> bool): (i: int)
    ensures -1 <= i < |t|
    ensures 0 <= i ==> p(t[i].1)
    ensures forall j :: 0 <= j < |t| && (i < 0 || j < i) ==> !p(t[j].1)
  {
    if |t| == 0 then -1
    else if p(t[0].1) then 0
    else
      var j := FirstWhere(t[1..], p);
      assert forall j' :: 1 <= j' < |t| ==> t[j'] == t[1..][j' - 1];
      if j < 0 then -1 else j + 1
  }

  /** Writing back the value a key already holds changes nothing. */
  lemma SetSameValue<K, V>(t: Table<K, V>, k: K, v: V)
    requires Get(t, k) == Some(v)
    ensures Set(t, k, v) == t
  {
    var i := IndexOf(t, k);
    assert t[i] == (k, v);
  }

  /** A second write to a present key overrides the first one. */
  lemma SetSetSame<K, V>(t: Table<K, V>, k: K, v1: V, v2: V)
    requires HasKey(t, k)
    ensures Set(Set(t, k, v1), k, v2) == Set(t, k, v2)
  {
    var i := IndexOf(t, k);
    var r := Set(t, k, v1);
    assert forall j :: 0 <= j < |t| && j != i ==> r[j] == t[j];
    assert r[i] == (k, v1);
    assert IndexOf(r, k) == i;
  }

  /** Past a first entry with another key, positions shift by one. */
  lemma IndexOfTail<K, V>(t: Table<K, V>, k: K)
    requires |t| > 0 && t[0].0 != k && HasKey(t[1..], k)
    ensures IndexOf(t, k) == IndexOf(t[1..], k) + 1
  {
  }

  /** Writing again to the key that was appended last replaces that last
      entry and nothing else. */
  lemma SetLast<K, V>(t: Table<K, V>, k: K, v: V, w: V)
    requires !HasKey(t, k)
    ensures Set(t + [(k, v)], k, w) == t + [(k, w)]
  {
    var u := t + [(k, v)];
    assert u[|t|].0 == k;
    assert forall j :: 0 <= j < |t| ==> u[j] == t[j];
    assert IndexOf(u, k) == |t|;
    var r := u[|t| := (k, w)];
    forall j | 0 <= j < |r| ensures r[j] == (t + [(k, w)])[j] {
      if j < |t| { assert r[j] == t[j]; }
    }
  }

  /** Appending an entry for a fresh key adds exactly that key, readable
      at once, and leaves every other key as it was. */
  lemma AppendFresh<K, V>(t: Table<K, V>, k: K, v: V)
    requires !HasKey(t, k)
    ensures Get(t + [(k, v)], k) == Some(v)
    ensures forall k' :: HasKey(t + [(k, v)], k') <==> HasKey(t, k') || k' == k
  {
    var u := t + [(k, v)];
    assert forall j :: 0 <= j < |t| ==> u[j] == t[j];
    assert u[|t|] == (k, v);
    assert IndexOf(u, k) == |t|;
  }

  /** Deleting the key that was appended last gives the table back. */
  lemma DeleteLast<K, V>(t: Table<K, V>, k: K, v: V)
    requires !HasKey(t, k)
    ensures Delete(t + [(k, v)], k) == t
  {
    var u := t + [(k, v)];
    AppendFresh(t, k, v);
    assert IndexOf(u, k) == |t|;
    assert u[..|t|] == t;
  }
}
