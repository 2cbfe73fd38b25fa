/**
 * An insertion-ordered map (`indexmap::IndexMap`, and the polars `Schema`
 * built on it) as a sequence of entries. `Insert` is `IndexMap::insert`:
 * an existing key keeps its position and gets the new value, a new key is
 * appended. `Extend` is `IndexMap::extend`: one `Insert` per entry, in order.
 */
module IndexMaps {
  import opened Wrappers
  import opened Seqs

  function Keys<K, V>(m: seq<(K, V)>): (ks: seq<K>)
    ensures |ks| == |m| && forall i :: 0 <= i < |m| ==> ks[i] == m[i].0
  {
    seq(|m|, i requires 0 <= i < |m| => m[i].0)
  }

  ghost predicate UniqueKeys<K, V>(m: seq<(K, V)>) {
    NoDup(Keys(m))
  }

  /** `IndexMap::get` */
  function Get<K(==), V>(m: seq<(K, V)>, k: K): (r: Option<V>)
    ensures r.Some? <==> k in Keys(m)
  {
    var i := IndexOf(Keys(m), k);
    if i < |m| then Some(m[i].1) else None
  }

  /** The value of the last entry for k, as repeated inserts leave it. */
  function LastValue<K(==), V>(o: seq<(K, V)>, k: K): (r: Option<V>)
    ensures r.Some? <==> k in Keys(o)
  {
    if |o| == 0 then None
    else if o[|o| - 1].0 == k then Some(o[|o| - 1].1)
    else
      assert Keys(o) == Keys(o[..|o| - 1]) + [o[|o| - 1].0];
      LastValue(o[..|o| - 1], k)
  }

  /** The entry at i is the last one for its key, so its value is the one that stays. */
  lemma {:induction false} LastValueAt<K, V>(o: seq<(K, V)>, i: nat)
    requires i < |o| && forall j :: i < j < |o| ==> o[j].0 != o[i].0
    ensures LastValue(o, o[i].0) == Some(o[i].1)
  {
    if i < |o| - 1 {
      LastValueAt(o[..|o| - 1], i);
    }
  }

  /** `IndexMap::insert` */
  function Insert<K(==), V>(m: seq<(K, V)>, k: K, v: V): (r: seq<(K, V)>)
    ensures Keys(r) == if k in Keys(m) then Keys(m) else Keys(m) + [k]
    ensures forall j :: 0 <= j < |m| && m[j].0 != k ==> r[j] == m[j]
    ensures k in Keys(m) ==> r[IndexOf(Keys(m), k)] == (k, v)
    ensures k !in Keys(m) ==> r == m + [(k, v)]
  {
    var i := IndexOf(Keys(m), k);
    if i < |m| then m[i := (k, v)] else m + [(k, v)]
  }

  /** `IndexMap::extend` */
  function Extend<K(==), V>(m: seq<(K, V)>, o: seq<(K, V)>): seq<(K, V)> {
    if |o| == 0 then m
    else Insert(Extend(m, o[..|o| - 1]), o[|o| - 1].0, o[|o| - 1].1)
  }

  /** Inserting keeps keys unique and makes k map to v, leaving every other key alone. */
  lemma InsertGet<K, V>(m: seq<(K, V)>, k: K, v: V, k': K)
    requires UniqueKeys(m)
    ensures UniqueKeys(Insert(m, k, v))
    ensures Get(Insert(m, k, v), k') == if k' == k then Some(v) else Get(m, k')
  {
    var r := Insert(m, k, v);
    if k !in Keys(m) {
      assert Keys(r) == Keys(m) + [k];
    }
    if k' in Keys(m) && k' != k {
      var i := IndexOf(Keys(m), k');
      assert Keys(r)[i] == k';
      assert IndexOf(Keys(r), k') == i;
    }
    if k == k' && k in Keys(m) {
      assert IndexOf(Keys(r), k) == IndexOf(Keys(m), k);
    }
  }

  lemma KeysAppend<K, V>(a: seq<(K, V)>, b: seq<(K, V)>)
    ensures Keys(a + b) == Keys(a) + Keys(b)
  {
  }

  lemma KeysSnoc<K, V>(o: seq<(K, V)>)
    requires |o| > 0
    ensures Keys(o) == Keys(o[..|o| - 1]) + [o[|o| - 1].0]
  {
  }

  /**
   * The keys of an extended map are the distinct keys of both, in
   * first-seen order: m's keys first, then o's new keys in o's order.
   */
  lemma {:induction false} ExtendKeys<K, V>(m: seq<(K, V)>, o: seq<(K, V)>)
    requires UniqueKeys(m)
    ensures Keys(Extend(m, o)) == Dedup(Keys(m) + Keys(o))
  {
    if |o| == 0 {
      assert Keys(m) + Keys(o) == Keys(m);
      DedupOfNoDup(Keys(m));
    } else {
      var o' := o[..|o| - 1];
      ExtendKeys(m, o');
      KeysSnoc(o);
      var all := Keys(m) + Keys(o);
      var prev := Keys(m) + Keys(o');
      assert all == prev + [o[|o| - 1].0];
      assert all[..|all| - 1] == prev;
    }
  }

  lemma ExtendUnique<K, V>(m: seq<(K, V)>, o: seq<(K, V)>)
    requires UniqueKeys(m)
    ensures UniqueKeys(Extend(m, o))
  {
    ExtendKeys(m, o);
    DedupNoDup(Keys(m) + Keys(o));
  }

  /** Extending never moves an existing key. */
  lemma {:induction false} ExtendKeepsPositions<K, V>(m: seq<(K, V)>, o: seq<(K, V)>)
    ensures |Extend(m, o)| >= |m|
    ensures forall i :: 0 <= i < |m| ==> Extend(m, o)[i].0 == m[i].0
  {
    if |o| > 0 {
      ExtendKeepsPositions(m, o[..|o| - 1]);
      var e := Extend(m, o[..|o| - 1]);
      assert Keys(Extend(m, o))[..|e|] == Keys(e);
    }
  }

  /** After extending, a key of o maps to o's last value for it; any other key keeps m's value. */
  lemma {:induction false} ExtendGet<K, V>(m: seq<(K, V)>, o: seq<(K, V)>, k: K)
    requires UniqueKeys(m)
    ensures Get(Extend(m, o), k) == if k in Keys(o) then LastValue(o, k) else Get(m, k)
  {
    if |o| > 0 {
      var o' := o[..|o| - 1];
      ExtendGet(m, o', k);
      ExtendUnique(m, o');
      InsertGet(Extend(m, o'), o[|o| - 1].0, o[|o| - 1].1, k);
      KeysSnoc(o);
    }
  }

  /** With no key in common and none repeated, extending is concatenation. */
  lemma {:induction false} ExtendDisjoint<K, V>(m: seq<(K, V)>, o: seq<(K, V)>)
    requires NoDup(Keys(m) + Keys(o))
    ensures Extend(m, o) == m + o
  {
    if |o| > 0 {
      var o' := o[..|o| - 1];
      KeysSnoc(o);
      var all := Keys(m) + Keys(o);
      assert Keys(m) + Keys(o') == all[..|all| - 1];
      ExtendDisjoint(m, o');
      assert Keys(m + o') == Keys(m) + Keys(o');
      forall j | 0 <= j < |all| - 1 ensures all[j] != all[|all| - 1] {
      }
      assert o[|o| - 1].0 !in all[..|all| - 1];
      assert m + o == (m + o') + [o[|o| - 1]];
    } else {
      assert m + o == m;
    }
  }

  /**
   * `IndexMap`'s `==`: same length and every entry of a is an entry of b,
   * whatever the order.
   */
  predicate SameEntries<K(==), V(==)>(a: seq<(K, V)>, b: seq<(K, V)>) {
    |a| == |b| && forall i :: 0 <= i < |a| ==> Get(b, a[i].0) == Some(a[i].1)
  }
}
