/** The ordered map from argument-slot index to operation is a `BTreeMap` filled by
    successive `insert` calls. Only its contents matter to the model (the ordering of
    the keys is the ordering of the integers), so it is a Dafny `map` together with
    the fold of inserts that builds it. */
module SlotMap {

  /** The keys of a sequence of (key, value) pairs. */
  function KeysOf<K, V>(ps: seq<(K, V)>): set<K>
  {
    set i | 0 <= i < |ps| :: ps[i].0
  }

  /** `m` after inserting the pairs of `ps` one after another, as repeated
      `BTreeMap::insert` does: a later pair replaces an earlier value under the same key. */
  function Inserted<K(==), V>(m: map<K, V>, ps: seq<(K, V)>): (r: map<K, V>)
    ensures r.Keys == m.Keys + KeysOf(ps)
    decreases |ps|
  {
    if ps == [] then m
    else
      var init, last := ps[..|ps| - 1], ps[|ps| - 1];
      assert KeysOf(ps) == KeysOf(init) + {last.0} by {
        assert forall i | 0 <= i < |init| :: init[i] == ps[i];
      }
      Inserted(m, init)[last.0 := last.1]
  }

  /** The position of the last pair of `ps` whose key is `k`, or -1 when there is none. */
  function LastIndex<K(==), V>(ps: seq<(K, V)>, k: K): (i: int)
    ensures -1 <= i < |ps|
    ensures 0 <= i ==> ps[i].0 == k && forall j | i < j < |ps| :: ps[j].0 != k
    ensures i == -1 <==> k !in KeysOf(ps)
    decreases |ps|
  {
    if ps == [] then -1
    else if ps[|ps| - 1].0 == k then |ps| - 1
    else
      var init := ps[..|ps| - 1];
      assert forall j | 0 <= j < |init| :: init[j] == ps[j];
      LastIndex(init, k)
  }

  /** Looking up a key after the inserts: the value of the last pair carrying that key,
      or the original value when no pair carries it. */
  lemma {:induction false} InsertedLookup<K, V>(m: map<K, V>, ps: seq<(K, V)>, k: K)
    requires k in m || k in KeysOf(ps)
    ensures k in Inserted(m, ps)
    ensures Inserted(m, ps)[k] == (var i := LastIndex(ps, k); if 0 <= i then ps[i].1 else m[k])
    decreases |ps|
  {
    if ps != [] && ps[|ps| - 1].0 != k {
      var init := ps[..|ps| - 1];
      assert forall j | 0 <= j < |init| :: init[j] == ps[j];
      assert KeysOf(ps) == KeysOf(init) + {ps[|ps| - 1].0};
      InsertedLookup(m, init, k);
    }
  }

  /** Inserting one more pair extends the fold by one step: what a loop that inserts
      the pairs in order keeps as its invariant. */
  lemma InsertedSnoc<K, V>(m: map<K, V>, ps: seq<(K, V)>, i: nat)
    requires i < |ps|
    ensures Inserted(m, ps[..i + 1]) == Inserted(m, ps[..i])[ps[i].0 := ps[i].1]
  {
    assert ps[..i + 1][..i] == ps[..i];
  }
}
