/** A translation table as the generator sees it: a Python `dict` from a
    keyword to its translation, which remembers insertion order. It is
    modelled as the sequence of its entries; a dictionary never holds a key
    twice, which `DistinctKeys` states where it matters.
 */
module Tables {
  import opened Wrappers

  /** One `keyword = translation` line of a configuration block. */
  type Entry = (string, string)

  type Table = seq<Entry>

  /** The keys in iteration order. */
  function Keys(t: Table): (ks: seq<string>)
    ensures |ks| == |t|
    ensures forall i :: 0 <= i < |t| ==> ks[i] == t[i].0
  {
    seq(|t|, i requires 0 <= i < |t| => t[i].0)
  }

  function KeySet(t: Table): (ks: set<string>)
    ensures forall i :: 0 <= i < |t| ==> t[i].0 in ks
    ensures forall k :: k in ks ==> k in Keys(t)
  {
    set i | 0 <= i < |t| :: t[i].0
  }

  predicate DistinctKeys(t: Table) {
    forall i, j :: 0 <= i < j < |t| ==> t[i].0 != t[j].0
  }

  /** The position of the first occurrence of `k` in `ks`, if any. */
  function IndexOf<T(==)>(ks: seq<T>, k: T): (r: Option<nat>)
    ensures r.None? <==> k !in ks
    ensures r.Some? ==> r.value < |ks| && ks[r.value] == k
    ensures r.Some? ==> forall j :: 0 <= j < r.value ==> ks[j] != k
  {
    if ks == [] then None
    else if ks[0] == k then Some(0)
    else
      match IndexOf(ks[1..], k)
      case None => None
      case Some(j) => Some(j + 1)
  }

  /** Where `key in trans` finds `k`: the entry holding it, if any. */
  function Find(t: Table, k: string): (r: Option<nat>)
    ensures r.None? <==> forall i :: 0 <= i < |t| ==> t[i].0 != k
    ensures r.Some? ==> r.value < |t| && t[r.value].0 == k
  {
    IndexOf(Keys(t), k)
  }

  /** In a table with distinct keys, the key of entry `i` is found at `i`. */
  lemma FindDistinct(t: Table, i: nat)
    requires DistinctKeys(t) && i < |t|
    ensures Find(t, t[i].0) == Some(i)
  {
  }

  /** Two tables with the same keys in the same order agree on every lookup. */
  lemma FindSameKeys(a: Table, b: Table, k: string)
    requires |a| == |b| && forall i :: 0 <= i < |a| ==> a[i].0 == b[i].0
    ensures Find(a, k) == Find(b, k)
  {
    assert Keys(a) == Keys(b);
  }

  /** `trans[k]`: the translation of `k`, or the `KeyError` for an absent key. */
  function Get(t: Table, k: string): (r: Result<string>)
    ensures r.Ok? <==> k in KeySet(t)
    ensures r.Err? ==> r.error == MissingKey(k)
    ensures DistinctKeys(t) ==> forall i :: 0 <= i < |t| && t[i].0 == k ==> r == Ok(t[i].1)
  {
    match Find(t, k)
    case Some(i) => Ok(t[i].1)
    case None => Err(MissingKey(k))
  }

  /** Looks the keys up in order, stopping at the first `KeyError`: a
      failure names an absent key, and every key asked for before it is
      present. */
  function Lookups(t: Table, keys: seq<string>): (r: Result<seq<string>>)
    ensures r.Ok? <==> forall j :: 0 <= j < |keys| ==> keys[j] in KeySet(t)
    ensures r.Ok? ==> |r.value| == |keys| && forall j :: 0 <= j < |keys| ==> Get(t, keys[j]) == Ok(r.value[j])
    ensures r.Err? ==> r.error.MissingKey? && r.error.key in keys && r.error.key !in KeySet(t)
    ensures r.Err? ==> forall j :: 0 <= j < IndexOf(keys, r.error.key).value ==> keys[j] in KeySet(t)
  {
    if keys == [] then Ok([])
    else
      var v :- Get(t, keys[0]);
      var rest :- Lookups(t, keys[1..]);
      Ok([v] + rest)
  }

  lemma KeySetFirst(t: Table)
    requires t != []
    ensures KeySet(t) == {t[0].0} + KeySet(t[1..])
  {
    forall k | k in KeySet(t)
      ensures k in {t[0].0} + KeySet(t[1..])
    {
      var i :| 0 <= i < |t| && t[i].0 == k;
      if i > 0 {
        assert t[1..][i - 1] == t[i];
      }
    }
  }

  /** `d.update(trans)`: every entry of the table is written into the map,
      in table order. */
  function UpdateMap(m: map<string, string>, t: Table): (r: map<string, string>)
    ensures r.Keys == m.Keys + KeySet(t)
    ensures forall k :: k in m && k !in KeySet(t) ==> r[k] == m[k]
    ensures DistinctKeys(t) ==> forall i :: 0 <= i < |t| ==> r[t[i].0] == t[i].1
    decreases |t|
  {
    if t == [] then m
    else
      KeySetFirst(t);
      var r := UpdateMap(m[t[0].0 := t[0].1], t[1..]);
      UpdateMapStep(m, t, r);
      r
  }

  /** Writing the first entry and then the rest leaves every entry of a
      table with distinct keys at its own value. */
  lemma UpdateMapStep(m: map<string, string>, t: Table, r: map<string, string>)
    requires t != [] && r.Keys == m.Keys + KeySet(t)
    requires forall k :: k in m[t[0].0 := t[0].1] && k !in KeySet(t[1..]) ==> r[k] == m[t[0].0 := t[0].1][k]
    requires DistinctKeys(t[1..]) ==> forall i :: 0 <= i < |t[1..]| ==> r[t[1..][i].0] == t[1..][i].1
    ensures DistinctKeys(t) ==> forall i :: 0 <= i < |t| ==> r[t[i].0] == t[i].1
  {
    DistinctRest(t);
    if DistinctKeys(t) {
      forall i | 0 <= i < |t|
        ensures r[t[i].0] == t[i].1
      {
        if i > 0 {
          assert t[1..][i - 1] == t[i];
        }
      }
    }
  }

  /** Past the first entry of a table with distinct keys: the first key
      does not come back, and the rest has distinct keys too. */
  lemma DistinctRest(t: Table)
    requires t != []
    ensures DistinctKeys(t) ==> DistinctKeys(t[1..]) && t[0].0 !in KeySet(t[1..])
    ensures forall i :: 0 < i < |t| ==> t[1..][i - 1] == t[i]
  {
    if DistinctKeys(t) {
      forall k | k in KeySet(t[1..])
        ensures k != t[0].0
      {
        var i :| 0 <= i < |t[1..]| && t[1..][i].0 == k;
        assert t[i + 1].0 == k;
      }
    }
  }

  /** One `update` per table, in order. */
  function UpdateAll(m: map<string, string>, ts: seq<Table>): map<string, string>
    decreases |ts|
  {
    if ts == [] then m else UpdateAll(UpdateMap(m, ts[0]), ts[1..])
  }

  /** A key no table holds keeps its value. */
  lemma {:induction false} UpdateAllKeeps(m: map<string, string>, ts: seq<Table>, k: string)
    requires k in m && forall j :: 0 <= j < |ts| ==> k !in KeySet(ts[j])
    ensures k in UpdateAll(m, ts) && UpdateAll(m, ts)[k] == m[k]
    decreases |ts|
  {
    if ts != [] {
      UpdateAllKeeps(UpdateMap(m, ts[0]), ts[1..], k);
    }
  }

  /** A key of the first table that no later table holds keeps the first
      table's value. */
  lemma UpdateAllFirst(m: map<string, string>, ts: seq<Table>, e: nat)
    requires ts != [] && DistinctKeys(ts[0]) && e < |ts[0]|
    requires forall j :: 0 <= j < |ts[1..]| ==> ts[0][e].0 !in KeySet(ts[1..][j])
    ensures ts[0][e].0 in UpdateAll(m, ts) && UpdateAll(m, ts)[ts[0][e].0] == ts[0][e].1
  {
    UpdateAllKeeps(UpdateMap(m, ts[0]), ts[1..], ts[0][e].0);
  }

  /** The last table that holds a key decides its value. */
  lemma {:induction false} UpdateAllValue(m: map<string, string>, ts: seq<Table>, i: nat, e: nat)
    requires i < |ts| && DistinctKeys(ts[i]) && e < |ts[i]|
    requires forall j :: i < j < |ts| ==> ts[i][e].0 !in KeySet(ts[j])
    ensures ts[i][e].0 in UpdateAll(m, ts) && UpdateAll(m, ts)[ts[i][e].0] == ts[i][e].1
    decreases i
  {
    if i == 0 {
      UpdateAllFirst(m, ts, e);
    } else {
      assert ts[1..][i - 1] == ts[i];
      NotHeldAfterShift(ts, ts[i][e].0, i);
      UpdateAllValue(UpdateMap(m, ts[0]), ts[1..], i - 1, e);
    }
  }

  lemma NotHeldAfterShift(ts: seq<Table>, k: string, i: nat)
    requires 0 < i < |ts| && forall j :: i < j < |ts| ==> k !in KeySet(ts[j])
    ensures forall j :: i - 1 < j < |ts[1..]| ==> k !in KeySet(ts[1..][j])
  {
    forall j | i - 1 < j < |ts[1..]|
      ensures k !in KeySet(ts[1..][j])
    {
      assert ts[1..][j] == ts[j + 1];
    }
  }
}
