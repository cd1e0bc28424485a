/**
 The offers table as a last-write-wins map (internal/ingest/store.go).

 `Upsert` is the guarded ON CONFLICT clause for one row. A worker does not
 apply a page item by item: it collapses the batch to one item per key and then
 runs one guarded statement. `Batch` is that path and `ApplyAll` is the simple
 one-at-a-time form it is compared with.
 */
module LastWriteWins {
  datatype Row<+V> = Row(val: V, at: int)
  datatype Write<+K, +V> = Write(key: K, val: V, at: int)

  /** True when the row already held is newer than the write, so the guard skips it. */
  predicate Newer<K, V>(t: map<K, Row<V>>, w: Write<K, V>) {
    w.key in t && t[w.key].at > w.at
  }

  function Upsert<K, V>(t: map<K, Row<V>>, w: Write<K, V>): map<K, Row<V>> {
    if Newer(t, w) then t else t[w.key := Row(w.val, w.at)]
  }

  /** One guarded write after another, in arrival order. */
  function ApplyAll<K, V>(t: map<K, Row<V>>, ws: seq<Write<K, V>>): map<K, Row<V>> {
    if ws == [] then t else Upsert(ApplyAll(t, ws[..|ws| - 1]), ws[|ws| - 1])
  }

  /** In-batch dedupe: a later item replaces an earlier one only if it is strictly newer. */
  function Dedupe<K, V>(ws: seq<Write<K, V>>): (d: map<K, Write<K, V>>)
    ensures forall k :: k in d ==> d[k].key == k
  {
    if ws == [] then map[]
    else
      var m := Dedupe(ws[..|ws| - 1]);
      var w := ws[|ws| - 1];
      if w.key !in m || w.at > m[w.key].at then m[w.key := w] else m
  }

  /** The effect of one guarded statement that carries one write per key of d. */
  function Settle<K, V>(t: map<K, Row<V>>, d: map<K, Write<K, V>>): map<K, Row<V>>
    requires forall k :: k in d ==> d[k].key == k
  {
    map k | k in t.Keys + d.Keys ::
      if k in d && !Newer(t, d[k]) then Row(d[k].val, d[k].at) else t[k]
  }

  /** Dedupe, then one guarded statement over the surviving writes. */
  function Batch<K, V>(t: map<K, Row<V>>, ws: seq<Write<K, V>>): map<K, Row<V>> {
    Settle(t, Dedupe(ws))
  }

  ghost predicate Occurs<K, V>(ws: seq<Write<K, V>>, k: K) {
    exists i :: 0 <= i < |ws| && ws[i].key == k
  }

  /** Position i holds the earliest of the newest writes to k. */
  ghost predicate FirstLatest<K, V>(ws: seq<Write<K, V>>, k: K, i: int) {
    && 0 <= i < |ws| && ws[i].key == k
    && (forall j :: 0 <= j < i && ws[j].key == k ==> ws[j].at < ws[i].at)
    && (forall j :: i < j < |ws| && ws[j].key == k ==> ws[j].at <= ws[i].at)
  }

  /** Position i holds the latest of the newest writes to k. */
  ghost predicate LastLatest<K, V>(ws: seq<Write<K, V>>, k: K, i: int) {
    && 0 <= i < |ws| && ws[i].key == k
    && (forall j :: 0 <= j < i && ws[j].key == k ==> ws[j].at <= ws[i].at)
    && (forall j :: i < j < |ws| && ws[j].key == k ==> ws[j].at < ws[i].at)
  }

  lemma FirstLatestExtends<K, V>(ws: seq<Write<K, V>>, k: K, i: int)
    requires ws != []
    requires var front := ws[..|ws| - 1]; FirstLatest(front, k, i) || (i == -1 && !Occurs(front, k))
    ensures var n := |ws| - 1;
      if ws[n].key == k && (i == -1 || ws[n].at > ws[i].at) then FirstLatest(ws, k, n)
      else if i == -1 then !Occurs(ws, k)
      else FirstLatest(ws, k, i)
  {
    var front := ws[..|ws| - 1];
    assert forall j :: 0 <= j < |front| ==> front[j] == ws[j];
  }

  lemma LastLatestExtends<K, V>(ws: seq<Write<K, V>>, k: K, i: int)
    requires ws != []
    requires var front := ws[..|ws| - 1]; LastLatest(front, k, i) || (i == -1 && !Occurs(front, k))
    ensures var n := |ws| - 1;
      if ws[n].key == k && (i == -1 || ws[n].at >= ws[i].at) then LastLatest(ws, k, n)
      else if i == -1 then !Occurs(ws, k)
      else LastLatest(ws, k, i)
  {
    var front := ws[..|ws| - 1];
    assert forall j :: 0 <= j < |front| ==> front[j] == ws[j];
  }

  /** Dedupe keeps exactly the keys that occur, each with its first newest write. */
  lemma {:induction false} DedupeKeepsFirstLatest<K, V>(ws: seq<Write<K, V>>, k: K) returns (i: int)
    ensures k in Dedupe(ws) <==> Occurs(ws, k)
    ensures k in Dedupe(ws) ==> FirstLatest(ws, k, i) && Dedupe(ws)[k] == ws[i]
    ensures k !in Dedupe(ws) ==> i == -1
  {
    if ws == [] {
      i := -1;
    } else {
      var n := |ws| - 1;
      i := DedupeKeepsFirstLatest(ws[..n], k);
      FirstLatestExtends(ws, k, i);
      if ws[n].key == k && (i == -1 || ws[n].at > ws[i].at) {
        i := n;
      }
    }
  }

  /** One-at-a-time application ends with the last newest write, unless the table was newer already. */
  lemma {:induction false} ApplyAllKeepsLastLatest<K, V>(t: map<K, Row<V>>, ws: seq<Write<K, V>>, k: K)
    returns (i: int)
    ensures if Occurs(ws, k) then LastLatest(ws, k, i) else i == -1
    ensures Occurs(ws, k) ==> (
      && k in ApplyAll(t, ws)
      && ApplyAll(t, ws)[k] == if Newer(t, ws[i]) then t[k] else Row(ws[i].val, ws[i].at))
    ensures !Occurs(ws, k) ==> (k in ApplyAll(t, ws) <==> k in t) && (k in t ==> ApplyAll(t, ws)[k] == t[k])
  {
    if ws == [] {
      i := -1;
    } else {
      var n := |ws| - 1;
      i := ApplyAllKeepsLastLatest(t, ws[..n], k);
      LastLatestExtends(ws, k, i);
      if ws[n].key == k && (i == -1 || ws[n].at >= ws[i].at) {
        i := n;
      }
    }
  }

  lemma FirstLatestUnique<K, V>(ws: seq<Write<K, V>>, k: K, i: int, j: int)
    requires FirstLatest(ws, k, i) && FirstLatest(ws, k, j)
    ensures i == j
  {}

  lemma LastLatestUnique<K, V>(ws: seq<Write<K, V>>, k: K, i: int, j: int)
    requires LastLatest(ws, k, i) && LastLatest(ws, k, j)
    ensures i == j
  {}

  /** Wherever the guard lets a write through, the first and last newest writes to a key say the same. */
  ghost predicate TiesAgree<K(!new), V>(t: map<K, Row<V>>, ws: seq<Write<K, V>>) {
    forall k, i, j :: FirstLatest(ws, k, i) && LastLatest(ws, k, j) && !Newer(t, ws[i]) ==> ws[i].val == ws[j].val
  }

  lemma BatchAgreesAt<K, V>(t: map<K, Row<V>>, ws: seq<Write<K, V>>, k: K) returns (i: int, j: int)
    ensures k in Batch(t, ws) <==> k in ApplyAll(t, ws)
    ensures k in Batch(t, ws) && !Occurs(ws, k) ==> Batch(t, ws)[k] == ApplyAll(t, ws)[k]
    ensures Occurs(ws, k) ==> (
      && FirstLatest(ws, k, i) && LastLatest(ws, k, j) && k in Batch(t, ws)
      && (Batch(t, ws)[k] == ApplyAll(t, ws)[k] <==> Newer(t, ws[i]) || ws[i].val == ws[j].val))
  {
    i := DedupeKeepsFirstLatest(ws, k);
    j := ApplyAllKeepsLastLatest(t, ws, k);
    if Occurs(ws, k) {
      assert ws[i].at == ws[j].at;
    }
  }

  /** The batch path agrees with one-at-a-time application exactly when tied timestamps agree. */
  lemma BatchRefinesApplyAll<K(!new), V>(t: map<K, Row<V>>, ws: seq<Write<K, V>>)
    ensures Batch(t, ws) == ApplyAll(t, ws) <==> TiesAgree(t, ws)
  {
    if TiesAgree(t, ws) {
      forall k
        ensures k in Batch(t, ws) <==> k in ApplyAll(t, ws)
        ensures k in Batch(t, ws) ==> Batch(t, ws)[k] == ApplyAll(t, ws)[k]
      {
        var i, j := BatchAgreesAt(t, ws, k);
      }
    } else {
      var k, i, j :| FirstLatest(ws, k, i) && LastLatest(ws, k, j) && !Newer(t, ws[i]) && ws[i].val != ws[j].val;
      var a, b := BatchAgreesAt(t, ws, k);
      FirstLatestUnique(ws, k, i, a);
      LastLatestUnique(ws, k, j, b);
    }
  }

  /** No key has two writes with the same timestamp. */
  ghost predicate DistinctTimes<K, V>(ws: seq<Write<K, V>>) {
    forall i, j :: 0 <= i < j < |ws| && ws[i].key == ws[j].key ==> ws[i].at != ws[j].at
  }

  lemma DistinctTimesSuffice<K(!new), V>(t: map<K, Row<V>>, ws: seq<Write<K, V>>)
    requires DistinctTimes(ws)
    ensures Batch(t, ws) == ApplyAll(t, ws)
  {
    BatchRefinesApplyAll(t, ws);
    forall k, i, j | FirstLatest(ws, k, i) && LastLatest(ws, k, j)
      ensures i == j
    {
      assert ws[i].at == ws[j].at;
    }
  }

  /** The tie really matters: dedupe keeps the first of two tied writes, the guard lets the second win. */
  lemma TiedBatchDiverges()
    ensures var ws := [Write(1, 100, 5), Write(1, 200, 5)];
      Batch(map[], ws) == map[1 := Row(100, 5)] && ApplyAll(map[], ws) == map[1 := Row(200, 5)]
  {
    var a, b := Write(1, 100, 5), Write(1, 200, 5);
    var ws := [a, b];
    assert ws[..1] == [a];
    assert Dedupe([a]) == map[1 := a];
    assert ApplyAll(map[], [a]) == map[1 := Row(100, 5)];
  }

  /** No write path ever loses a row or moves a row's timestamp back. */
  ghost predicate NeverOlder<K(!new), V>(t: map<K, Row<V>>, t': map<K, Row<V>>) {
    forall k :: k in t ==> k in t' && t[k].at <= t'[k].at
  }

  /** A run of batches, each applied to the table the previous one left. */
  function ApplyBatches<K, V>(t: map<K, Row<V>>, batches: seq<seq<Write<K, V>>>): map<K, Row<V>> {
    if batches == [] then t
    else Batch(ApplyBatches(t, batches[..|batches| - 1]), batches[|batches| - 1])
  }

  lemma {:induction false} TimestampsNeverDecrease<K(!new), V>(t: map<K, Row<V>>, batches: seq<seq<Write<K, V>>>)
    ensures NeverOlder(t, ApplyBatches(t, batches))
  {
    if batches != [] {
      var n := |batches| - 1;
      TimestampsNeverDecrease(t, batches[..n]);
    }
  }

  /** Over pairwise distinct keys, the order in which the statement lists its rows does not matter. */
  lemma StatementSettles<K(!new), V>(t: map<K, Row<V>>, ws: seq<Write<K, V>>, d: map<K, Write<K, V>>)
    requires forall i, j :: 0 <= i < j < |ws| ==> ws[i].key != ws[j].key
    requires forall k :: k in d ==> d[k].key == k && d[k] in ws
    requires forall i :: 0 <= i < |ws| ==> ws[i].key in d && d[ws[i].key] == ws[i]
    ensures ApplyAll(t, ws) == Settle(t, d)
  {
    forall k
      ensures k in ApplyAll(t, ws) <==> k in t || k in d
      ensures k in d ==> ApplyAll(t, ws)[k] == Settle(t, d)[k]
      ensures k in t && k !in d ==> ApplyAll(t, ws)[k] == t[k]
    {
      var i := ApplyAllKeepsLastLatest(t, ws, k);
    }
  }
}
