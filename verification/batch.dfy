/**
 A multi-path batch write into one collection of the store: every row is
 written under its own key, in order, so that a later row with the same key
 replaces an earlier one and keys the batch does not mention keep their
 records.
 */
module Batch {

  /** The keys a batch writes. */
  function Keys<T>(rows: seq<T>, key: T -> string): (ks: set<string>)
    ensures forall i :: 0 <= i < |rows| ==> key(rows[i]) in ks
    decreases |rows|
  {
    if |rows| == 0 then {}
    else
      var init := rows[..|rows| - 1];
      assert forall i :: 0 <= i < |init| ==> init[i] == rows[i];
      Keys(init, key) + {key(rows[|rows| - 1])}
  }

  /** No later row of the batch is written under the same key as row `i`. */
  predicate LastWrite<T>(rows: seq<T>, key: T -> string, i: int)
    requires 0 <= i < |rows|
  {
    forall j :: i < j < |rows| ==> key(rows[j]) != key(rows[i])
  }

  /** Every row of the batch has a key of its own. */
  predicate DistinctKeys<T>(rows: seq<T>, key: T -> string) {
    forall i, j :: 0 <= i < j < |rows| ==> key(rows[i]) != key(rows[j])
  }

  /** Writes the rows one after the other, each under its key. */
  function WriteAll<T>(m: map<string, T>, rows: seq<T>, key: T -> string): (r: map<string, T>)
    ensures r.Keys == m.Keys + Keys(rows, key)
    decreases |rows|
  {
    if |rows| == 0 then m
    else WriteAll(m, rows[..|rows| - 1], key)[key(rows[|rows| - 1]) := rows[|rows| - 1]]
  }

  /** A key is written by the batch exactly when some row carries it. */
  lemma {:induction false} KeysMembership<T>(rows: seq<T>, key: T -> string, k: string)
    ensures k in Keys(rows, key) <==> exists i :: 0 <= i < |rows| && key(rows[i]) == k
    decreases |rows|
  {
    if |rows| > 0 {
      var init := rows[..|rows| - 1];
      KeysMembership(init, key, k);
      assert forall i :: 0 <= i < |init| ==> init[i] == rows[i];
      if key(rows[|rows| - 1]) == k {
        assert exists i :: 0 <= i < |rows| && key(rows[i]) == k;
      }
    }
  }

  /** Records under keys the batch does not write are left as they were. */
  lemma {:induction false} WriteAllKeeps<T>(m: map<string, T>, rows: seq<T>, key: T -> string, k: string)
    requires k in m && k !in Keys(rows, key)
    ensures WriteAll(m, rows, key)[k] == m[k]
    decreases |rows|
  {
    if |rows| > 0 {
      WriteAllKeeps(m, rows[..|rows| - 1], key, k);
    }
  }

  /** The last row written under a key is the record stored there. */
  lemma {:induction false} WriteAllStores<T>(m: map<string, T>, rows: seq<T>, key: T -> string, i: int)
    requires 0 <= i < |rows| && LastWrite(rows, key, i)
    ensures WriteAll(m, rows, key)[key(rows[i])] == rows[i]
    decreases |rows|
  {
    if i < |rows| - 1 {
      var init := rows[..|rows| - 1];
      assert init[i] == rows[i];
      assert LastWrite(init, key, i);
      WriteAllStores(m, init, key, i);
    }
  }

  /** Every record after the batch is the one stored before it or a row of
      the batch written under that record's key. */
  lemma {:induction false} WriteAllSource<T>(m: map<string, T>, rows: seq<T>, key: T -> string, k: string)
    requires k in WriteAll(m, rows, key)
    ensures (k in m && WriteAll(m, rows, key)[k] == m[k]) ||
            exists i :: 0 <= i < |rows| && key(rows[i]) == k && WriteAll(m, rows, key)[k] == rows[i]
    decreases |rows|
  {
    if |rows| > 0 {
      var init := rows[..|rows| - 1];
      var last := rows[|rows| - 1];
      if k == key(last) {
        assert key(rows[|rows| - 1]) == k && WriteAll(m, rows, key)[k] == rows[|rows| - 1];
      } else {
        WriteAllSource(m, init, key, k);
        assert forall i :: 0 <= i < |init| ==> init[i] == rows[i];
      }
    }
  }

  /** A batch of distinct keys, none of them already present, adds exactly
      one record per row. */
  lemma {:induction false} WriteAllSize<T>(m: map<string, T>, rows: seq<T>, key: T -> string)
    requires DistinctKeys(rows, key)
    requires forall i :: 0 <= i < |rows| ==> key(rows[i]) !in m
    ensures |WriteAll(m, rows, key)| == |m| + |rows|
    decreases |rows|
  {
    if |rows| > 0 {
      var init := rows[..|rows| - 1];
      var last := rows[|rows| - 1];
      assert forall i :: 0 <= i < |init| ==> init[i] == rows[i];
      WriteAllSize(m, init, key);
      KeysMembership(init, key, key(last));
      assert key(last) !in WriteAll(m, init, key);
    }
  }

  /** A batch whose rows carry the distinct fresh keys `ids`, in order,
      adds one record per row, stores each row under its key, and keeps
      every record already present. Together these fix the keys after the
      write: the old ones and `ids[..|rows|]`. */
  lemma WriteAllFreshRows<T>(m: map<string, T>, rows: seq<T>, key: T -> string, ids: seq<string>)
    requires |rows| <= |ids|
    requires forall i :: 0 <= i < |rows| ==> key(rows[i]) == ids[i]
    requires forall i, j :: 0 <= i < j < |rows| ==> ids[i] != ids[j]
    requires forall i :: 0 <= i < |rows| ==> ids[i] !in m
    ensures |WriteAll(m, rows, key)| == |m| + |rows|
    ensures forall k :: k in m ==> k in WriteAll(m, rows, key) && WriteAll(m, rows, key)[k] == m[k]
    ensures forall i :: 0 <= i < |rows| ==> ids[i] in WriteAll(m, rows, key) && WriteAll(m, rows, key)[ids[i]] == rows[i]
  {
    WriteAllSize(m, rows, key);
    forall k | k in m
      ensures WriteAll(m, rows, key)[k] == m[k]
    {
      KeysMembership(rows, key, k);
      WriteAllKeeps(m, rows, key, k);
    }
    forall i | 0 <= i < |rows|
      ensures WriteAll(m, rows, key)[ids[i]] == rows[i]
    {
      WriteAllStores(m, rows, key, i);
    }
  }

  /** Under a key the batch writes, the stored record does not depend on
      what the collection held before. */
  lemma {:induction false} WriteAllOverrides<T>(m1: map<string, T>, m2: map<string, T>, rows: seq<T>,
                                                key: T -> string, k: string)
    requires k in Keys(rows, key)
    ensures WriteAll(m1, rows, key)[k] == WriteAll(m2, rows, key)[k]
    decreases |rows|
  {
    var init := rows[..|rows| - 1];
    if key(rows[|rows| - 1]) != k {
      assert k in Keys(init, key);
      WriteAllOverrides(m1, m2, init, key, k);
    }
  }

  /** Writing the same batch twice is the same as writing it once. */
  lemma WriteAllIdempotent<T>(m: map<string, T>, rows: seq<T>, key: T -> string)
    ensures WriteAll(WriteAll(m, rows, key), rows, key) == WriteAll(m, rows, key)
  {
    var once := WriteAll(m, rows, key);
    var twice := WriteAll(once, rows, key);
    forall k | k in twice
      ensures twice[k] == once[k]
    {
      if k in Keys(rows, key) {
        WriteAllOverrides(once, m, rows, key, k);
      } else {
        WriteAllKeeps(once, rows, key, k);
      }
    }
  }
}
