/** The list-plus-lookup-map shape every transformer returns. The map is
    built the way Go builds it, `m[key] = value` inside a range loop, so a
    later record overwrites an earlier one with the same key while the list
    keeps both. */
module Index {

  /** A transformer's output: the ordered records and the map from natural
      key to the serialized record. */
  datatype Dataset<T> = Dataset(records: seq<T>, index: map<string, string>)

  /** Map obtained by assigning every pair in order. */
  function BuildIndex<K(==), V>(entries: seq<(K, V)>): map<K, V>
  {
    if |entries| == 0 then map[]
    else BuildIndex(entries[..|entries| - 1])[entries[|entries| - 1].0 := entries[|entries| - 1].1]
  }

  ghost function KeysOf<K, V>(entries: seq<(K, V)>): set<K> {
    set i | 0 <= i < |entries| :: entries[i].0
  }

  ghost predicate DistinctKeys<K, V>(entries: seq<(K, V)>) {
    forall i, j :: 0 <= i < j < |entries| ==> entries[i].0 != entries[j].0
  }

  /** Pair `i` is the last one in `entries` carrying key `k`. */
  ghost predicate IsLastWith<K, V>(entries: seq<(K, V)>, k: K, i: int) {
    && 0 <= i < |entries|
    && entries[i].0 == k
    && forall j :: i < j < |entries| ==> entries[j].0 != k
  }

  lemma KeysOfSnoc<K, V>(entries: seq<(K, V)>)
    requires |entries| > 0
    ensures KeysOf(entries) == KeysOf(entries[..|entries| - 1]) + {entries[|entries| - 1].0}
  {
    var p := entries[..|entries| - 1];
    forall k | k in KeysOf(entries)
      ensures k in KeysOf(p) + {entries[|entries| - 1].0}
    {
      var i :| 0 <= i < |entries| && entries[i].0 == k;
      if i < |entries| - 1 {
        assert p[i].0 == k;
      }
    }
    forall k | k in KeysOf(p)
      ensures k in KeysOf(entries)
    {
      var i :| 0 <= i < |p| && p[i].0 == k;
      assert entries[i].0 == k;
    }
  }

  /** The map's key set is exactly the set of keys in the list, and each key
      maps to the value of the last pair with that key. */
  lemma {:induction false} BuildIndexLastWriterWins<K, V>(entries: seq<(K, V)>)
    ensures BuildIndex(entries).Keys == KeysOf(entries)
    ensures forall k :: k in BuildIndex(entries) ==>
              exists i :: IsLastWith(entries, k, i) && BuildIndex(entries)[k] == entries[i].1
  {
    if |entries| > 0 {
      var n := |entries|;
      var p := entries[..n - 1];
      var m := BuildIndex(entries);
      BuildIndexLastWriterWins(p);
      KeysOfSnoc(entries);
      forall k | k in m
        ensures exists i :: IsLastWith(entries, k, i) && m[k] == entries[i].1
      {
        if k == entries[n - 1].0 {
          assert IsLastWith(entries, k, n - 1);
        } else {
          var i :| IsLastWith(p, k, i) && BuildIndex(p)[k] == p[i].1;
          assert IsLastWith(entries, k, i);
        }
      }
    }
  }

  /** A map value is the value of the last pair with that key: stated for
      one key, without an existential. */
  lemma BuildIndexAt<K, V>(entries: seq<(K, V)>, i: int)
    requires 0 <= i < |entries| && IsLastWith(entries, entries[i].0, i)
    ensures entries[i].0 in BuildIndex(entries)
    ensures BuildIndex(entries)[entries[i].0] == entries[i].1
  {
    BuildIndexLastWriterWins(entries);
    var k := entries[i].0;
    var j :| IsLastWith(entries, k, j) && BuildIndex(entries)[k] == entries[j].1;
    assert i == j;
  }

  /** The map never has more keys than the list has entries, and has exactly
      as many iff no key repeats. */
  lemma {:induction false} KeysOfSize<K, V>(entries: seq<(K, V)>)
    ensures |KeysOf(entries)| <= |entries|
    ensures |KeysOf(entries)| == |entries| <==> DistinctKeys(entries)
  {
    if |entries| > 0 {
      var n := |entries|;
      var p := entries[..n - 1];
      var x := entries[n - 1].0;
      KeysOfSize(p);
      KeysOfSnoc(entries);
      if x in KeysOf(p) {
        var i :| 0 <= i < |p| && p[i].0 == x;
        assert entries[i].0 == entries[n - 1].0;
      } else {
        assert |KeysOf(entries)| == |KeysOf(p)| + 1;
        if DistinctKeys(p) {
          forall i, j | 0 <= i < j < n
            ensures entries[i].0 != entries[j].0
          {
            if j == n - 1 {
              assert p[i].0 in KeysOf(p);
            } else {
              assert p[i].0 != p[j].0;
            }
          }
        } else {
          var i, j :| 0 <= i < j < |p| && p[i].0 == p[j].0;
          assert entries[i].0 == entries[j].0;
        }
      }
    }
  }

  /** Map size versus list length, for the built map itself. */
  lemma BuildIndexSize<K, V>(entries: seq<(K, V)>)
    ensures |BuildIndex(entries)| <= |entries|
    ensures |BuildIndex(entries)| == |entries| <==> DistinctKeys(entries)
  {
    BuildIndexLastWriterWins(entries);
    KeysOfSize(entries);
    assert |BuildIndex(entries)| == |BuildIndex(entries).Keys|;
  }

  /** The pairs a transformer assigns into its map: record key and
      serialized record, in list order. */
  function Entries<T>(records: seq<T>, key: T -> string, text: T -> string): (es: seq<(string, string)>)
    ensures |es| == |records|
    ensures forall i :: 0 <= i < |records| ==> es[i] == (key(records[i]), text(records[i]))
  {
    seq(|records|, i requires 0 <= i < |records| => (key(records[i]), text(records[i])))
  }

  /** The dataset a transformer returns for `records`. */
  function MakeDataset<T>(records: seq<T>, key: T -> string, text: T -> string): Dataset<T> {
    Dataset(records, BuildIndex(Entries(records, key, text)))
  }

  ghost function KeySet<T>(records: seq<T>, key: T -> string): set<string> {
    set i | 0 <= i < |records| :: key(records[i])
  }

  ghost predicate DistinctBy<T>(records: seq<T>, key: T -> string) {
    forall i, j :: 0 <= i < j < |records| ==> key(records[i]) != key(records[j])
  }

  /** Record `i` is the last record whose key is `k`. */
  ghost predicate IsLastRecord<T>(records: seq<T>, key: T -> string, k: string, i: int) {
    && 0 <= i < |records|
    && key(records[i]) == k
    && forall j :: i < j < |records| ==> key(records[j]) != k
  }

  /** The map of a dataset has exactly the records' keys. */
  lemma DatasetKeys<T>(records: seq<T>, key: T -> string, text: T -> string)
    ensures MakeDataset(records, key, text).index.Keys == KeySet(records, key)
  {
    var es := Entries(records, key, text);
    BuildIndexLastWriterWins(es);
    forall k | k in KeysOf(es) ensures k in KeySet(records, key) {
      var i :| 0 <= i < |es| && es[i].0 == k;
      assert key(records[i]) == k;
    }
    forall k | k in KeySet(records, key) ensures k in KeysOf(es) {
      var i :| 0 <= i < |records| && key(records[i]) == k;
      assert es[i].0 == k;
    }
  }

  /** Every map value of a dataset is the serialization of the last record
      with that key. */
  lemma DatasetValues<T>(records: seq<T>, key: T -> string, text: T -> string, k: string)
    requires k in MakeDataset(records, key, text).index
    ensures exists i :: IsLastRecord(records, key, k, i)
                && MakeDataset(records, key, text).index[k] == text(records[i])
  {
    var es := Entries(records, key, text);
    BuildIndexLastWriterWins(es);
    var i :| IsLastWith(es, k, i) && BuildIndex(es)[k] == es[i].1;
    forall j | i < j < |records| ensures key(records[j]) != k {
      assert es[j].0 != k;
    }
    assert IsLastRecord(records, key, k, i);
  }

  /** The last record with a given key is what the map holds for that key. */
  lemma DatasetValueOfLast<T>(records: seq<T>, key: T -> string, text: T -> string, i: int)
    requires 0 <= i < |records| && IsLastRecord(records, key, key(records[i]), i)
    ensures key(records[i]) in MakeDataset(records, key, text).index
    ensures MakeDataset(records, key, text).index[key(records[i])] == text(records[i])
  {
    var es := Entries(records, key, text);
    forall j | i < j < |es| ensures es[j].0 != es[i].0 {
      assert key(records[j]) != key(records[i]);
    }
    BuildIndexAt(es, i);
  }

  /** A dataset's map is no larger than its list, and exactly as large iff
      the records' keys are distinct. */
  lemma DatasetSize<T>(records: seq<T>, key: T -> string, text: T -> string)
    ensures |MakeDataset(records, key, text).index| <= |records|
    ensures |MakeDataset(records, key, text).index| == |records| <==> DistinctBy(records, key)
  {
    var es := Entries(records, key, text);
    BuildIndexSize(es);
    assert DistinctKeys(es) <==> DistinctBy(records, key) by {
      if DistinctKeys(es) {
        forall i, j | 0 <= i < j < |records| ensures key(records[i]) != key(records[j]) {
          assert es[i].0 != es[j].0;
        }
      }
      if DistinctBy(records, key) {
        forall i, j | 0 <= i < j < |es| ensures es[i].0 != es[j].0 {
          assert key(records[i]) != key(records[j]);
        }
      }
    }
  }

  /** A dataset's map is empty exactly when its list is. */
  lemma DatasetEmpty<T>(records: seq<T>, key: T -> string, text: T -> string)
    ensures |MakeDataset(records, key, text).index| == 0 <==> |records| == 0
  {
    DatasetKeys(records, key, text);
    if |records| > 0 {
      assert key(records[0]) in KeySet(records, key);
    }
  }
}
