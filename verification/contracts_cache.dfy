/** The contracts engine's cache writers (queryengine/contracts/cache.go).
    Its serializer `ResultToString` is not part of this model and is a
    parameter; the processed pair and cToken data come from functions that
    are not part of this model either, so their outputs are inputs here. */
module ContractsCache {
  import opened Json
  import opened Store
  import opened Config
  import opened Strings

  /** `ResultToString`, abstracted. */
  type Renderer = Json -> string

  const SET_MAP_ERROR_PREFIX: string := "SetMapToCache: "
  const SET_GENERAL_ERROR_PREFIX: string := "SetCacheWithResult: "
  const PAIRS_ERROR_PREFIX: string := "SetCacheWithProcessedPairs: "
  const CTOKENS_ERROR_PREFIX: string := "SetCacheWithProcessedCTokens: "

  /** The stored text: the block number and the serialized payload, both as
      strings, in one object. */
  function Envelope(render: Renderer, blockNumber: string, payload: Json): string {
    render(JObject([("block", JString(blockNumber)), ("results", JString(render(payload)))]))
  }

  /** `SetJsonToCache`: overwrites `key`, and only `key`, with the envelope;
      the store's error is returned as it is. */
  function SetJsonToCache(st: Store, faults: Faults, render: Renderer, key: string, blockNumber: string,
                          payload: Json): (w: Write)
    ensures w.Stored? <==> key !in faults
    ensures w.Failed? ==> w.store == st && w.error == faults[key]
    ensures w.Stored? ==> key in w.store && w.store[key] == Str(Envelope(render, blockNumber, payload))
    ensures SameExcept(st, w.store, {key})
  {
    Set(st, faults, key, Envelope(render, blockNumber, payload))
  }

  /** `SetMapToCache`: merges the map into the hash at `key`; other fields
      and other keys keep their values. */
  function SetMapToCache(st: Store, faults: Faults, key: string, fields: map<string, string>): (w: Write)
    ensures w.Stored? <==> HSet(st, faults, key, fields).Stored?
    ensures w.Failed? ==> w.store == st && w.error == SET_MAP_ERROR_PREFIX + HSet(st, faults, key, fields).error
    ensures w.Stored? ==> key in w.store && w.store[key].Hash?
    ensures w.Stored? ==> forall f :: f in fields ==> f in w.store[key].fields && w.store[key].fields[f] == fields[f]
    ensures w.Stored? ==> forall f :: f in HashFields(st, key) && f !in fields ==>
              f in w.store[key].fields && w.store[key].fields[f] == HashFields(st, key)[f]
    ensures SameExcept(st, w.store, {key})
  {
    match HSet(st, faults, key, fields)
    case Stored(s) => Stored(s)
    case Failed(s, e) => Failed(s, SET_MAP_ERROR_PREFIX + e)
  }

  /** `order` enumerates the keys of `results` once each: a Go map's
      iteration order, which the language leaves unspecified. */
  predicate IsOrderOf(order: seq<string>, results: map<string, seq<Json>>) {
    && (forall i, j :: 0 <= i < j < |order| ==> order[i] != order[j])
    && (forall k :: k in order ==> k in results)
    && (forall k :: k in results ==> k in order)
  }

  /** `order[i]` is the first key in `order` whose write is rejected. */
  ghost predicate FirstFailing(order: seq<string>, faults: Faults, i: int) {
    && 0 <= i < |order| && order[i] in faults
    && forall j :: 0 <= j < i ==> order[j] !in faults
  }

  /** The loop stopped at `order[i]`: every key visited before it holds its
      rendered text, and every key from `order[i]` on that was not visited
      before keeps its old value. */
  ghost predicate StoppedAt(st: Store, after: Store, render: Renderer, results: map<string, seq<Json>>,
                            order: seq<string>, i: int)
    requires forall k :: k in order ==> k in results
    requires 0 <= i <= |order|
  {
    && (forall j :: 0 <= j < i ==> order[j] in after && after[order[j]] == Str(GeneralText(render, results[order[j]])))
    && (forall k :: k in order[i..] && k !in order[..i] ==> (k in st <==> k in after) && (k in st ==> after[k] == st[k]))
  }

  /** The text a general result is stored as. */
  function GeneralText(render: Renderer, value: seq<Json>): string {
    render(JArray(value))
  }

  /** `SetCacheWithGeneral`, visiting the keys in `order`: each key is set
      to its serialized value, and the first rejected write stops the loop
      with the earlier writes already done. */
  function SetCacheWithGeneral(st: Store, faults: Faults, render: Renderer, results: map<string, seq<Json>>,
                               order: seq<string>): (w: Write)
    requires forall k :: k in order ==> k in results
    ensures w.Stored? <==> forall k :: k in order ==> k !in faults
    ensures w.Failed? ==> exists i :: FirstFailing(order, faults, i)
                            && w.error == SET_GENERAL_ERROR_PREFIX + faults[order[i]]
    ensures w.Failed? ==> forall i :: FirstFailing(order, faults, i) ==> StoppedAt(st, w.store, render, results, order, i)
    ensures w.Stored? ==> forall k :: k in order ==> k in w.store && w.store[k] == Str(GeneralText(render, results[k]))
    ensures forall k :: k !in order ==> (k in st <==> k in w.store) && (k in st ==> w.store[k] == st[k])
    decreases |order|
  {
    if |order| == 0 then Stored(st)
    else
      var key := order[0];
      match Set(st, faults, key, GeneralText(render, results[key]))
      case Failed(s, e) => Failed(s, SET_GENERAL_ERROR_PREFIX + e)
      case Stored(s) =>
        var rest := SetCacheWithGeneral(s, faults, render, results, order[1..]);
        assert forall k :: k in order[1..] ==> k in order;
        assert forall k :: k in order ==> k == key || k in order[1..];
        if rest.Stored? then rest
        else
          assert exists i :: FirstFailing(order, faults, i)
                               && rest.error == SET_GENERAL_ERROR_PREFIX + faults[order[i]] by {
            var i :| FirstFailing(order[1..], faults, i) && rest.error == SET_GENERAL_ERROR_PREFIX + faults[order[1..][i]];
            assert FirstFailing(order, faults, i + 1);
          }
          GeneralFailsLater(st, s, rest.store, faults, render, results, order);
          rest
  }

  /** The stopping clause for every first failing key, from the same
      clause for the rest of the loop. */
  lemma GeneralFailsLater(st: Store, s: Store, after: Store, faults: Faults, render: Renderer,
                          results: map<string, seq<Json>>, order: seq<string>)
    requires forall k :: k in order ==> k in results
    requires |order| > 0 && order[0] !in faults
    requires order[0] in s && s[order[0]] == Str(GeneralText(render, results[order[0]]))
    requires SameExcept(st, s, {order[0]})
    requires forall k :: k !in order[1..] ==> (k in s <==> k in after) && (k in s ==> after[k] == s[k])
    requires forall i :: FirstFailing(order[1..], faults, i) ==> StoppedAt(s, after, render, results, order[1..], i)
    ensures forall i :: FirstFailing(order, faults, i) ==> StoppedAt(st, after, render, results, order, i)
  {
    forall i | FirstFailing(order, faults, i)
      ensures StoppedAt(st, after, render, results, order, i)
    {
      assert FirstFailing(order[1..], faults, i - 1);
      GeneralStopsLater(st, s, after, render, results, order, i);
    }
  }

  /** The step of the stopping clause: when the first key was written and
      the rest of the loop stopped at `i - 1`, the whole loop stopped at `i`. */
  lemma GeneralStopsLater(st: Store, s: Store, after: Store, render: Renderer, results: map<string, seq<Json>>,
                          order: seq<string>, i: int)
    requires forall k :: k in order ==> k in results
    requires 0 < i <= |order|
    requires order[0] in s && s[order[0]] == Str(GeneralText(render, results[order[0]]))
    requires SameExcept(st, s, {order[0]})
    requires forall k :: k !in order[1..] ==> (k in s <==> k in after) && (k in s ==> after[k] == s[k])
    requires StoppedAt(s, after, render, results, order[1..], i - 1)
    ensures StoppedAt(st, after, render, results, order, i)
  {
    var tail := order[1..];
    assert order[..i] == [order[0]] + tail[..i - 1];
    assert order[i..] == tail[i - 1..];
    forall j | 0 <= j < i
      ensures order[j] in after && after[order[j]] == Str(GeneralText(render, results[order[j]]))
    {
      if j > 0 {
        assert order[j] == tail[j - 1];
      } else if order[0] in tail[..i - 1] {
        var m :| 0 <= m < i - 1 && tail[m] == order[0];
      } else if order[0] in tail {
        assert order[0] in tail[i - 1..] by {
          var m :| 0 <= m < |tail| && tail[m] == order[0];
          assert m >= i - 1;
          assert tail[i - 1..][m - (i - 1)] == order[0];
        }
      }
    }
  }

  /** Every result written: each result key holds its rendered text and
      every other key keeps its value. */
  ghost function GeneralStore(st: Store, render: Renderer, results: map<string, seq<Json>>): Store {
    map k | k in st.Keys + results.Keys :: if k in results then Str(GeneralText(render, results[k])) else st[k]
  }

  /** When every write is accepted, iterating the results in any order
      leaves exactly `GeneralStore`. */
  lemma GeneralWritesAll(st: Store, faults: Faults, render: Renderer, results: map<string, seq<Json>>,
                         order: seq<string>)
    requires IsOrderOf(order, results)
    requires forall k :: k in results ==> k !in faults
    ensures SetCacheWithGeneral(st, faults, render, results, order) == Stored(GeneralStore(st, render, results))
  {
    var w := SetCacheWithGeneral(st, faults, render, results, order);
    assert w.Stored?;
    var g := GeneralStore(st, render, results);
    forall k ensures (k in w.store <==> k in g) && (k in g ==> w.store[k] == g[k]) {
      if k in results {
        assert k in order;
      }
    }
    assert w.store == g;
  }

  /** The outcome does not depend on the iteration order: when every write
      is accepted, any two orders leave the same store. */
  lemma GeneralOrderIndependent(st: Store, faults: Faults, render: Renderer, results: map<string, seq<Json>>,
                                order1: seq<string>, order2: seq<string>)
    requires IsOrderOf(order1, results) && IsOrderOf(order2, results)
    requires forall k :: k in results ==> k !in faults
    ensures SetCacheWithGeneral(st, faults, render, results, order1).Stored?
    ensures SetCacheWithGeneral(st, faults, render, results, order1) ==
            SetCacheWithGeneral(st, faults, render, results, order2)
  {
    GeneralWritesAll(st, faults, render, results, order1);
    GeneralWritesAll(st, faults, render, results, order2);
  }

  /** The list-then-index protocol of the two processed-data writers:
      a rejected list write returns before the index is written, and
      either error is reported behind the writer's own name. */
  function SetListThenMap(st: Store, faults: Faults, render: Renderer, prefix: string, listKey: string,
                          mapKey: string, blockNumber: string, list: Json, index: map<string, string>): (w: Write)
    requires listKey != mapKey
    ensures listKey in faults ==> w == Failed(st, prefix + faults[listKey])
    ensures listKey !in faults ==> listKey in w.store && w.store[listKey] == Str(Envelope(render, blockNumber, list))
    ensures w.Stored? <==> listKey !in faults && HSet(st, faults, mapKey, index).Stored?
    ensures w.Failed? && listKey !in faults ==>
              w.error == prefix + SET_MAP_ERROR_PREFIX + HSet(st, faults, mapKey, index).error
    ensures w.Stored? ==> mapKey in w.store && w.store[mapKey].Hash?
    ensures w.Stored? ==> forall f :: f in index ==> f in w.store[mapKey].fields && w.store[mapKey].fields[f] == index[f]
    ensures SameExcept(st, w.store, {listKey, mapKey})
  {
    var wl := SetJsonToCache(st, faults, render, listKey, blockNumber, list);
    if wl.Failed? then Failed(st, prefix + wl.error)
    else
      HSetLocal(wl.store, st, faults, mapKey, index);
      var wm := SetMapToCache(wl.store, faults, mapKey, index);
      if wm.Failed? then Failed(wm.store, prefix + wm.error)
      else
        assert SameExcept(st, wm.store, {listKey, mapKey}) by {
          SameExceptTrans(st, wl.store, wm.store, {listKey}, {mapKey});
        }
        Stored(wm.store)
  }

  /** `SetCacheWithProcessedPairs`, given what `GetProcessedPairs` returned. */
  function SetCacheWithProcessedPairs(st: Store, faults: Faults, render: Renderer, blockNumber: string,
                                      processedPairs: Json, processedPairsMap: map<string, string>): (w: Write)
    ensures PROCESSED_PAIRS in faults ==> w == Failed(st, PAIRS_ERROR_PREFIX + faults[PROCESSED_PAIRS])
    ensures w.Stored? <==> PROCESSED_PAIRS !in faults && HSet(st, faults, PROCESSED_PAIRS_MAP, processedPairsMap).Stored?
    ensures w.Failed? ==> StartsWith(w.error, PAIRS_ERROR_PREFIX)
    ensures PROCESSED_PAIRS !in faults ==> PROCESSED_PAIRS in w.store && w.store[PROCESSED_PAIRS] == Str(Envelope(render, blockNumber, processedPairs))
    ensures w.Failed? && PROCESSED_PAIRS !in faults ==>
              w.error == PAIRS_ERROR_PREFIX + SET_MAP_ERROR_PREFIX + HSet(st, faults, PROCESSED_PAIRS_MAP, processedPairsMap).error
    ensures w.Stored? ==> PROCESSED_PAIRS_MAP in w.store && w.store[PROCESSED_PAIRS_MAP].Hash?
    ensures w.Stored? ==> forall f :: f in processedPairsMap ==>
              f in w.store[PROCESSED_PAIRS_MAP].fields && w.store[PROCESSED_PAIRS_MAP].fields[f] == processedPairsMap[f]
    ensures SameExcept(st, w.store, {PROCESSED_PAIRS, PROCESSED_PAIRS_MAP})
  {
    assert |PROCESSED_PAIRS| != |PROCESSED_PAIRS_MAP|;
    SetListThenMap(st, faults, render, PAIRS_ERROR_PREFIX, PROCESSED_PAIRS, PROCESSED_PAIRS_MAP,
                   blockNumber, processedPairs, processedPairsMap)
  }

  /** `SetCacheWithProcessedCTokens`, given what `GetProcessedCTokens` returned. */
  function SetCacheWithProcessedCTokens(st: Store, faults: Faults, render: Renderer, blockNumber: string,
                                        processedCTokens: Json, processedCTokensMap: map<string, string>): (w: Write)
    ensures PROCESSED_CTOKENS in faults ==> w == Failed(st, CTOKENS_ERROR_PREFIX + faults[PROCESSED_CTOKENS])
    ensures w.Stored? <==> PROCESSED_CTOKENS !in faults && HSet(st, faults, PROCESSED_CTOKENS_MAP, processedCTokensMap).Stored?
    ensures w.Failed? ==> StartsWith(w.error, CTOKENS_ERROR_PREFIX)
    ensures PROCESSED_CTOKENS !in faults ==> PROCESSED_CTOKENS in w.store && w.store[PROCESSED_CTOKENS] == Str(Envelope(render, blockNumber, processedCTokens))
    ensures w.Failed? && PROCESSED_CTOKENS !in faults ==>
              w.error == CTOKENS_ERROR_PREFIX + SET_MAP_ERROR_PREFIX + HSet(st, faults, PROCESSED_CTOKENS_MAP, processedCTokensMap).error
    ensures w.Stored? ==> PROCESSED_CTOKENS_MAP in w.store && w.store[PROCESSED_CTOKENS_MAP].Hash?
    ensures w.Stored? ==> forall f :: f in processedCTokensMap ==>
              f in w.store[PROCESSED_CTOKENS_MAP].fields && w.store[PROCESSED_CTOKENS_MAP].fields[f] == processedCTokensMap[f]
    ensures SameExcept(st, w.store, {PROCESSED_CTOKENS, PROCESSED_CTOKENS_MAP})
  {
    assert |PROCESSED_CTOKENS| != |PROCESSED_CTOKENS_MAP|;
    SetListThenMap(st, faults, render, CTOKENS_ERROR_PREFIX, PROCESSED_CTOKENS, PROCESSED_CTOKENS_MAP,
                   blockNumber, processedCTokens, processedCTokensMap)
  }
}
