/** The native engine's cache writers (queryengine/native/query_native.go):
    a list is stored as a JSON envelope under one key, an index as a hash
    under another. */
module NativeCache {
  import opened Json
  import opened Store

  const SET_JSON_ERROR_PREFIX: string := "SetJsonToCache: "
  const SET_MAP_ERROR_PREFIX: string := "SetMappingToCache: "

  /** The stored text: the payload is serialized first, and that text
      becomes the string value of the envelope's only field, `results`. */
  function Envelope(marshal: Marshaller, payload: Json): string {
    GeneralResultToString(marshal, JObject([("results", JString(GeneralResultToString(marshal, payload)))]))
  }

  /** `SetJsonToCache`: overwrites `key`, and only `key`, with the envelope;
      a rejected write reports the store's error behind the function's tag. */
  function SetJsonToCache(st: Store, faults: Faults, marshal: Marshaller, key: string, payload: Json): (w: Write)
    ensures w.Stored? <==> key !in faults
    ensures w.Failed? ==> w.store == st && w.error == SET_JSON_ERROR_PREFIX + faults[key]
    ensures w.Stored? ==> key in w.store && w.store[key] == Str(Envelope(marshal, payload))
    ensures SameExcept(st, w.store, {key})
  {
    match Set(st, faults, key, Envelope(marshal, payload))
    case Stored(s) => Stored(s)
    case Failed(s, e) => Failed(s, SET_JSON_ERROR_PREFIX + e)
  }

  /** `SetMapToCache`: merges the index into the hash at `key`; fields not
      in the index keep their old values. Any `HSET` error, the empty-index
      and wrong-type rejections included, is reported behind the tag. */
  function SetMapToCache(st: Store, faults: Faults, key: string, index: map<string, string>): (w: Write)
    ensures w.Stored? <==> HSet(st, faults, key, index).Stored?
    ensures w.Failed? ==> w.store == st && w.error == SET_MAP_ERROR_PREFIX + HSet(st, faults, key, index).error
    ensures w.Stored? ==> key in w.store && w.store[key].Hash?
    ensures w.Stored? ==> forall f :: f in index ==> f in w.store[key].fields && w.store[key].fields[f] == index[f]
    ensures w.Stored? ==> forall f :: f in HashFields(st, key) && f !in index ==>
              f in w.store[key].fields && w.store[key].fields[f] == HashFields(st, key)[f]
    ensures SameExcept(st, w.store, {key})
  {
    match HSet(st, faults, key, index)
    case Stored(s) => Stored(s)
    case Failed(s, e) => Failed(s, SET_MAP_ERROR_PREFIX + e)
  }

  /** An empty index can never be stored: the write always fails. */
  lemma EmptyIndexRejected(st: Store, faults: Faults, key: string)
    ensures SetMapToCache(st, faults, key, map[]).Failed?
  {
  }
}
