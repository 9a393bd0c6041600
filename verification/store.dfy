/** The key-value store both query engines write to, reduced to the two
    Redis commands they issue: `SET` (a string value, overwriting whatever
    the key held) and `HSET` (merging fields into a hash). A server or
    connection failure is not modelled as such: instead a `Faults` map names
    the keys whose writes fail and the error each reports. */
module Store {

  datatype StoreVal = Str(text: string) | Hash(fields: map<string, string>)

  type Store = map<string, StoreVal>

  /** Keys whose writes are rejected, with the error text returned. */
  type Faults = map<string, string>

  /** The outcome of one write: the store afterwards, and on failure the
      error. A failed write leaves the store as it was. */
  datatype Write = Stored(store: Store) | Failed(store: Store, error: string)

  const WRONGTYPE_ERROR: string := "WRONGTYPE Operation against a key holding the wrong kind of value"
  const HSET_ARITY_ERROR: string := "ERR wrong number of arguments for 'hset' command"

  /** `b` agrees with `a` on every key except those in `keys`. */
  ghost predicate SameExcept(a: Store, b: Store, keys: set<string>) {
    forall k :: k !in keys ==> (k in a <==> k in b) && (k in a ==> a[k] == b[k])
  }

  /** `SET key value`: on success the key holds exactly the string value,
      whatever it held before, and no other key changes. */
  function Set(st: Store, faults: Faults, key: string, value: string): (w: Write)
    ensures w.Stored? <==> key !in faults
    ensures w.Failed? ==> w.store == st && w.error == faults[key]
    ensures w.Stored? ==> key in w.store && w.store[key] == Str(value)
    ensures SameExcept(st, w.store, {key})
  {
    if key in faults then Failed(st, faults[key]) else Stored(st[key := Str(value)])
  }

  /** The fields of the hash at `key`, none when the key is absent. */
  function HashFields(st: Store, key: string): map<string, string>
    requires key in st ==> st[key].Hash?
  {
    if key in st then st[key].fields else map[]
  }

  /** `HSET key field value ...`: rejected for an injected fault, for an
      empty field list (the command then has too few arguments) and for a
      key holding a string; otherwise the given fields are set, every other
      field of the hash keeps its value, and no other key changes. */
  function HSet(st: Store, faults: Faults, key: string, fields: map<string, string>): (w: Write)
    ensures key in faults ==> w == Failed(st, faults[key])
    ensures key !in faults && |fields| == 0 ==> w == Failed(st, HSET_ARITY_ERROR)
    ensures key !in faults && |fields| > 0 && key in st && st[key].Str? ==> w == Failed(st, WRONGTYPE_ERROR)
    ensures w.Stored? <==> key !in faults && |fields| > 0 && (key in st ==> st[key].Hash?)
    ensures w.Failed? ==> w.store == st
    ensures w.Stored? ==> key in w.store && w.store[key].Hash?
    ensures w.Stored? ==> w.store[key].fields.Keys == HashFields(st, key).Keys + fields.Keys
    ensures w.Stored? ==> forall f :: f in fields ==> w.store[key].fields[f] == fields[f]
    ensures w.Stored? ==> forall f :: f in HashFields(st, key) && f !in fields ==>
              w.store[key].fields[f] == HashFields(st, key)[f]
    ensures SameExcept(st, w.store, {key})
  {
    if key in faults then Failed(st, faults[key])
    else if |fields| == 0 then Failed(st, HSET_ARITY_ERROR)
    else if key in st && st[key].Str? then Failed(st, WRONGTYPE_ERROR)
    else Stored(st[key := Hash(HashFields(st, key) + fields)])
  }

  /** Writing the same fields twice leaves the store as one write does,
      whenever the first write is accepted. */
  lemma HSetIdempotent(st: Store, faults: Faults, key: string, fields: map<string, string>)
    requires key !in faults && |fields| > 0 && (key in st ==> st[key].Hash?)
    ensures HSet(HSet(st, faults, key, fields).store, faults, key, fields) == HSet(st, faults, key, fields)
  {
    var merged := HashFields(st, key) + fields;
    var once := st[key := Hash(merged)];
    assert HSet(st, faults, key, fields) == Stored(once);
    MergeIdempotent(HashFields(st, key), fields);
    assert once[key := Hash(merged)] == once;
  }

  /** Merging the same fields a second time changes nothing. */
  lemma MergeIdempotent(m: map<string, string>, fields: map<string, string>)
    ensures (m + fields) + fields == m + fields
  {
  }

  /** A successful `SET` makes an `HSET` of the same key fail with the
      wrong-type error until the key is set again. */
  lemma SetThenHSetWrongType(st: Store, faults: Faults, key: string, value: string, fields: map<string, string>)
    requires key !in faults && |fields| > 0
    ensures HSet(Set(st, faults, key, value).store, faults, key, fields) ==
            Failed(Set(st, faults, key, value).store, WRONGTYPE_ERROR)
  {
  }

  /** `SameExcept` composes: two writes change at most the union of their keys. */
  lemma SameExceptTrans(a: Store, b: Store, c: Store, k1: set<string>, k2: set<string>)
    requires SameExcept(a, b, k1) && SameExcept(b, c, k2)
    ensures SameExcept(a, c, k1 + k2)
  {
  }

  /** Whether `HSET` succeeds, and its error, depend only on the key it writes. */
  lemma HSetLocal(a: Store, b: Store, faults: Faults, key: string, fields: map<string, string>)
    requires (key in a <==> key in b) && (key in a ==> a[key] == b[key])
    ensures HSet(a, faults, key, fields).Stored? == HSet(b, faults, key, fields).Stored?
    ensures HSet(a, faults, key, fields).Failed? ==>
              HSet(a, faults, key, fields).error == HSet(b, faults, key, fields).error
  {
  }
}
