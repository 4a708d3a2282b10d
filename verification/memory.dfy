/** `InMemoryStorage`: a map from key to value that is never persisted. The
    value type is generic; the file backend instantiates it with records
    keyed by their short code. */
module MemoryStorage {
  import opened Results
  import opened Records

  datatype InMemoryStorage<V> = InMemoryStorage(data: map<string, V>)

  /** `NewInMemoryStorage`: a storage holding no key. */
  function New<V>(): (s: InMemoryStorage<V>)
    ensures forall k :: k !in s.data
  {
    InMemoryStorage(map[])
  }

  /** `Store(key, value)`: binds `key` to `value`, replacing any earlier value,
      and never fails. */
  function Store<V>(s: InMemoryStorage<V>, key: string, value: V): (r: (InMemoryStorage<V>, Option<Error>))
    ensures r.1 == None
    ensures r.0.data.Keys == s.data.Keys + {key}
    ensures r.0.data[key] == value
    ensures forall k :: k in s.data && k != key ==> r.0.data[k] == s.data[k]
  {
    (InMemoryStorage(s.data[key := value]), None)
  }

  /** `Get(key)`: the bound value, or the error "key not found: <key>". */
  function Get<V>(s: InMemoryStorage<V>, key: string): (r: Result<V, Error>)
    ensures r.Ok? <==> key in s.data
    ensures r.Ok? ==> r.value == s.data[key]
    ensures r.Err? ==> r.error == KeyNotFound(key) && Message(r.error) == "key not found: " + key
  {
    if key in s.data then Ok(s.data[key]) else Err(KeyNotFound(key))
  }

  /** A stored value is read back unchanged. */
  lemma GetAfterStore<V>(s: InMemoryStorage<V>, key: string, value: V)
    ensures Get(Store(s, key, value).0, key) == Ok(value)
  {
  }

  /** Storing under one key leaves what every other key reads unchanged. */
  lemma StoreFrame<V>(s: InMemoryStorage<V>, key: string, value: V, other: string)
    requires other != key
    ensures Get(Store(s, key, value).0, other) == Get(s, other)
  {
  }

  /** Storing twice under one key is the same as storing only the second value. */
  lemma StoreLastWriteWins<V>(s: InMemoryStorage<V>, key: string, v1: V, v2: V)
    ensures Store(Store(s, key, v1).0, key, v2) == Store(s, key, v2)
  {
    assert s.data[key := v1][key := v2] == s.data[key := v2];
  }

  /** Nothing is found in a fresh storage. */
  lemma GetFromNew<V>(key: string)
    ensures Get(New<V>(), key) == Err(KeyNotFound(key))
  {
  }
}
