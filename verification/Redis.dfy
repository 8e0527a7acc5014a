/**
 * A Redis keyspace with expiry. Times are milliseconds of one clock; a key is gone as soon as the
 * clock reaches its expiry time.
 */
module Redis {
  import opened Common

  datatype Entry<+V> = Entry(value: V, expiry: Option<nat>)

  predicate Live<V>(e: Entry<V>, now: nat) {
    e.expiry.None? || now < e.expiry.value
  }

  predicate Exists<K, V>(store: map<K, Entry<V>>, k: K, now: nat) {
    k in store && Live(store[k], now)
  }

  function Get<K, V>(store: map<K, Entry<V>>, k: K, now: nat): Option<V> {
    if Exists(store, k, now) then Some(store[k].value) else None
  }

  /** The reply of `TTL`: whole seconds to live, rounded to nearest; -2 for no key, -1 for no expiry. */
  function Ttl<K, V>(store: map<K, Entry<V>>, k: K, now: nat): int {
    if !Exists(store, k, now) then -2
    else if store[k].expiry.None? then -1
    else (store[k].expiry.value - now + 500) / 1000
  }

  function SetEx<K, V>(store: map<K, Entry<V>>, k: K, v: V, seconds: nat, now: nat): map<K, Entry<V>> {
    store[k := Entry(v, Some(now + 1000 * seconds))]
  }
}
