/** The hash maps of the eBPF programs, which hold a limited number of entries. */
module HashMaps {
  const MAX_ENTRIES := 10240

  predicate Room<K, V>(m: map<K, V>, k: K)
  {
    k in m || |m| < MAX_ENTRIES
  }

  /** bpf_map_update_elem: a new key does not go in a full map. */
  function Put<K, V>(m: map<K, V>, k: K, v: V): (r: map<K, V>)
    ensures Room(m, k) ==> r == m[k := v]
    ensures !Room(m, k) ==> r == m
  {
    if Room(m, k) then m[k := v] else m
  }
}
