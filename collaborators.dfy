/** The finance cache: company name to the materialised result. */
module Cache {
  import opened Model

  class FinanceCache {
    var entries: map<string, ScrapedResult>

    constructor ()
      ensures entries == map[]
    {
      entries := map[];
    }

    method Put(name: string, value: ScrapedResult)
      modifies this
      ensures entries == old(entries)[name := value]
    {
      entries := entries[name := value];
    }

    /** evict(name): only that one entry goes. */
    method Evict(name: string)
      modifies this
      ensures entries == old(entries) - {name}
    {
      entries := entries - {name};
    }

    /** Eviction of all entries. */
    method Clear()
      modifies this
      ensures entries == map[]
    {
      entries := map[];
    }
  }
}

/** The autocomplete trie, as the set of its keys (the values are unused). */
module Index {
  /** prefixMap(prefix).keySet(): the keys that start with the prefix. */
  function KeysWithPrefix(keys: set<string>, prefix: string): set<string>
  {
    set k | k in keys && prefix <= k
  }

  /**
   * What autocomplete answers: only stored keys that start with the prefix,
   * and, once a key is put, that key for every prefix of it.
   */
  lemma KeysWithPrefixSpec(keys: set<string>, prefix: string, k: string)
    ensures k in KeysWithPrefix(keys, prefix) <==> k in keys && prefix <= k
    ensures prefix <= k ==> k in KeysWithPrefix(keys + {k}, prefix)
    ensures k !in KeysWithPrefix(keys - {k}, prefix)
  {
  }

  class Trie {
    var keys: set<string>

    constructor ()
      ensures keys == {}
    {
      keys := {};
    }

    function PrefixKeys(prefix: string): set<string>
      reads this
    {
      KeysWithPrefix(keys, prefix)
    }

    /** put(key, null). */
    method Put(key: string)
      modifies this
      ensures keys == old(keys) + {key}
    {
      keys := keys + {key};
    }

    /** remove(key): exactly that key goes. */
    method Remove(key: string)
      modifies this
      ensures keys == old(keys) - {key}
    {
      keys := keys - {key};
    }
  }
}
