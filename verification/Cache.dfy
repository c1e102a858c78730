/** The in-process cache with its sidecar key set, and the invalidator (cache/bigcache.go, invalidation.go). */
module Cache {
  import opened Wrappers
  import opened CacheKeys
  import Text

  type Value = string

  datatype Lookup = Hit(value: Value) | Miss | Failed

  function WithoutPrefix(m: map<string, Value>, prefix: string): map<string, Value> {
    map k | k in m && !HasPrefix(k, prefix) :: m[k]
  }

  function KeysWithoutPrefix(s: set<string>, prefix: string): set<string> {
    set k | k in s && !HasPrefix(k, prefix)
  }

  ghost predicate SubMap(m: map<string, Value>, w: map<string, Value>) {
    forall k | k in m :: k in w && w[k] == m[k]
  }

  /** `written` is the lossless cache this one stands for: the last value set for each key and
      not deleted since. */
  class Backend {
    var store: map<string, Value>
    var keys: set<string>
    ghost var written: map<string, Value>

    /** Live keys are tracked, and a stored value is the last one written. */
    ghost predicate Valid()
      reads this
    {
      store.Keys <= keys && SubMap(store, written)
    }

    constructor ()
      ensures Valid() && store == map[] && written == map[]
    {
      store, keys, written := map[], {}, map[];
    }

    /** The store may lose any entry at any time; the sidecar does not notice. */
    method Evict(lost: set<string>)
      requires Valid()
      modifies this`store
      ensures Valid() && store == old(store) - lost
    {
      store := store - lost;
    }

    /** A hit is the last value written; a miss also forgets the key. `fails` is a store error. */
    method Get(key: string, fails: bool) returns (r: Lookup)
      requires Valid()
      modifies this`keys
      ensures Valid()
      ensures r == if fails then Failed else if key in store then Hit(store[key]) else Miss
      ensures r.Hit? ==> key in written && written[key] == r.value
      ensures keys == if r.Miss? then old(keys) - {key} else old(keys)
    {
      if fails {
        return Failed;
      }
      if key !in store {
        keys := keys - {key};
        return Miss;
      }
      return Hit(store[key]);
    }

    /** `lost` is what the store drops to make room; a failed write may drop entries too. */
    method Set(key: string, value: Value, lost: set<string>, fails: bool) returns (ok: bool)
      requires Valid()
      modifies this
      ensures Valid() && ok == !fails
      ensures ok ==> store == (old(store) - lost)[key := value] && written == old(written)[key := value]
                     && keys == old(keys) + {key}
      ensures !ok ==> store == old(store) - lost && written == old(written) && keys == old(keys)
    {
      Evict(lost);
      if fails {
        return false;
      }
      store := store[key := value];
      written := written[key := value];
      keys := keys + {key};
      return true;
    }

    method Delete(key: string)
      requires Valid()
      modifies this
      ensures Valid()
      ensures store == old(store) - {key} && written == old(written) - {key} && keys == old(keys) - {key}
    {
      store := store - {key};
      written := written - {key};
      keys := keys - {key};
    }

    /** Ranges over the sidecar in no particular order; the context counts as cancelled once
        `cancelAfter` keys have been visited. */
    method DeletePrefix(prefix: string, cancelAfter: Option<nat>) returns (ok: bool)
      requires Valid()
      modifies this
      ensures Valid()
      ensures cancelAfter.None? ==> ok
      ensures ok ==>
                && store == WithoutPrefix(old(store), prefix)
                && written == WithoutPrefix(old(written), prefix)
                && keys == KeysWithoutPrefix(old(keys), prefix)
      ensures forall k | !HasPrefix(k, prefix) ::
                && (k in store <==> k in old(store)) && (k in store ==> store[k] == old(store)[k])
                && (k in keys <==> k in old(keys))
      ensures SubMap(store, old(store))
    {
      var visited := 0;
      var left := keys;
      var cancelled := false;
      while left != {} && !cancelled
        invariant Valid() && left <= old(keys)
        invariant store == old(store) - Gone(prefix, old(keys) - left)
        invariant keys == old(keys) - Gone(prefix, old(keys) - left)
        invariant written == old(written) - Gone(prefix, old(keys) - left)
        invariant cancelled ==> cancelAfter.Some? && visited >= cancelAfter.value
        decreases left
      {
        var k :| k in left;
        ghost var gone := Gone(prefix, old(keys) - left);
        left := left - {k};
        visited := visited + 1;
        assert Gone(prefix, old(keys) - left) == if HasPrefix(k, prefix) then gone + {k} else gone;
        if HasPrefix(k, prefix) {
          store := store - {k};
          keys := keys - {k};
          written := written - {k};
        }
        cancelled := cancelAfter.Some? && visited >= cancelAfter.value;
      }
      ok := !(cancelAfter.Some? && visited >= cancelAfter.value);
      if ok {
        assert forall k | k in store :: !HasPrefix(k, prefix);
        ForgetUnstored(prefix);
      }
    }

    /** After a complete sweep nothing under the prefix counts as written any more. */
    ghost method ForgetUnstored(prefix: string)
      requires Valid() && forall k | k in store :: !HasPrefix(k, prefix)
      modifies this`written
      ensures Valid() && written == WithoutPrefix(old(written), prefix)
    {
      written := WithoutPrefix(written, prefix);
    }
  }

  /** Drops what an event makes stale. `cancelAfter(i)` tells when the i-th sweep of a call is cancelled. */
  class Invalidator {
    const cache: Backend

    constructor (cache: Backend)
      ensures this.cache == cache
    {
      this.cache := cache;
    }

    /** A blank prefix is refused; an error of the sweep is logged and ignored. */
    method DropPrefix(prefix: string, cancelAfter: Option<nat>)
      requires cache.Valid()
      modifies cache
      ensures cache.Valid()
      ensures var p := Text.TrimSpace(prefix);
              && (p == "" ==> cache.store == old(cache.store) && cache.written == old(cache.written))
              && (p != "" && cancelAfter.None? ==>
                    && cache.store == WithoutPrefix(old(cache.store), p)
                    && cache.written == WithoutPrefix(old(cache.written), p))
              && (forall k | !HasPrefix(k, p) ::
                    && (k in cache.store <==> k in old(cache.store))
                    && (k in cache.store ==> cache.store[k] == old(cache.store)[k]))
      ensures SubMap(cache.store, old(cache.store))
    {
      var (safe, ok) := SafePrefixForInvalidation(prefix);
      if !ok {
        return;
      }
      var _ := cache.DeletePrefix(safe, cancelAfter);
    }

    /** Two sweeps. Uncancelled, exactly the keys under the grantee's two prefixes are gone;
        cancelled or not, no other key is touched. */
    method RoleGranted(grantee: Principal, cancelAfter: nat -> Option<nat>)
      requires cache.Valid()
      modifies cache
      ensures cache.Valid()
      ensures Completes(cancelAfter) ==>
                && cache.store == (map k | k in old(cache.store) && !RoleGrantDrops(k, grantee) :: old(cache.store)[k])
                && forall k | k in cache.written :: !RoleGrantDrops(k, grantee)
      ensures forall k | k in old(cache.store) && !RoleGrantDrops(k, grantee) ::
                k in cache.store && cache.store[k] == old(cache.store)[k]
    {
      PrefixesTrimmed(grantee);
      DropPrefix(PrefixForPrincipal(NS_DOMAINS, grantee), cancelAfter(0));
      DropPrefix(PrefixForPrincipal(NS_EFFECTIVE_ACCESS, grantee), cancelAfter(1));
    }

    /** Flushes both access namespaces. Uncancelled, no domains or effective-access entry can hit
        afterwards; cancelled or not, every other entry is as it was. */
    method PolicyUpdated(cancelAfter: nat -> Option<nat>)
      requires cache.Valid()
      modifies cache
      ensures cache.Valid()
      ensures Completes(cancelAfter) ==>
                && cache.store == (map k | k in old(cache.store) && !PolicyDrops(k) :: old(cache.store)[k])
                && forall k | k in cache.written :: !PolicyDrops(k)
      ensures forall k | k in old(cache.store) && !PolicyDrops(k) ::
                k in cache.store && cache.store[k] == old(cache.store)[k]
    {
      NamespacesTrimmed();
      DropPrefix(NS_EFFECTIVE_ACCESS, cancelAfter(0));
      DropPrefix(NS_DOMAINS, cancelAfter(1));
    }

    /** Entity published or summarized, feed config patched: the keyword-search namespace goes. */
    method SearchInvalidated(cancelAfter: Option<nat>)
      requires cache.Valid()
      modifies cache
      ensures cache.Valid()
      ensures cancelAfter.None? ==>
                && cache.store == WithoutPrefix(old(cache.store), NS_SEARCH_KEYWORD)
                && cache.written == WithoutPrefix(old(cache.written), NS_SEARCH_KEYWORD)
      ensures forall k | k in old(cache.store) && !HasPrefix(k, NS_SEARCH_KEYWORD) ::
                k in cache.store && cache.store[k] == old(cache.store)[k]
    {
      NamespacesTrimmed();
      DropPrefix(NS_SEARCH_KEYWORD, cancelAfter);
    }
  }

  ghost predicate Completes(cancelAfter: nat -> Option<nat>) {
    cancelAfter(0).None? && cancelAfter(1).None?
  }

  predicate PolicyDrops(key: string) {
    HasPrefix(key, NS_DOMAINS) || HasPrefix(key, NS_EFFECTIVE_ACCESS)
  }

  lemma PrefixesTrimmed(u: Principal)
    ensures Text.TrimSpace(PrefixForPrincipal(NS_DOMAINS, u)) == PrefixForPrincipal(NS_DOMAINS, u)
    ensures Text.TrimSpace(PrefixForPrincipal(NS_EFFECTIVE_ACCESS, u)) == PrefixForPrincipal(NS_EFFECTIVE_ACCESS, u)
  {
    Text.TrimFacts(PrefixForPrincipal(NS_DOMAINS, u));
    Text.TrimFacts(PrefixForPrincipal(NS_EFFECTIVE_ACCESS, u));
  }

  lemma NamespacesTrimmed()
    ensures Text.TrimSpace(NS_DOMAINS) == NS_DOMAINS && Text.TrimSpace(NS_EFFECTIVE_ACCESS) == NS_EFFECTIVE_ACCESS
    ensures Text.TrimSpace(NS_SEARCH_KEYWORD) == NS_SEARCH_KEYWORD
  {
    Text.TrimFacts(NS_DOMAINS);
    Text.TrimFacts(NS_EFFECTIVE_ACCESS);
    Text.TrimFacts(NS_SEARCH_KEYWORD);
  }

  ghost function Gone(prefix: string, visited: set<string>): set<string> {
    set k | k in visited && HasPrefix(k, prefix)
  }
}
