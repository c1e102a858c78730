/** Cache keys and prefixes (cache/keys.go). */
module CacheKeys {
  import opened Order
  import opened Text

  const NS_DOMAINS := "domains:"
  const NS_EFFECTIVE_ACCESS := "eff-access:"
  const NS_SEARCH_KEYWORD := "search-kw:"
  const NS_ENGINE_METADATA := "engine-meta:"
  const NS_ENTITY_SUMMARIZED := "entity-sum:"

  const NAMESPACES: seq<string> :=
    [NS_DOMAINS, NS_EFFECTIVE_ACCESS, NS_SEARCH_KEYWORD, NS_ENGINE_METADATA, NS_ENTITY_SUMMARIZED]

  predicate IsUuidText(s: string) {
    |s| == 36 && forall i | 0 <= i < |s| :: s[i] == '-' || '0' <= s[i] <= '9' || 'a' <= s[i] <= 'f'
  }

  /** A principal in its canonical text form: 36 hex digits and hyphens. */
  type Principal = s: string | IsUuidText(s) witness seq(36, _ => '0')

  function DomainsKey(p: Principal): string {
    NS_DOMAINS + p
  }

  function EffectiveAccessKey(p: Principal, target: Principal): string {
    NS_EFFECTIVE_ACCESS + p + ":" + target
  }

  /** `digest` is the hashed preimage. */
  function SearchKeywordKey(p: Principal, digest: string): string {
    NS_SEARCH_KEYWORD + p + ":" + digest
  }

  function EngineMetadataKey(): string {
    NS_ENGINE_METADATA + "global"
  }

  function PrefixForPrincipal(ns: string, p: Principal): string {
    ns + p + ":"
  }

  function SafePrefixForInvalidation(prefix: string): (string, bool) {
    var p := TrimSpace(prefix);
    if p == "" then ("", false) else (p, true)
  }

  predicate HasPrefix(s: string, prefix: string) {
    |prefix| <= |s| && s[..|prefix|] == prefix
  }

  // ---- namespaces

  /** The first characters that tell the namespaces apart. */
  lemma NamespacesDiffer(i: nat, j: nat)
    requires i < j < |NAMESPACES|
    ensures exists k :: 0 <= k < |NAMESPACES[i]| && k < |NAMESPACES[j]| && NAMESPACES[i][k] != NAMESPACES[j][k]
  {
    var a, b := NAMESPACES[i], NAMESPACES[j];
    if i <= 2 && !(i == 1 && j >= 3) {
      assert a[0] != b[0];
    } else if i == 1 {
      assert a[1] != b[1];
    } else {
      assert a[2] != b[2];
    }
  }

  lemma PrefixChar(key: string, prefix: string, k: nat)
    ensures HasPrefix(key, prefix) && k < |prefix| ==> k < |key| && key[k] == prefix[k]
  {
    if HasPrefix(key, prefix) && k < |prefix| {
      assert key[..|prefix|][k] == key[k];
    }
  }

  /** No key lies in two namespaces, so flushing one never touches another. */
  lemma NamespacesDisjoint(i: nat, j: nat, key: string)
    requires i < |NAMESPACES| && j < |NAMESPACES| && i != j && HasPrefix(key, NAMESPACES[i])
    ensures !HasPrefix(key, NAMESPACES[j])
  {
    NamespacesDiffer(if i < j then i else j, if i < j then j else i);
    var a, b := NAMESPACES[i], NAMESPACES[j];
    var k :| 0 <= k < |a| && k < |b| && a[k] != b[k];
    PrefixChar(key, a, k);
    PrefixChar(key, b, k);
  }

  lemma PrefixOfPrincipal(ns: string, p: Principal, u: Principal, rest: string)
    ensures HasPrefix(ns + p + rest, PrefixForPrincipal(ns, u)) <==> p == u && rest != "" && rest[0] == ':'
  {
    var key, prefix := ns + p + rest, PrefixForPrincipal(ns, u);
    assert |prefix| == |ns| + 37 && |key| == |ns| + 36 + |rest|;
    if HasPrefix(key, prefix) {
      assert p == key[|ns|..|ns| + 36] == key[..|prefix|][|ns|..|ns| + 36] == prefix[|ns|..|ns| + 36] == u;
      assert rest[0] == key[|ns| + 36] == key[..|prefix|][|ns| + 36] == prefix[|ns| + 36] == ':';
    }
    if p == u && rest != "" && rest[0] == ':' {
      assert key[..|prefix|] == prefix;
    }
  }

  lemma WrongNamespace(i: nat, j: nat, tail: string, u: Principal)
    requires i < |NAMESPACES| && j < |NAMESPACES| && i != j
    ensures !HasPrefix(NAMESPACES[i] + tail, PrefixForPrincipal(NAMESPACES[j], u))
  {
    var key, prefix := NAMESPACES[i] + tail, PrefixForPrincipal(NAMESPACES[j], u);
    assert HasPrefix(key, NAMESPACES[i]);
    if HasPrefix(key, prefix) {
      assert key[..|NAMESPACES[j]|] == prefix[..|NAMESPACES[j]|] == NAMESPACES[j];
      NamespacesDisjoint(i, j, key);
    }
  }

  /** Dropped by a role grant to u: the two prefixes it deletes. */
  predicate RoleGrantDrops(key: string, u: Principal) {
    HasPrefix(key, PrefixForPrincipal(NS_DOMAINS, u)) || HasPrefix(key, PrefixForPrincipal(NS_EFFECTIVE_ACCESS, u))
  }

  /** Exactly the effective-access entries that u asked for are dropped. Every domains entry stays,
      u's own included, and so does what others asked about u. */
  lemma RoleGrantDropsExactly(u: Principal, p: Principal, t: Principal, digest: string)
    ensures !RoleGrantDrops(DomainsKey(p), u)
    ensures RoleGrantDrops(EffectiveAccessKey(p, t), u) <==> p == u
    ensures !RoleGrantDrops(SearchKeywordKey(p, digest), u)
    ensures !RoleGrantDrops(EngineMetadataKey(), u)
  {
    assert NAMESPACES[0] == NS_DOMAINS && NAMESPACES[1] == NS_EFFECTIVE_ACCESS;
    assert NAMESPACES[2] == NS_SEARCH_KEYWORD && NAMESPACES[3] == NS_ENGINE_METADATA;
    PrefixOfPrincipal(NS_DOMAINS, p, u, "");
    assert DomainsKey(p) == NS_DOMAINS + p + "";
    WrongNamespace(0, 1, p, u);
    PrefixOfPrincipal(NS_EFFECTIVE_ACCESS, p, u, ":" + t);
    assert EffectiveAccessKey(p, t) == NS_EFFECTIVE_ACCESS + p + (":" + t);
    assert EffectiveAccessKey(p, t) == NS_EFFECTIVE_ACCESS + (p + ":" + t);
    WrongNamespace(1, 0, p + ":" + t, u);
    assert SearchKeywordKey(p, digest) == NS_SEARCH_KEYWORD + (p + ":" + digest);
    WrongNamespace(2, 0, p + ":" + digest, u);
    WrongNamespace(2, 1, p + ":" + digest, u);
    WrongNamespace(3, 0, "global", u);
    WrongNamespace(3, 1, "global", u);
  }

  /** Keys carry both principals: different askers or targets never share an entry. */
  lemma KeysScopePrincipals(p: Principal, t: Principal, p': Principal, t': Principal, d: string, d': string)
    ensures DomainsKey(p) == DomainsKey(p') ==> p == p'
    ensures EffectiveAccessKey(p, t) == EffectiveAccessKey(p', t') ==> p == p' && t == t'
    ensures SearchKeywordKey(p, d) == SearchKeywordKey(p', d') ==> p == p' && d == d'
  {
    if DomainsKey(p) == DomainsKey(p') {
      assert DomainsKey(p)[|NS_DOMAINS|..] == p && DomainsKey(p')[|NS_DOMAINS|..] == p';
    }
    if EffectiveAccessKey(p, t) == EffectiveAccessKey(p', t') {
      Fields(NS_EFFECTIVE_ACCESS, p, t);
      Fields(NS_EFFECTIVE_ACCESS, p', t');
    }
    if SearchKeywordKey(p, d) == SearchKeywordKey(p', d') {
      Fields(NS_SEARCH_KEYWORD, p, d);
      Fields(NS_SEARCH_KEYWORD, p', d');
    }
  }

  lemma Fields(ns: string, p: Principal, rest: string)
    ensures var key := ns + p + ":" + rest;
            |key| >= |ns| + 37 && key[|ns|..|ns| + 36] == p && key[|ns| + 37..] == rest
  {}

  // ---- the search preimage

  const NUL: char := '\0'

  /** What is hashed: the query, then each key in order with its filter. */
  function Preimage(query: string, keys: seq<string>, filters: map<string, string>): string
    requires forall k | k in keys :: k in filters
  {
    if keys == [] then query
    else
      var k := keys[|keys| - 1];
      Preimage(query, keys[..|keys| - 1], filters) + [NUL] + k + "=" + filters[k]
  }

  ghost predicate SortedKeys(keys: seq<string>, filters: map<string, string>) {
    StrictlySorted(keys) && forall k :: k in keys <==> k in filters
  }

  /** Collects the keys in whatever order the map yields them, sorts, and writes the preimage. */
  method SearchKeywordPreimage(query: string, filters: map<string, string>)
    returns (bytes: string, keys: seq<string>)
    ensures SortedKeys(keys, filters) && bytes == Preimage(query, keys, filters)
  {
    keys := [];
    var left := filters.Keys;
    while left != {}
      invariant left <= filters.Keys && StrictlySorted(keys)
      invariant forall k :: k in keys <==> k in filters && k !in left
      decreases left
    {
      var k :| k in left;
      keys := InsertKey(keys, k);
      left := left - {k};
    }
    bytes := query;
    for i := 0 to |keys|
      invariant bytes == Preimage(query, keys[..i], filters)
    {
      assert keys[..i + 1][..i] == keys[..i];
      bytes := bytes + [NUL];
      bytes := bytes + keys[i];
      bytes := bytes + "=";
      bytes := bytes + filters[keys[i]];
    }
    assert keys[..|keys|] == keys;
  }

  method InsertKey(keys: seq<string>, k: string) returns (longer: seq<string>)
    requires StrictlySorted(keys) && k !in keys
    ensures StrictlySorted(longer) && forall x :: x in longer <==> x in keys || x == k
  {
    var j := |keys|;
    while j > 0 && Less(k, keys[j - 1])
      invariant 0 <= j <= |keys|
      invariant forall i | j <= i < |keys| :: Less(k, keys[i])
    {
      j := j - 1;
    }
    StrictInsert(keys, k, j);
    longer := keys[..j] + [k] + keys[j..];
  }

  lemma StrictInsert(keys: seq<string>, k: string, j: nat)
    requires StrictlySorted(keys) && k !in keys && j <= |keys|
    requires j > 0 ==> !Less(k, keys[j - 1])
    requires forall i | j <= i < |keys| :: Less(k, keys[i])
    ensures StrictlySorted(keys[..j] + [k] + keys[j..])
    ensures forall x :: x in keys[..j] + [k] + keys[j..] <==> x in keys || x == k
  {
    forall i | 0 <= i < j ensures Less(keys[i], k) {
      LessTotal(k, keys[j - 1]);
      if i < j - 1 {
        LessTransitive(keys[i], keys[j - 1], k);
      }
    }
    assert keys == keys[..j] + keys[j..];
  }

  lemma EmptyOrHas(b: seq<string>)
    ensures b == [] || exists k :: k in b
  {
    if b != [] {
      assert b[0] in b;
    }
  }

  lemma HeadNotInTail(a: seq<string>)
    requires StrictlySorted(a) && a != []
    ensures a[0] !in a[1..]
  {
    LessTotal(a[0], a[0]);
  }

  /** Two strictly sorted listings of the same keys are the same: iteration order does not matter. */
  lemma {:induction false} SortedUnique(a: seq<string>, b: seq<string>)
    requires StrictlySorted(a) && StrictlySorted(b) && forall k :: k in a <==> k in b
    ensures a == b
    decreases |a|
  {
    if a == [] {
      EmptyOrHas(b);
    } else {
      assert a[0] in b && b[0] in a;
      LessTotal(a[0], b[0]);
      var i :| 0 <= i < |b| && b[i] == a[0];
      var j :| 0 <= j < |a| && a[j] == b[0];
      assert a[0] == b[0];
      HeadNotInTail(a);
      HeadNotInTail(b);
      assert a == [a[0]] + a[1..] && b == [b[0]] + b[1..];
      forall k ensures k in a[1..] <==> k in b[1..] {
        assert k in a <==> k == a[0] || k in a[1..];
        assert k in b <==> k == b[0] || k in b[1..];
      }
      SortedUnique(a[1..], b[1..]);
    }
  }

  predicate Free(s: string, c: char) {
    forall i | 0 <= i < |s| :: s[i] != c
  }

  /** NUL-free values and keys, and no '=' in a key. */
  predicate Plain(filters: map<string, string>) {
    forall k | k in filters :: Free(k, NUL) && Free(k, '=') && Free(filters[k], NUL)
  }

  lemma SeparatorIsLast(p: string, c: char, x: string)
    requires Free(x, c)
    ensures var s := p + [c] + x; s[|p|] == c && forall i | |p| < i < |s| :: s[i] != c
  {}

  lemma SeparatorIsFirst(p: string, c: char, x: string)
    requires Free(p, c)
    ensures var s := p + [c] + x; s[|p|] == c && forall i | 0 <= i < |p| :: s[i] != c
  {}

  /** The last separator of a string determines both sides. */
  lemma LastSeparator(a: string, b: string, x: string, y: string, c: char)
    requires a + [c] + x == b + [c] + y && Free(x, c) && Free(y, c)
    ensures a == b && x == y
  {
    SeparatorIsLast(a, c, x);
    SeparatorIsLast(b, c, y);
    SidesOf(a, b, x, y, c);
  }

  /** So does the first. */
  lemma FirstSeparator(a: string, b: string, x: string, y: string, c: char)
    requires a + [c] + x == b + [c] + y && Free(a, c) && Free(b, c)
    ensures a == b && x == y
  {
    SeparatorIsFirst(a, c, x);
    SeparatorIsFirst(b, c, y);
    SidesOf(a, b, x, y, c);
  }

  lemma SidesOf(a: string, b: string, x: string, y: string, c: char)
    requires a + [c] + x == b + [c] + y && |a| == |b|
    ensures a == b && x == y
  {
    var s, t := a + [c] + x, b + [c] + y;
    assert a == s[..|a|] == t[..|a|] == b && x == s[|a| + 1..] == t[|a| + 1..] == y;
  }

  lemma EntryNulFree(k: string, v: string)
    requires Free(k, NUL) && Free(v, NUL)
    ensures Free(k + "=" + v, NUL)
  {}

  lemma {:induction false} PreimageHasNul(query: string, keys: seq<string>, f: map<string, string>)
    requires keys != [] && forall k | k in keys :: k in f
    ensures !Free(Preimage(query, keys, f), NUL)
  {
    var init, k := keys[..|keys| - 1], keys[|keys| - 1];
    assert Preimage(query, keys, f)[|Preimage(query, init, f)|] == NUL;
  }

  /** Equal byte streams come from equal queries and equal filter maps, when nothing holds a NUL
      and no key an '='. */
  lemma {:induction false} PreimageDecodes(
    q: string, keys: seq<string>, f: map<string, string>, q': string, keys': seq<string>, f': map<string, string>)
    requires (forall k | k in keys :: k in f) && (forall k | k in keys' :: k in f')
    requires Free(q, NUL) && Free(q', NUL) && Plain(f) && Plain(f')
    requires Preimage(q, keys, f) == Preimage(q', keys', f')
    ensures q == q' && keys == keys' && forall k | k in keys :: f[k] == f'[k]
    decreases |keys|
  {
    if keys == [] || keys' == [] {
      if keys != [] {
        PreimageHasNul(q, keys, f);
      }
      if keys' != [] {
        PreimageHasNul(q', keys', f');
      }
    } else {
      var init, k := keys[..|keys| - 1], keys[|keys| - 1];
      var init', k' := keys'[..|keys'| - 1], keys'[|keys'| - 1];
      var a, a' := Preimage(q, init, f), Preimage(q', init', f');
      EntryNulFree(k, f[k]);
      EntryNulFree(k', f'[k']);
      assert a + [NUL] + k + "=" + f[k] == a + [NUL] + (k + "=" + f[k]);
      assert a' + [NUL] + k' + "=" + f'[k'] == a' + [NUL] + (k' + "=" + f'[k']);
      LastSeparator(a, a', k + "=" + f[k], k' + "=" + f'[k'], NUL);
      FirstSeparator(k, k', f[k], f'[k'], '=');
      PreimageDecodes(q, init, f, q', init', f');
      assert keys == init + [k] && keys' == init' + [k'];
    }
  }

  /** The whole statement for the filter maps themselves. */
  lemma PreimageInjective(
    q: string, keys: seq<string>, f: map<string, string>, q': string, keys': seq<string>, f': map<string, string>)
    requires SortedKeys(keys, f) && SortedKeys(keys', f')
    requires Free(q, NUL) && Free(q', NUL) && Plain(f) && Plain(f')
    ensures Preimage(q, keys, f) == Preimage(q', keys', f') <==> q == q' && f == f'
  {
    if Preimage(q, keys, f) == Preimage(q', keys', f') {
      PreimageDecodes(q, keys, f, q', keys', f');
      assert f.Keys == f'.Keys;
    }
    if q == q' && f == f' {
      SortedUnique(keys, keys');
    }
  }

  /** A query may carry what looks like a filter. */
  lemma NulInQueryCollides(q: string, k: string, v: string)
    ensures Preimage(q + [NUL] + k + "=" + v, [], map[]) == Preimage(q, [k], map[k := v])
  {
    assert [k][..0] == [];
  }

  /** No other query and filters are written as the same bytes. */
  ghost predicate Decodable(q: string, keys: seq<string>, f: map<string, string>)
    requires SortedKeys(keys, f)
  {
    forall q', keys', f' |
      SortedKeys(keys', f') && Preimage(q', keys', f') == Preimage(q, keys, f) :: q' == q && f' == f
  }

  /** A NUL and, somewhere after it, an '='. */
  predicate LooksFiltered(q: string) {
    exists i, j :: 0 <= i < j < |q| && q[i] == NUL && q[j] == '='
  }

  lemma FilteredLooksFiltered(q: string, keys: seq<string>, f: map<string, string>)
    requires keys != [] && forall k | k in keys :: k in f
    ensures LooksFiltered(Preimage(q, keys, f))
  {
    var k := keys[|keys| - 1];
    var init := Preimage(q, keys[..|keys| - 1], f);
    var s := Preimage(q, keys, f);
    assert s == init + [NUL] + k + "=" + f[k];
    assert s[|init|] == NUL && s[|init| + 1 + |k|] == '=';
  }

  lemma NoKeys(keys: seq<string>, f: map<string, string>)
    requires SortedKeys(keys, f)
    ensures keys == [] <==> f == map[]
  {
    EmptyOrHas(keys);
    assert f == map[] <==> f.Keys == {};
  }

  lemma SplitAtFilter(q: string, i: nat, j: nat)
    requires i < j < |q| && q[i] == NUL && q[j] == '='
    ensures q == q[..i] + [NUL] + q[i + 1..j] + "=" + q[j + 1..]
  {}

  /** Exactly when no other input gives the same bytes: there are no filters, and the query does
      not look as if there were. With filters there is always another input, the bytes as a query. */
  lemma DecodableIff(q: string, keys: seq<string>, f: map<string, string>)
    requires SortedKeys(keys, f)
    ensures Decodable(q, keys, f) <==> f == map[] && !LooksFiltered(q)
  {
    NoKeys(keys, f);
    var bytes := Preimage(q, keys, f);
    assert SortedKeys([], map[]) && Preimage(bytes, [], map[]) == bytes;
    if f == map[] && LooksFiltered(q) {
      var i, j :| 0 <= i < j < |q| && q[i] == NUL && q[j] == '=';
      var k, v := q[i + 1..j], q[j + 1..];
      SplitAtFilter(q, i, j);
      NulInQueryCollides(q[..i], k, v);
      assert SortedKeys([k], map[k := v]) && Preimage(q[..i], [k], map[k := v]) == bytes;
    }
    if f == map[] && !LooksFiltered(q) {
      forall q', keys', f' | SortedKeys(keys', f') && Preimage(q', keys', f') == bytes ensures q' == q && f' == f {
        NoKeys(keys', f');
        if keys' != [] {
          FilteredLooksFiltered(q', keys', f');
        }
      }
    }
  }

  // ---- the keys of the search route

  /** The filters the search route always passes, in order. */
  const ROUTE_KEYS: seq<string> :=
    ["approval_status", "domain_id", "expand_relations", "freshness_status", "lifecycle_state",
     "owner_id", "q", "truth_mode", "type"]

  lemma SortedCons(a: string, s: seq<string>)
    requires StrictlySorted(s) && (s == [] || Less(a, s[0]))
    ensures StrictlySorted([a] + s)
  {
    forall j | 0 <= j < |s| ensures Less(a, s[j]) {
      if j > 0 {
        LessTransitive(a, s[0], s[j]);
      }
    }
  }

  lemma {:induction false} RouteTail(i: nat)
    requires i < |ROUTE_KEYS|
    ensures StrictlySorted(ROUTE_KEYS[i..])
    decreases |ROUTE_KEYS| - i
  {
    if i < |ROUTE_KEYS| - 1 {
      RouteTail(i + 1);
      assert Less("truth_mode"[1..], "type"[1..]);
      assert ROUTE_KEYS[i..] == [ROUTE_KEYS[i]] + ROUTE_KEYS[i + 1..];
      SortedCons(ROUTE_KEYS[i], ROUTE_KEYS[i + 1..]);
    }
  }

  lemma {:induction false} PreimageAppend(q: string, a: seq<string>, b: seq<string>, f: map<string, string>)
    requires forall k | k in a + b :: k in f
    ensures (forall k | k in a :: k in f) && (forall k | k in b :: k in f)
    ensures Preimage(q, a + b, f) == Preimage(Preimage(q, a, f), b, f)
    decreases |b|
  {
    assert forall k | k in a :: k in a + b;
    assert forall k | k in b :: k in a + b;
    if b == [] {
      assert a + b == a;
    } else {
      var init, k := b[..|b| - 1], b[|b| - 1];
      assert (a + b)[..|a + b| - 1] == a + init && (a + b)[|a + b| - 1] == k;
      PreimageAppend(q, a, init, f);
    }
  }

  lemma {:induction false} SameFilters(q: string, keys: seq<string>, f: map<string, string>, g: map<string, string>)
    requires forall k | k in keys :: k in f && k in g && f[k] == g[k]
    ensures Preimage(q, keys, f) == Preimage(q, keys, g)
    decreases |keys|
  {
    if keys != [] {
      SameFilters(q, keys[..|keys| - 1], f, g);
    }
  }

  /** One filter's value runs over into the next. */
  function Shifted(f: map<string, string>, a: string, b: string, x: string, y: string): map<string, string> {
    f[a := x][b := y]
  }

  lemma TwoFilters(q: string, a: string, b: string, f: map<string, string>)
    requires a in f && b in f
    ensures Preimage(q, [a, b], f) == q + [NUL] + a + "=" + f[a] + [NUL] + b + "=" + f[b]
  {
    assert [a, b][..1] == [a] && [a][..0] == [];
    assert Preimage(q, [a], f) == Preimage(q, [], f) + [NUL] + a + "=" + f[a];
  }

  lemma RunOver(s: string, x: string, m: string, y: string, z: string)
    ensures s + (x + m + y) + m + z == s + x + m + (y + m + z)
  {}

  lemma TwoCollide(q: string, a: string, b: string, f: map<string, string>, x: string, y: string, z: string)
    requires a != b
    ensures var m := [NUL] + b + "=";
            Preimage(q, [a, b], Shifted(f, a, b, x + m + y, z)) == Preimage(q, [a, b], Shifted(f, a, b, x, y + m + z))
  {
    var m := [NUL] + b + "=";
    TwoFilters(q, a, b, Shifted(f, a, b, x + m + y, z));
    TwoFilters(q, a, b, Shifted(f, a, b, x, y + m + z));
    var s := q + [NUL] + a + "=";
    RunOver(s, x, m, y, z);
    assert s + (x + m + y) + [NUL] + b + "=" + z == s + (x + m + y) + m + z;
    assert s + x + [NUL] + b + "=" + (y + m + z) == s + x + m + (y + m + z);
  }

  /** For any fixed set of keys, a separator inside the first value is read either way. */
  lemma AdjacentCollide(
    q: string, a: string, b: string, rest: seq<string>, f: map<string, string>, x: string, y: string, z: string)
    requires a != b && a !in rest && b !in rest && forall k | k in rest :: k in f
    ensures var m := [NUL] + b + "=";
            var g, h := Shifted(f, a, b, x + m + y, z), Shifted(f, a, b, x, y + m + z);
            && g != h && Preimage(q, [a, b] + rest, g) == Preimage(q, [a, b] + rest, h)
  {
    var m := [NUL] + b + "=";
    var g, h := Shifted(f, a, b, x + m + y, z), Shifted(f, a, b, x, y + m + z);
    assert |g[b]| < |h[b]|;
    PreimageAppend(q, [a, b], rest, g);
    PreimageAppend(q, [a, b], rest, h);
    TwoCollide(q, a, b, f, x, y, z);
    SameFilters(Preimage(q, [a, b], g), rest, g, h);
  }

  lemma SortedHeads(a: string, b: string, rest: seq<string>)
    requires StrictlySorted([a, b] + rest)
    ensures a != b && a !in rest && b !in rest
  {
    var s := [a, b] + rest;
    assert s[0] == a && s[1] == b && forall i | 0 <= i < |rest| :: s[i + 2] == rest[i];
    LessTotal(a, a);
    LessTotal(b, b);
    assert Less(s[0], s[1]);
    forall i | 0 <= i < |rest| ensures rest[i] != a && rest[i] != b {
      assert Less(s[0], s[i + 2]) && Less(s[1], s[i + 2]);
    }
  }

  /** Two searches of the route with different filters share a key, whatever their other values. */
  lemma RouteCollides(q: string, f: map<string, string>, x: string, y: string, z: string)
    requires f.Keys == set k | k in ROUTE_KEYS
    ensures var a, b := "approval_status", "domain_id";
            var m := [NUL] + b + "=";
            var g, h := Shifted(f, a, b, x + m + y, z), Shifted(f, a, b, x, y + m + z);
            && SortedKeys(ROUTE_KEYS, g) && SortedKeys(ROUTE_KEYS, h)
            && g != h && g["q"] == h["q"] == f["q"] && Preimage(q, ROUTE_KEYS, g) == Preimage(q, ROUTE_KEYS, h)
  {
    var a, b, rest := "approval_status", "domain_id", ROUTE_KEYS[2..];
    RouteTail(0);
    assert ROUTE_KEYS[0..] == ROUTE_KEYS == [a, b] + rest;
    SortedHeads(a, b, rest);
    assert a == ROUTE_KEYS[0] && b == ROUTE_KEYS[1] && "q" == ROUTE_KEYS[6];
    AdjacentCollide(q, a, b, rest, f, x, y, z);
  }
}
