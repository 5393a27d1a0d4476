/**
 * The result cache: an insertion-ordered map from fingerprint to findings,
 * holding at most 20 entries and evicting the oldest-inserted key first.
 */
module AnalysisCache {
  import opened Wrappers
  import opened Editor

  /** `MAX_CACHE_ITEMS`. */
  const MaxCacheItems := 20

  /** The keys in insertion order, and the entries. */
  datatype Cache = Cache(keys: seq<string>, entries: map<string, seq<Analysis>>)

  const Empty := Cache([], map[])

  predicate NoDuplicates(s: seq<string>)
  {
    forall i, j :: 0 <= i < j < |s| ==> s[i] != s[j]
  }

  /** The key order lists each entry exactly once, and the capacity is respected. */
  predicate Valid(c: Cache)
  {
    && NoDuplicates(c.keys)
    && c.entries.Keys == (set k | k in c.keys)
    && |c.keys| <= MaxCacheItems
  }

  /** `analysisCache.current[key]`, whose truthiness decides a hit. */
  function Lookup(c: Cache, key: string): (r: Option<seq<Analysis>>)
    ensures r.Some? <==> key in c.entries
    ensures r.Some? ==> r.value == c.entries[key]
  {
    if key in c.entries then Some(c.entries[key]) else None
  }

  /** The members every plain object inherits from `Object.prototype`. */
  const InheritedNames: set<string> := {
    "constructor", "hasOwnProperty", "isPrototypeOf", "propertyIsEnumerable",
    "toString", "toLocaleString", "valueOf", "__proto__",
    "__defineGetter__", "__defineSetter__", "__lookupGetter__", "__lookupSetter__"}

  /** What a property read on the cache object yields. */
  datatype Member = Own(findings: seq<Analysis>) | Inherited(name: string)

  /**
   * The lookup as the hook writes it, `analysisCache.current[key]` on a
   * plain object: besides the stored entries it finds the inherited
   * members, which are functions or objects and therefore truthy.
   */
  function LookupAsWritten(c: Cache, key: string): (r: Option<Member>)
    ensures r.Some? <==> key in c.entries || key in InheritedNames
    ensures key in c.entries ==> r == Some(Own(c.entries[key]))
  {
    if key in c.entries then Some(Own(c.entries[key]))
    else if key in InheritedNames then Some(Inherited(key))
    else None
  }

  /**
   * An inherited name is a hit on an empty cache as written, and not one for
   * the own-entry lookup the rest of the model uses.
   */
  lemma InheritedNameHit(key: string)
    requires key in InheritedNames
    ensures LookupAsWritten(Empty, key) == Some(Inherited(key))
    ensures Lookup(Empty, key) == None
  {
  }

  /** Removes the oldest key (`Object.keys(...)[0]`) and its entry. */
  function EvictOldest(c: Cache): (r: Cache)
    requires c.keys != []
    ensures r.entries.Keys == c.entries.Keys - {c.keys[0]}
    ensures forall k :: k in r.entries ==> r.entries[k] == c.entries[k]
    ensures |r.keys| == |c.keys| - 1 && forall i :: 0 <= i < |r.keys| ==> r.keys[i] == c.keys[i + 1]
  {
    Cache(c.keys[1..], c.entries - {c.keys[0]})
  }

  /**
   * The cache update of a completed analysis: when the cache already holds
   * `MaxCacheItems` keys the oldest goes first; then the key is assigned,
   * which appends it unless it is already present.
   */
  function Put(c: Cache, key: string, value: seq<Analysis>): (r: Cache)
    ensures key in r.entries && r.entries[key] == value
    ensures r.entries.Keys <= c.entries.Keys + {key}
    ensures |c.keys| < MaxCacheItems ==> forall k :: k in c.entries ==> k in r.entries
    ensures |c.keys| >= MaxCacheItems && c.keys[0] != key ==> c.keys[0] !in r.entries
    ensures forall k :: k in r.entries && k != key ==> r.entries[k] == c.entries[k]
  {
    var d := if |c.keys| >= MaxCacheItems then EvictOldest(c) else c;
    Cache(if key in d.entries then d.keys else d.keys + [key], d.entries[key := value])
  }

  lemma EvictValid(c: Cache)
    requires Valid(c) && c.keys != []
    ensures Valid(EvictOldest(c))
    ensures |EvictOldest(c).keys| == |c.keys| - 1
  {
    var r := EvictOldest(c);
    forall i, j | 0 <= i < j < |r.keys| ensures r.keys[i] != r.keys[j] {
      assert r.keys[i] == c.keys[i + 1] && r.keys[j] == c.keys[j + 1];
    }
    forall k | k in r.keys ensures k in r.entries {
      var i :| 0 <= i < |r.keys| && r.keys[i] == k;
      assert c.keys[i + 1] == k;
      assert c.keys[0] != k;
    }
    forall k | k in r.entries ensures k in r.keys {
      var i :| 0 <= i < |c.keys| && c.keys[i] == k;
      assert r.keys[i - 1] == k;
    }
  }

  /** An update keeps the cache well formed and within its capacity. */
  lemma PutValid(c: Cache, key: string, value: seq<Analysis>)
    requires Valid(c)
    ensures Valid(Put(c, key, value))
  {
    var d := if |c.keys| >= MaxCacheItems then EvictOldest(c) else c;
    if |c.keys| >= MaxCacheItems { EvictValid(c); }
    assert Valid(d) && |d.keys| < MaxCacheItems;
    if key !in d.entries {
      var ks := d.keys + [key];
      forall i, j | 0 <= i < j < |ks| ensures ks[i] != ks[j] {
        if j == |ks| - 1 { assert ks[i] in d.keys; }
      }
    }
  }

  /** After an update the key maps to the new findings. */
  lemma PutLookup(c: Cache, key: string, value: seq<Analysis>)
    ensures Lookup(Put(c, key, value), key) == Some(value)
  {
  }

  /**
   * Inserting a fresh key: below capacity it is appended; at capacity the
   * oldest key goes and the new one is appended, so the order is FIFO and
   * exactly one key is evicted. Every other entry is kept.
   */
  lemma PutFresh(c: Cache, key: string, value: seq<Analysis>)
    requires Valid(c) && key !in c.entries
    ensures |c.keys| < MaxCacheItems ==> Put(c, key, value).keys == c.keys + [key]
    ensures |c.keys| == MaxCacheItems ==> Put(c, key, value).keys == c.keys[1..] + [key]
    ensures forall k :: k in c.entries && (|c.keys| < MaxCacheItems || k != c.keys[0]) ==>
      Lookup(Put(c, key, value), k) == Lookup(c, k)
  {
  }
}
