/**
 * The search result cache (`SearchCacheService`): a dictionary from the lower-cased
 * search term to the results of that search and the time they were stored. Times are
 * integers in milliseconds.
 */
module SearchCache {
  import opened Wrappers
  import Text
  import opened SearchResults

  /** Entries older than this are expired. */
  const ExpiryWindow := 5 * 60 * 1000

  datatype CachedSearchResult = CachedSearchResult(results: seq<SearchResult>, createdAt: int)

  /** An entry is expired only when strictly more than five minutes old. */
  predicate IsExpired(e: CachedSearchResult, now: int): (b: bool)
    ensures now <= e.createdAt ==> !b
    ensures b ==> now > e.createdAt + ExpiryWindow
  {
    now - e.createdAt > ExpiryWindow
  }

  /**
   * The dictionary key of a term: as long as the term, blank exactly when the term is,
   * and already lower-case, so keying a key changes nothing.
   */
  function Key(term: string): (k: string)
    ensures |k| == |term|
    ensures Text.IsNullOrWhiteSpace(k) <==> Text.IsNullOrWhiteSpace(term)
    ensures Text.Lower(k) == k
  {
    var k := Text.Lower(term);
    LowerKeepsBlank(term);
    assert forall i | 0 <= i < |k| :: Text.LowerChar(k[i]) == k[i];
    k
  }

  /**
   * What `GetCachedSearchAsync` answers without calling the search function: an empty
   * list for a blank term, the stored results for a present unexpired entry; `None`
   * when the search function has to be called.
   */
  function Lookup(entries: map<string, CachedSearchResult>, term: string, now: int): (r: Option<seq<SearchResult>>)
    ensures Text.IsNullOrWhiteSpace(term) ==> r == Some([])
    ensures !Text.IsNullOrWhiteSpace(term) ==>
      (r.Some? <==> Key(term) in entries && !IsExpired(entries[Key(term)], now))
    ensures !Text.IsNullOrWhiteSpace(term) && r.Some? ==> r.value == entries[Key(term)].results
  {
    if Text.IsNullOrWhiteSpace(term) then Some([])
    else if Key(term) in entries && !IsExpired(entries[Key(term)], now) then Some(entries[Key(term)].results)
    else None
  }

  /** `TryAdd`: stores the entry only when the key is absent. */
  function TryAdd(entries: map<string, CachedSearchResult>, key: string, e: CachedSearchResult): (m: map<string, CachedSearchResult>)
    ensures key in entries ==> m == entries
    ensures key !in entries ==> m.Keys == entries.Keys + {key} && m[key] == e
    ensures forall k | k in entries :: k in m && m[k] == entries[k]
  {
    if key in entries then entries else entries[key := e]
  }

  /** The entries that are not expired at `now`. */
  function Unexpired(entries: map<string, CachedSearchResult>, now: int): (m: map<string, CachedSearchResult>)
    ensures forall k :: k in m <==> k in entries && !IsExpired(entries[k], now)
    ensures forall k | k in m :: m[k] == entries[k]
  {
    map k | k in entries && !IsExpired(entries[k], now) :: entries[k]
  }

  /** Blank-ness does not depend on letter case. */
  lemma LowerKeepsBlank(s: string)
    ensures Text.IsNullOrWhiteSpace(Text.Lower(s)) <==> Text.IsNullOrWhiteSpace(s)
  {
    assert forall i | 0 <= i < |s| :: Text.Lower(s)[i] == Text.LowerChar(s[i]);
  }

  /** Terms that differ only in letter case share one entry and get the same answer. */
  lemma CaseInsensitiveLookup(entries: map<string, CachedSearchResult>, a: string, b: string, now: int)
    requires Key(a) == Key(b)
    ensures Lookup(entries, a, now) == Lookup(entries, b, now)
  {
    LowerKeepsBlank(a);
    LowerKeepsBlank(b);
  }

  /** An entry stored at `t` is still served at exactly `t` + 5 minutes, and expired one millisecond later. */
  lemma ExpiryBoundary(e: CachedSearchResult)
    ensures !IsExpired(e, e.createdAt + ExpiryWindow)
    ensures IsExpired(e, e.createdAt + ExpiryWindow + 1)
  {
  }

  /**
   * After a miss for a key with no entry, the found results are stored, and a later
   * lookup of the same term within five minutes of storing gets them back.
   */
  lemma StoredIsServed(entries: map<string, CachedSearchResult>, term: string, found: seq<SearchResult>, stored: int, later: int)
    requires !Text.IsNullOrWhiteSpace(term) && Key(term) !in entries
    requires stored <= later <= stored + ExpiryWindow
    ensures Lookup(TryAdd(entries, Key(term), CachedSearchResult(found, stored)), term, later) == Some(found)
  {
  }

  /**
   * An expired entry is not replaced by a new search: the stale entry stays, so the
   * term keeps missing until the entry is swept or invalidated.
   */
  lemma ExpiredEntryKeepsMissing(entries: map<string, CachedSearchResult>, term: string, found: seq<SearchResult>, stored: int, now: int)
    requires !Text.IsNullOrWhiteSpace(term) && Key(term) in entries && IsExpired(entries[Key(term)], now)
    ensures TryAdd(entries, Key(term), CachedSearchResult(found, stored)) == entries
    ensures Lookup(entries, term, now) == None
  {
  }

  /** The sweep at `now` changes no answer given at `now` or later. */
  lemma SweepKeepsAnswers(entries: map<string, CachedSearchResult>, term: string, now: int, later: int)
    requires now <= later
    ensures Lookup(Unexpired(entries, now), term, later) == Lookup(entries, term, later)
  {
  }

  class Cache {
    var entries: map<string, CachedSearchResult>

    constructor ()
      ensures entries == map[]
    {
      entries := map[];
    }

    /**
     * `GetCachedSearchAsync`, called at `now`; `found` is what the search function
     * returns when it is called, finishing at `finishedAt`. The search is called
     * exactly on a miss, its result is returned, and it is stored only when no entry
     * (not even an expired one) exists for the key.
     */
    method GetCachedSearch(term: string, now: int, found: seq<SearchResult>, finishedAt: int)
      returns (r: seq<SearchResult>, searched: bool)
      modifies this
      ensures searched <==> Lookup(old(entries), term, now).None?
      ensures r == if searched then found else Lookup(old(entries), term, now).value
      ensures entries == if searched then TryAdd(old(entries), Key(term), CachedSearchResult(found, finishedAt))
                         else old(entries)
    {
      if Text.IsNullOrWhiteSpace(term) {
        return [], false;
      }
      var key := Text.Lower(term);
      if key in entries && !IsExpired(entries[key], now) {
        return entries[key].results, false;
      }
      if key !in entries {
        entries := entries[key := CachedSearchResult(found, finishedAt)];
      }
      return found, true;
    }

    /** `InvalidateCache()`: forgets every entry. */
    method InvalidateAll()
      modifies this
      ensures entries == map[]
    {
      entries := map[];
    }

    /** `InvalidateCache(term)`: forgets the entry of that term; a blank term changes nothing. */
    method Invalidate(term: string)
      modifies this
      ensures entries == if Text.IsNullOrWhiteSpace(term) then old(entries) else old(entries) - {Key(term)}
    {
      if !Text.IsNullOrWhiteSpace(term) {
        var key := Text.Lower(term);
        entries := entries - {key};
      }
    }

    /**
     * The expiry sweep: collects the keys of the expired entries, then removes them.
     * Exactly the expired entries go; every other entry is untouched.
     */
    method CleanupExpiredEntries(now: int)
      modifies this
      ensures entries == Unexpired(old(entries), now)
    {
      var expiredKeys: seq<string> := [];
      var toVisit := entries.Keys;
      while toVisit != {}
        invariant toVisit <= entries.Keys && entries == old(entries)
        invariant forall k :: k in expiredKeys <==> k in entries && k !in toVisit && IsExpired(entries[k], now)
        decreases toVisit
      {
        var k :| k in toVisit;
        if IsExpired(entries[k], now) {
          expiredKeys := expiredKeys + [k];
        }
        toVisit := toVisit - {k};
      }
      var i := 0;
      while i < |expiredKeys|
        invariant 0 <= i <= |expiredKeys|
        invariant entries == old(entries) - set j | 0 <= j < i :: expiredKeys[j]
      {
        entries := entries - {expiredKeys[i]};
        i := i + 1;
      }
      assert (set j | 0 <= j < |expiredKeys| :: expiredKeys[j]) == set k | k in expiredKeys;
    }
  }
}
