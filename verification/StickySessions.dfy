/** Sticky sessions: bindings of session keys to accounts that expire and are evicted when old. */
module StickySessions {
  import opened Text
  import opened Sets

  type Id = nat

  datatype StickyEntry = StickyEntry(account: Id, expiresAt: int, lastUsedAt: int)

  type Sessions = map<string, StickyEntry>

  /** The sessions that are still alive. */
  function Pruned(sticky: Sessions, now: int): Sessions {
    map k | k in sticky && sticky[k].expiresAt > now :: sticky[k]
  }

  /** The account a session is bound to and has not outlived. */
  function Bound(sticky: Sessions, key: string, now: int): Option<Id> {
    if key in sticky && sticky[key].expiresAt > now then Some(sticky[key].account) else None
  }

  /** Accounts that other live sessions are bound to. */
  function Conflicts(sticky: Sessions, key: string, now: int): set<Id> {
    set k | k in sticky && sticky[k].expiresAt > now && k != key :: sticky[k].account
  }

  /** A binding made or extended now. */
  function NewBinding(id: Id, now: int, ttl: int): StickyEntry { StickyEntry(id, now + ttl, now) }

  /** Expired sessions dropped and the given one, if alive, extended. */
  function Touched(sticky: Sessions, key: string, now: int, ttl: int): Sessions {
    var live := Pruned(sticky, now);
    if key in live then live[key := NewBinding(live[key].account, now, ttl)] else live
  }

  predicate BoundWithin(sticky: Sessions, valid: set<Id>) {
    forall k :: k in sticky ==> sticky[k].account in valid
  }

  /** The sessions that survive when only the given accounts remain. */
  function BoundTo(sticky: Sessions, valid: set<Id>): (kept: Sessions)
    ensures BoundWithin(kept, valid) && |kept| <= |sticky|
    ensures forall k :: k in kept <==> k in sticky && sticky[k].account in valid
  {
    var kept := map k | k in sticky && sticky[k].account in valid :: sticky[k];
    SubmapSize(kept, sticky);
    kept
  }

  /** The sessions that survive when an account goes. */
  function Unbound(sticky: Sessions, id: Id): Sessions {
    map k | k in sticky && sticky[k].account != id :: sticky[k]
  }

  lemma BoundToIsFixed(sticky: Sessions, valid: set<Id>)
    requires BoundWithin(sticky, valid)
    ensures BoundTo(sticky, valid) == sticky
  {
  }

  lemma BoundToDropsOne(sticky: Sessions, valid: set<Id>, id: Id)
    requires BoundWithin(sticky, valid)
    ensures BoundTo(sticky, valid - {id}) == Unbound(sticky, id)
  {
  }

  lemma TouchedOrDropped(sticky: Sessions, key: string, now: int, ttl: int)
    ensures Touched(sticky, key, now, ttl) - {key} == Pruned(sticky, now) - {key}
    ensures var bound := Bound(sticky, key, now);
            Touched(sticky, key, now, ttl)
            == if bound.Some? then Pruned(sticky, now)[key := NewBinding(bound.value, now, ttl)]
               else Pruned(sticky, now) - {key}
  {
  }

  lemma PrunedAgain(sticky: Sessions, key: string, now: int)
    ensures Pruned(Pruned(sticky, now) - {key}, now) == Pruned(sticky, now) - {key}
    ensures Conflicts(Pruned(sticky, now) - {key}, key, now) == Conflicts(sticky, key, now)
  {
    var live := Pruned(sticky, now) - {key};
    forall id | id in Conflicts(sticky, key, now) ensures id in Conflicts(live, key, now) {
      var k :| k in sticky && sticky[k].expiresAt > now && k != key && sticky[k].account == id;
      assert k in live && live[k] == sticky[k];
    }
  }

  /** What stays bound to accounts of the pool when entries go or one is touched. */
  lemma TouchedIsSound(sticky: Sessions, key: string, now: int, ttl: int, valid: set<Id>)
    requires BoundWithin(sticky, valid)
    ensures var next := Touched(sticky, key, now, ttl);
            && BoundWithin(next, valid) && |next| <= |sticky|
            && BoundWithin(next - {key}, valid) && |next - {key}| <= |sticky|
  {
    var next := Touched(sticky, key, now, ttl);
    SubmapSize(next, sticky);
    SubmapSize(next - {key}, sticky);
  }

  // ---------------------------------------------------------------------------------------------
  // Eviction.
  // ---------------------------------------------------------------------------------------------

  ghost predicate Oldest(items: Sessions, k: string) {
    k in items && forall j :: j in items ==> items[k].lastUsedAt <= items[j].lastUsedAt
  }

  lemma {:induction false} OldestExists(items: Sessions)
    requires items != map[]
    ensures exists k :: Oldest(items, k)
    decreases |items|
  {
    var x :| x in items;
    var rest := items - {x};
    assert forall j :: j in items ==> j == x || j in rest;
    if rest == map[] {
      assert Oldest(items, x);
    } else {
      assert |rest| < |items| by { assert rest.Keys == items.Keys - {x}; }
      OldestExists(rest);
      var k :| Oldest(rest, k);
      assert Oldest(items, if items[x].lastUsedAt <= items[k].lastUsedAt then x else k);
    }
  }

  /** Entries may have been evicted, least recently used first, but only to get below the capacity. */
  ghost predicate Evicted(items: Sessions, kept: Sessions, max: nat) {
    && (forall k :: k in kept ==> k in items && kept[k] == items[k])
    && (forall k, j :: k in kept && j in items && j !in kept ==> items[j].lastUsedAt <= items[k].lastUsedAt)
    && (|items| < max ==> kept == items)
    && (|items| >= max ==> |kept| >= max - 1)
  }

  lemma EvictOldest(items: Sessions, kept: Sessions, max: nat, k: string)
    requires Evicted(items, kept, max) && |kept| >= max && Oldest(kept, k)
    ensures Evicted(items, kept - {k}, max) && |kept - {k}| == |kept| - 1
  {
    assert (kept - {k}).Keys == kept.Keys - {k};
  }

  /** `enforce_sticky_capacity`: evict least recently used entries until there is room for one more. */
  method EnforceCapacity(items: Sessions, max: nat) returns (kept: Sessions)
    requires max >= 1
    ensures Evicted(items, kept, max) && |kept| < max
  {
    kept := items;
    while |kept| >= max
      invariant Evicted(items, kept, max)
      decreases |kept|
    {
      OldestExists(kept);
      var k :| k in kept && forall j :: j in kept ==> kept[k].lastUsedAt <= kept[j].lastUsedAt;
      EvictOldest(items, kept, max, k);
      kept := kept - {k};
    }
  }

  /**
   * The new entry is there, every other entry was there before and is unchanged, nothing is evicted
   * while there is room, no more than needed otherwise, and whatever is evicted was used no later than
   * whatever stays.
   */
  ghost predicate LruInsert(live: Sessions, after: Sessions, key: string, entry: StickyEntry, max: nat) {
    && key in after && after[key] == entry && |after| <= max
    && (forall k :: k in after && k != key ==> k in live && after[k] == live[k])
    && (forall k, j :: k in after && k != key && j in live && j !in after ==>
          live[j].lastUsedAt <= live[k].lastUsedAt)
    && (|live| < max ==> after == live[key := entry])
    && (|live| >= max ==> |after| >= max - 1) && (|live| >= max && key !in live ==> |after| == max)
  }

  lemma InsertSize(kept: Sessions, key: string, entry: StickyEntry)
    ensures |kept[key := entry]| == |kept| + if key in kept then 0 else 1
  {
    assert kept[key := entry].Keys == kept.Keys + {key};
  }

  lemma OlderStayGone(live: Sessions, kept: Sessions, key: string, entry: StickyEntry, max: nat, k: string, j: string)
    requires Evicted(live, kept, max)
    requires k in kept[key := entry] && k != key && j in live && j !in kept[key := entry]
    ensures k in kept && live[j].lastUsedAt <= live[k].lastUsedAt
  {
    assert k in kept && j !in kept;
  }

  lemma EvictThenInsert(live: Sessions, kept: Sessions, key: string, entry: StickyEntry, max: nat)
    requires Evicted(live, kept, max) && |kept| < max
    ensures LruInsert(live, kept[key := entry], key, entry, max)
  {
    var after := kept[key := entry];
    InsertSize(kept, key, entry);
    forall k, j | k in after && k != key && j in live && j !in after
      ensures k in live && live[j].lastUsedAt <= live[k].lastUsedAt
    {
      OlderStayGone(live, kept, key, entry, max, k, j);
    }
  }

  /** The other sessions that are gone. */
  function Lost(live: Sessions, after: Sessions, key: string): set<string> {
    set k | k in live && k != key && k !in after
  }

  lemma LostOfOthers(live: Sessions, after: Sessions, key: string)
    ensures Lost(live, after, key) == Lost(live - {key}, after, key)
    ensures live.Keys - {key} <= after.Keys ==> Lost(live, after, key) == {}
  {
  }

  lemma InsertEvictsOldest(
    live: Sessions, after: Sessions, key: string, entry: StickyEntry, max: nat, lost: string, kept: string)
    requires LruInsert(live, after, key, entry, max)
    requires lost in live && lost !in after && kept in after && kept != key
    ensures kept in live && live[lost].lastUsedAt <= live[kept].lastUsedAt
  {
  }

  /** At most one session makes room for another. */
  lemma InsertEvictsAtMostOne(live: Sessions, after: Sessions, key: string, entry: StickyEntry, max: nat)
    requires LruInsert(live, after, key, entry, max) && |live| <= max
    ensures |Lost(live, after, key)| <= 1
  {
    var others, kept := live.Keys - {key}, after.Keys - {key};
    if |live| < max {
      assert Lost(live, after, key) == {};
    } else {
      assert kept <= others && Lost(live, after, key) == others - kept;
      assert |others - kept| == |others| - |kept|;
    }
  }

  lemma InsertIsSound(live: Sessions, after: Sessions, key: string, entry: StickyEntry, max: nat, valid: set<Id>)
    requires LruInsert(live, after, key, entry, max) && BoundWithin(live, valid) && entry.account in valid
    ensures BoundWithin(after, valid)
  {
  }

  /** The sessions after a pick for a session without a usable binding. */
  ghost predicate Rebound(live: Sessions, after: Sessions, key: string, id: Option<Id>, now: int, ttl: int, max: nat) {
    if id.None? then after == live else LruInsert(live, after, key, NewBinding(id.value, now, ttl), max)
  }
}
