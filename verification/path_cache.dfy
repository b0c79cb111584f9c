/**
 * The path memo: search results keyed by endpoints and options, kept for 100 ticks, checked
 * against per-room structure hashes that are themselves refreshed at most every 50 ticks, bounded
 * to 1000 entries by evicting the 200 oldest, and invalidated room by room.
 */
module PathCache {
  import opened Common
  import opened Strings
  import opened World

  const CACHE_EXPIRATION_TICKS: int := 100
  const MAX_CACHE_SIZE: nat := 1000
  const STRUCTURE_CHECK_INTERVAL: int := 50
  /** `Math.floor(MAX_CACHE_SIZE * 0.2)`. */
  const EVICTION_COUNT: nat := 200

  /** What `PathFinder.search` answers. */
  datatype SearchResult = SearchResult(path: seq<Pos>, incomplete: bool)

  /** A stored search. `structureHash` is absent only on the error fallback, which is not modelled. */
  datatype CachedSearchResult = CachedSearchResult(path: seq<Pos>, incomplete: bool, time: int, structureHash: Option<string>)

  datatype RoomStructureRecord = RoomStructureRecord(hash: string, lastUpdated: int)

  /** The answer of a structure check together with the structure records it leaves behind. */
  datatype Checked = Checked(ok: bool, rooms: map<string, RoomStructureRecord>)

  // ---------------------------------------------------------------------------------------------
  // Keys and hashes

  /** The memo key: origin and destination as `room:x,y`, then the serialised options. */
  function CacheKey(origin: Pos, dest: Pos, opts: string): string
  {
    origin.roomName + ":" + NatToString(origin.x) + "," + NatToString(origin.y) + "-"
    + dest.roomName + ":" + NatToString(dest.x) + "," + NatToString(dest.y) + "-" + opts
  }

  /** `type:x,y` for one structure. */
  function Descriptor(s: Structure): string
  {
    TypeName(s.stype) + ":" + NatToString(s.pos.x) + "," + NatToString(s.pos.y)
  }

  function Descriptors(ss: seq<Structure>): (ds: seq<string>)
    ensures |ds| == |ss|
  {
    MapSeq(ss, Descriptor)
  }

  /** A room's structure hash: the sorted descriptors joined by `|`, or `""` for a room not in view. */
  function StructureHash(visible: map<string, Room>, roomName: string): (h: string)
    ensures ColonsBeforeDigits(h)
    ensures roomName !in visible ==> h == ""
  {
    if roomName !in visible then ""
    else
      var ds := Descriptors(visible[roomName].structures);
      MapSeqAt(visible[roomName].structures, Descriptor);
      HashShape(ds);
      Join(Sort(ds), "|")
  }

  lemma DescriptorShape(s: Structure)
    ensures ColonsBeforeDigits(Descriptor(s))
  {
    var t, x, y := TypeName(s.stype), NatToString(s.pos.x), NatToString(s.pos.y);
    var d := t + ":" + x + "," + y;
    assert Descriptor(s) == d;
    forall i | 0 <= i < |d| && i != |t| ensures d[i] != ':' {
      if i < |t| {
        assert d[i] == t[i];
      } else if i <= |t| + |x| {
        assert d[i] == x[i - |t| - 1];
      } else if i > |t| + |x| + 1 {
        assert d[i] == y[i - |t| - |x| - 2];
      }
    }
    assert d[|t| + 1] == x[0];
  }

  lemma HashShape(ds: seq<string>)
    requires forall i :: 0 <= i < |ds| ==> exists s: Structure :: ds[i] == Descriptor(s)
    ensures ColonsBeforeDigits(Join(Sort(ds), "|"))
  {
    SortSortedPermutation(ds);
    var sorted := Sort(ds);
    forall i | 0 <= i < |sorted| ensures ColonsBeforeDigits(sorted[i]) {
      assert sorted[i] in multiset(ds);
      var j :| 0 <= j < |ds| && ds[j] == sorted[i];
      var s: Structure :| ds[j] == Descriptor(s);
      DescriptorShape(s);
    }
    ColonsBeforeDigitsJoin(sorted, "|");
  }

  /** `s.map(f)`. */
  function MapSeq<T, U>(s: seq<T>, f: T -> U): (r: seq<U>)
    ensures |r| == |s|
  {
    if |s| == 0 then [] else [f(s[0])] + MapSeq(s[1..], f)
  }

  lemma {:induction false} MapSeqAt<T, U>(s: seq<T>, f: T -> U)
    ensures forall i :: 0 <= i < |s| ==> MapSeq(s, f)[i] == f(s[i])
  {
    if |s| > 0 {
      MapSeqAt(s[1..], f);
    }
  }

  lemma {:induction false} MapSeqConcat<T, U>(a: seq<T>, b: seq<T>, f: T -> U)
    ensures MapSeq(a + b, f) == MapSeq(a, f) + MapSeq(b, f)
  {
    if |a| > 0 {
      MapSeqConcat(a[1..], b, f);
      assert (a + b)[0] == a[0];
      assert (a + b)[1..] == a[1..] + b;
    } else {
      assert a + b == b;
    }
  }

  lemma RemoveAtMultiset<T>(s: seq<T>, j: nat)
    requires j < |s|
    ensures multiset(s[..j] + s[j + 1..]) == multiset(s) - multiset{s[j]}
  {
    assert s == s[..j] + [s[j]] + s[j + 1..];
  }

  lemma MapSeqRemoveAt<T, U>(b: seq<T>, j: nat, f: T -> U)
    requires j < |b|
    ensures multiset(MapSeq(b, f)) == multiset(MapSeq(b[..j] + b[j + 1..], f)) + multiset{f(b[j])}
  {
    var left, mid, right := b[..j], [b[j]], b[j + 1..];
    assert b[j..] == mid + right;
    assert b == left + b[j..];
    MapSeqConcat(left, mid + right, f);
    MapSeqConcat(mid, right, f);
    MapSeqConcat(left, right, f);
    var ml, mm, mr := MapSeq(left, f), MapSeq(mid, f), MapSeq(right, f);
    assert mm == [f(b[j])];
    assert multiset(ml + (mm + mr)) == multiset(ml) + multiset(mm) + multiset(mr);
    assert multiset(ml + mr) == multiset(ml) + multiset(mr);
  }

  /** Mapping two permutations of one another gives permutations of one another. */
  lemma {:induction false} MapSeqMultiset<T, U>(a: seq<T>, b: seq<T>, f: T -> U)
    requires multiset(a) == multiset(b)
    ensures multiset(MapSeq(a, f)) == multiset(MapSeq(b, f))
    decreases |a|
  {
    if |a| == 0 {
      assert |b| == |multiset(b)| == 0;
    } else {
      var x := a[0];
      assert x in multiset(b);
      var j :| 0 <= j < |b| && b[j] == x;
      var rest := b[..j] + b[j + 1..];
      RemoveAtMultiset(b, j);
      assert multiset(a[1..]) == multiset(rest) by {
        assert a == [x] + a[1..];
        assert multiset(a) == multiset{x} + multiset(a[1..]);
      }
      MapSeqMultiset(a[1..], rest, f);
      MapSeqRemoveAt(b, j, f);
      assert MapSeq(a, f) == [f(x)] + MapSeq(a[1..], f);
    }
  }

  /** A room's hash does not depend on the order in which the engine lists its structures. */
  lemma HashOrderIndependent(visible: map<string, Room>, roomName: string, reordered: seq<Structure>)
    requires roomName in visible
    requires multiset(reordered) == multiset(visible[roomName].structures)
    ensures StructureHash(visible[roomName := visible[roomName].(structures := reordered)], roomName)
         == StructureHash(visible, roomName)
  {
    MapSeqMultiset(reordered, visible[roomName].structures, Descriptor);
    SortOrderIndependent(Descriptors(reordered), Descriptors(visible[roomName].structures));
  }

  /** The memo key names both endpoint rooms, so invalidating either room drops the entry. */
  lemma KeyNamesEndpoints(origin: Pos, dest: Pos, opts: string)
    ensures Contains(CacheKey(origin, dest, opts), origin.roomName)
    ensures Contains(CacheKey(origin, dest, opts), dest.roomName)
  {
    var key := CacheKey(origin, dest, opts);
    var head := origin.roomName + ":" + NatToString(origin.x) + "," + NatToString(origin.y) + "-";
    var tail := dest.roomName + ":" + NatToString(dest.x) + "," + NatToString(dest.y) + "-" + opts;
    assert key == head + tail;
    assert OccursAt(key, origin.roomName, 0);
    assert key[|head|..|head| + |dest.roomName|] == dest.roomName;
    assert OccursAt(key, dest.roomName, |head|);
  }

  // ---------------------------------------------------------------------------------------------
  // The rooms a search touches

  /** `set.add(name)` on an insertion-ordered set. */
  function AddRoom(rooms: seq<string>, name: string): seq<string>
  {
    if name in rooms then rooms else rooms + [name]
  }

  function AddPathRooms(rooms: seq<string>, path: seq<Pos>): seq<string>
    decreases |path|
  {
    if |path| == 0 then rooms else AddPathRooms(AddRoom(rooms, path[0].roomName), path[1..])
  }

  predicate NoDuplicates(s: seq<string>)
  {
    forall i, j :: 0 <= i < j < |s| ==> s[i] != s[j]
  }

  predicate OnPath(path: seq<Pos>, name: string)
  {
    exists i :: 0 <= i < |path| && path[i].roomName == name
  }

  lemma {:induction false} AddPathRoomsSpec(rooms: seq<string>, path: seq<Pos>)
    requires NoDuplicates(rooms)
    ensures var r := AddPathRooms(rooms, path);
      && NoDuplicates(r) && |r| >= |rooms| && r[..|rooms|] == rooms
      && forall name :: name in r <==> name in rooms || OnPath(path, name)
    decreases |path|
  {
    if |path| > 0 {
      var next := AddRoom(rooms, path[0].roomName);
      AddPathRoomsSpec(next, path[1..]);
      var r := AddPathRooms(rooms, path);
      assert r[..|rooms|] == r[..|next|][..|rooms|];
      forall name ensures name in r <==> name in rooms || OnPath(path, name) {
        if OnPath(path[1..], name) {
          var i :| 0 <= i < |path[1..]| && path[1..][i].roomName == name;
          assert path[i + 1].roomName == name;
        }
        if OnPath(path, name) && name !in next {
          var i :| 0 <= i < |path| && path[i].roomName == name;
          assert i > 0 && path[1..][i - 1].roomName == name;
        }
      }
    }
  }

  /**
   * The rooms whose structures vouch for a search: origin room, destination room and every room
   * on the path, each once, in first-seen order.
   */
  function PathRooms(origin: Pos, dest: Pos, path: seq<Pos>): (r: seq<string>)
    ensures |r| >= 1 && r[0] == origin.roomName
    ensures NoDuplicates(r)
    ensures forall name :: name in r <==> name == origin.roomName || name == dest.roomName || OnPath(path, name)
  {
    var start := AddRoom([origin.roomName], dest.roomName);
    AddPathRoomsSpec(start, path);
    AddPathRooms(start, path)
  }

  /** A search whose endpoints or path leave the origin room is checked against two or more rooms. */
  lemma SpansTwoRooms(origin: Pos, dest: Pos, path: seq<Pos>, other: string)
    requires other != origin.roomName
    requires other == dest.roomName || OnPath(path, other)
    ensures |PathRooms(origin, dest, path)| >= 2
  {
    var r := PathRooms(origin, dest, path);
    assert other in r;
  }

  /** The per-room hashes of a list of rooms, in the same order. */
  function RoomHashes(visible: map<string, Room>, names: seq<string>): (hs: seq<string>)
    ensures |hs| == |names|
    ensures forall i :: 0 <= i < |names| ==> hs[i] == StructureHash(visible, names[i]) && ColonsBeforeDigits(hs[i])
  {
    seq(|names|, i requires 0 <= i < |names| => StructureHash(visible, names[i]))
  }

  /** The entry a fresh search is stored as: its path, stamped now, with the `::`-joined room hashes. */
  function Packed(origin: Pos, dest: Pos, search: SearchResult, visible: map<string, Room>, now: int): CachedSearchResult
  {
    CachedSearchResult(search.path, search.incomplete, now,
                       Some(Join(RoomHashes(visible, PathRooms(origin, dest, search.path)), "::")))
  }

  // ---------------------------------------------------------------------------------------------
  // The structure check

  predicate RecordsWellFormed(rooms: map<string, RoomStructureRecord>)
  {
    forall r :: r in rooms ==> ColonsBeforeDigits(rooms[r].hash)
  }

  /** What `isStructureHashValid(name, cached)` answers, and the records it leaves behind. */
  function CheckRoom(rooms: map<string, RoomStructureRecord>, visible: map<string, Room>, now: int,
                     name: string, cached: Option<string>): (c: Checked)
    requires RecordsWellFormed(rooms)
    ensures RecordsWellFormed(c.rooms)
    // a missing or empty stored hash never validates, and touches nothing
    ensures (cached.None? || cached.value == "") ==> c == Checked(false, rooms)
    // a pass means the stored hash equals some room hash
    ensures c.ok ==> cached.Some? && ColonsBeforeDigits(cached.value)
    // the record is refreshed only when absent or at least 50 ticks old, and then to the live hash
    ensures c.rooms != rooms ==> (name !in rooms || now - rooms[name].lastUpdated >= STRUCTURE_CHECK_INTERVAL)
    ensures c.rooms == rooms || c.rooms == rooms[name := RoomStructureRecord(StructureHash(visible, name), now)]
    // a recent record answers by itself
    ensures cached.Some? && cached.value != "" && name in rooms && now - rooms[name].lastUpdated < STRUCTURE_CHECK_INTERVAL
            ==> c == Checked(rooms[name].hash == cached.value, rooms)
  {
    if cached.None? || cached.value == "" then Checked(false, rooms)
    else if name in rooms && now - rooms[name].lastUpdated < STRUCTURE_CHECK_INTERVAL then
      Checked(rooms[name].hash == cached.value, rooms)
    else
      var h := StructureHash(visible, name);
      Checked(h == cached.value, rooms[name := RoomStructureRecord(h, now)])
  }

  /** The check over a list of rooms, stopping at the first room that fails. */
  function CheckRooms(rooms: map<string, RoomStructureRecord>, visible: map<string, Room>, now: int,
                      names: seq<string>, cached: Option<string>): (c: Checked)
    requires RecordsWellFormed(rooms)
    ensures RecordsWellFormed(c.rooms)
    ensures c.ok && |names| > 0 ==> cached.Some? && ColonsBeforeDigits(cached.value)
    ensures forall r :: r in rooms ==> r in c.rooms
    ensures forall r :: r in c.rooms && r !in names ==> r in rooms && c.rooms[r] == rooms[r]
    decreases |names|
  {
    if |names| == 0 then Checked(true, rooms)
    else
      var first := CheckRoom(rooms, visible, now, names[0], cached);
      if !first.ok then first else CheckRooms(first.rooms, visible, now, names[1..], cached)
  }

  /** The check a lookup of `key` runs: none for an absent or expired entry. */
  function Lookup(entries: map<string, CachedSearchResult>, rooms: map<string, RoomStructureRecord>,
                  visible: map<string, Room>, now: int, key: string, origin: Pos, dest: Pos): Checked
    requires RecordsWellFormed(rooms)
  {
    if key in entries && now - entries[key].time < CACHE_EXPIRATION_TICKS then
      CheckRooms(rooms, visible, now, PathRooms(origin, dest, entries[key].path), entries[key].structureHash)
    else Checked(false, rooms)
  }

  /**
   * The stored hash of a search that spans two or more rooms is compared with single-room hashes
   * and so can never pass: such an entry is never returned from the memo.
   */
  lemma MultiRoomEntryNeverHits(origin: Pos, dest: Pos, search: SearchResult, visible: map<string, Room>, stamped: int,
                                rooms: map<string, RoomStructureRecord>, visibleLater: map<string, Room>, later: int,
                                names: seq<string>)
    requires |PathRooms(origin, dest, search.path)| >= 2
    requires RecordsWellFormed(rooms) && |names| > 0
    ensures !CheckRooms(rooms, visibleLater, later, names, Packed(origin, dest, search, visible, stamped).structureHash).ok
  {
    var hs := RoomHashes(visible, PathRooms(origin, dest, search.path));
    JoinDoubleColon(hs);
    var stored := Join(hs, "::");
    if CheckRooms(rooms, visibleLater, later, names, Some(stored)).ok {
      NoDoubleColon(stored, hs[0], Join(hs[1..], "::"));
      assert false;
    }
  }

  // ---------------------------------------------------------------------------------------------
  // Eviction and invalidation

  /** `after` is `before` without n entries, none of them newer than any entry kept. */
  ghost predicate EvictedOldest(before: map<string, CachedSearchResult>, after: map<string, CachedSearchResult>, n: nat)
  {
    && after.Keys <= before.Keys
    && |after| == |before| - n
    && (forall k :: k in after ==> after[k] == before[k])
    && (forall k, k2 :: k in before && k !in after && k2 in after ==> before[k].time <= before[k2].time)
  }

  /** What `cleanCache` leaves of `before`. */
  ghost predicate Cleaned(before: map<string, CachedSearchResult>, after: map<string, CachedSearchResult>)
  {
    if |before| <= MAX_CACHE_SIZE then after == before else EvictedOldest(before, after, EVICTION_COUNT)
  }

  /** An entry involves a room when its key mentions the room name or its path enters the room. */
  predicate Involves(key: string, e: CachedSearchResult, roomName: string)
  {
    Contains(key, roomName) || OnPath(e.path, roomName)
  }

  /** The entries that invalidating `roomName` keeps. */
  function Invalidated(entries: map<string, CachedSearchResult>, roomName: string): map<string, CachedSearchResult>
  {
    map k | k in entries && !Involves(k, entries[k], roomName) :: entries[k]
  }

  /** A memo entry stored for endpoints in a room is among those invalidating that room removes. */
  lemma EndpointEntriesInvolveRoom(origin: Pos, dest: Pos, opts: string, e: CachedSearchResult, roomName: string)
    requires roomName == origin.roomName || roomName == dest.roomName
    ensures Involves(CacheKey(origin, dest, opts), e, roomName)
  {
    KeyNamesEndpoints(origin, dest, opts);
  }

  /** Index of an entry with the smallest stamp. */
  method OldestKey(m: map<string, CachedSearchResult>) returns (k: string)
    requires |m| > 0
    ensures k in m
    ensures forall k2 :: k2 in m ==> m[k].time <= m[k2].time
  {
    assert |m.Keys| > 0;
    k :| k in m.Keys;
    var pending := m.Keys - {k};
    while pending != {}
      invariant pending <= m.Keys && k in m
      invariant forall k2 :: k2 in m && k2 !in pending ==> m[k].time <= m[k2].time
      decreases |pending|
    {
      var x :| x in pending;
      if m[x].time < m[k].time {
        k := x;
      }
      pending := pending - {x};
    }
  }

  lemma RemoveOneSize(m: map<string, CachedSearchResult>, k: string)
    requires k in m
    ensures |m - {k}| == |m| - 1
  {
    assert (m - {k}).Keys == m.Keys - {k};
  }

  lemma AddOneSize(m: map<string, CachedSearchResult>, k: string, v: CachedSearchResult)
    ensures |m[k := v]| <= |m| + 1
  {
    assert m[k := v].Keys == m.Keys + {k};
  }

  /** The memo and the structure records, both held across ticks. */
  class Cache {
    var entries: map<string, CachedSearchResult>
    var rooms: map<string, RoomStructureRecord>

    ghost predicate Valid()
      reads this
    {
      |entries| <= MAX_CACHE_SIZE && RecordsWellFormed(rooms)
    }

    constructor ()
      ensures Valid() && entries == map[] && rooms == map[]
    {
      entries, rooms := map[], map[];
    }

    /** `isStructureHashValid`: checks one room, refreshing its record when absent or stale. */
    method IsStructureHashValid(roomName: string, cachedHash: Option<string>, visible: map<string, Room>, now: int)
      returns (ok: bool)
      requires RecordsWellFormed(rooms)
      modifies this`rooms
      ensures Checked(ok, rooms) == CheckRoom(old(rooms), visible, now, roomName, cachedHash)
    {
      if cachedHash.None? || cachedHash.value == "" {
        return false;
      }
      if roomName in rooms && now - rooms[roomName].lastUpdated < STRUCTURE_CHECK_INTERVAL {
        return rooms[roomName].hash == cachedHash.value;
      }
      var currentHash := StructureHash(visible, roomName);
      rooms := rooms[roomName := RoomStructureRecord(currentHash, now)];
      ok := currentHash == cachedHash.value;
    }

    /** `cleanCache`: above 1000 entries, drop the 200 with the smallest stamps. */
    method CleanCache()
      modifies this`entries
      ensures Cleaned(old(entries), entries)
    {
      if |entries| <= MAX_CACHE_SIZE {
        return;
      }
      ghost var before := entries;
      var removed := 0;
      while removed < EVICTION_COUNT
        invariant 0 <= removed <= EVICTION_COUNT
        invariant entries.Keys <= before.Keys && |entries| == |before| - removed
        invariant forall k :: k in entries ==> entries[k] == before[k]
        invariant forall k, k2 :: k in before && k !in entries && k2 in entries ==> before[k].time <= before[k2].time
      {
        var oldest := OldestKey(entries);
        RemoveOneSize(entries, oldest);
        entries := entries - {oldest};
        removed := removed + 1;
      }
    }

    /** The structure check of a stored entry: every room it touches, stopping at the first failure. */
    method CheckEntry(cached: CachedSearchResult, origin: Pos, dest: Pos, visible: map<string, Room>, now: int)
      returns (valid: bool)
      requires RecordsWellFormed(rooms)
      modifies this`rooms
      ensures RecordsWellFormed(rooms)
      ensures Checked(valid, rooms) == CheckRooms(old(rooms), visible, now, PathRooms(origin, dest, cached.path), cached.structureHash)
    {
      var pathRooms := PathRooms(origin, dest, cached.path);
      valid := true;
      var i := 0;
      while i < |pathRooms|
        invariant 0 <= i <= |pathRooms|
        invariant RecordsWellFormed(rooms) && valid
        invariant CheckRooms(old(rooms), visible, now, pathRooms, cached.structureHash)
               == CheckRooms(rooms, visible, now, pathRooms[i..], cached.structureHash)
      {
        var ok := IsStructureHashValid(pathRooms[i], cached.structureHash, visible, now);
        if !ok {
          valid := false;
          return;
        }
        i := i + 1;
      }
    }

    /** Store a fresh entry under `key` and trim the memo. */
    method Store(key: string, r: CachedSearchResult)
      requires |entries - {key}| <= MAX_CACHE_SIZE
      modifies this`entries
      ensures |entries| <= MAX_CACHE_SIZE
      ensures Cleaned(old(entries)[key := r], entries)
    {
      ghost var stored := old(entries)[key := r];
      assert stored == (entries - {key})[key := r];
      AddOneSize(entries - {key}, key, r);
      entries := entries[key := r];
      CleanCache();
    }

    /**
     * `findPathWithCache`: a stored, unexpired entry whose structure check passes for every room
     * it touches is returned as is; otherwise the fresh search is stored, stamped now, and the
     * memo is trimmed.
     */
    method FindPathWithCache(origin: Pos, dest: Pos, opts: string, search: SearchResult,
                             visible: map<string, Room>, now: int)
      returns (r: CachedSearchResult, hit: bool)
      requires Valid()
      modifies this
      ensures Valid()
      ensures var c := Lookup(old(entries), old(rooms), visible, now, CacheKey(origin, dest, opts), origin, dest);
        hit == c.ok && rooms == c.rooms
      ensures hit ==> r == old(entries)[CacheKey(origin, dest, opts)] && entries == old(entries)
      ensures hit ==> r.structureHash.Some? && ColonsBeforeDigits(r.structureHash.value)
      ensures !hit ==> r == Packed(origin, dest, search, visible, now)
      ensures !hit ==> Cleaned(old(entries)[CacheKey(origin, dest, opts) := r], entries)
    {
      var key := CacheKey(origin, dest, opts);
      if key in entries && now - entries[key].time < CACHE_EXPIRATION_TICKS {
        var cached := entries[key];
        var structuresValid := CheckEntry(cached, origin, dest, visible, now);
        if structuresValid {
          assert |PathRooms(origin, dest, cached.path)| > 0;
          return cached, true;
        }
        entries := entries - {key};
        RemoveThenPut(old(entries), key, Packed(origin, dest, search, visible, now));
      }
      var hashes := RoomHashes(visible, PathRooms(origin, dest, search.path));
      r := CachedSearchResult(search.path, search.incomplete, now, Some(Join(hashes, "::")));
      MapSubsetSize(entries - {key}, old(entries));
      Store(key, r);
      hit := false;
    }

    /** `invalidateRoomCache`: drop every entry involving the room, and the room's record. */
    method InvalidateRoomCache(roomName: string)
      requires Valid()
      modifies this
      ensures Valid()
      ensures forall k :: k in entries <==> k in old(entries) && !Involves(k, old(entries)[k], roomName)
      ensures forall k :: k in entries ==> entries[k] == old(entries)[k]
      ensures entries == Invalidated(old(entries), roomName)
      ensures rooms == old(rooms) - {roomName}
    {
      var toDelete := InvolvedKeys(entries, roomName);
      var rest := toDelete;
      while rest != {}
        invariant rest <= toDelete && rooms == old(rooms)
        invariant forall k :: k in entries <==> k in old(entries) && (k !in toDelete || k in rest)
        invariant forall k :: k in entries ==> entries[k] == old(entries)[k]
        decreases |rest|
      {
        var k :| k in rest;
        entries := entries - {k};
        rest := rest - {k};
      }
      MapSubsetSize(entries, old(entries));
      rooms := rooms - {roomName};
    }

    /** `getCacheStats`: the number of stored entries, which the bound keeps at most 1000. */
    method GetCacheStats() returns (size: nat)
      requires Valid()
      ensures size == |entries| && size <= MAX_CACHE_SIZE
    {
      size := |entries|;
    }
  }

  /** The keys `invalidateRoomCache` collects before deleting anything. */
  method InvolvedKeys(entries: map<string, CachedSearchResult>, roomName: string) returns (toDelete: set<string>)
    ensures forall k :: k in toDelete <==> k in entries && Involves(k, entries[k], roomName)
  {
    toDelete := {};
    var pending := entries.Keys;
    while pending != {}
      invariant pending <= entries.Keys
      invariant forall k :: k in toDelete <==> k in entries && k !in pending && Involves(k, entries[k], roomName)
      decreases |pending|
    {
      var k :| k in pending;
      if Involves(k, entries[k], roomName) {
        toDelete := toDelete + {k};
      }
      pending := pending - {k};
    }
  }

  lemma SubsetSize(a: set<string>, b: set<string>)
    requires a <= b
    ensures |a| <= |b|
  {
    assert b == a + (b - a);
  }

  lemma RemoveThenPut(m: map<string, CachedSearchResult>, k: string, v: CachedSearchResult)
    ensures (m - {k})[k := v] == m[k := v]
  {
  }

  lemma MapSubsetSize(a: map<string, CachedSearchResult>, b: map<string, CachedSearchResult>)
    requires forall k :: k in a ==> k in b
    ensures |a| <= |b|
  {
    SubsetSize(a.Keys, b.Keys);
  }
}
