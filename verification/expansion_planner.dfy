/**
 * Expansion planning: score the rooms in the reconnaissance cache, keep the viable ones that
 * belong to no other home and were scouted recently, and return the best few, best first.
 * Scores are exact rationals here, where the bot uses doubles.
 */
module ExpansionPlanner {
  import opened Common
  import opened Schema

  const SOURCE_WEIGHT: real := 10.0
  const DISTANCE_PENALTY: real := 0.2
  const MINERAL_BONUS: real := 5.0
  const HOSTILE_PENALTY: real := 50.0
  const CONTROLLER_OWNED_PENALTY: real := 100.0
  const CONTROLLER_RESERVED_PENALTY: real := 25.0
  /** Intel older than this is ignored. */
  const STALE_AFTER: int := 10000
  /** The reservation name that does not count as a rival. */
  const NEUTRAL_USER: string := "Screeps"

  datatype ScoredRoom = ScoredRoom(roomName: string, intel: RoomIntel, score: real, homeRoom: string)

  predicate Owned(intel: RoomIntel)
  {
    intel.controller.Some? && intel.controller.value.owner.Some?
  }

  /** Reserved by someone other than the neutral user, and not owned. */
  predicate ReservedByRival(intel: RoomIntel)
  {
    && intel.controller.Some? && intel.controller.value.owner.None?
    && intel.controller.value.reservation.Some? && intel.controller.value.reservation.value.username != NEUTRAL_USER
  }

  /** `calculateRoomScore`, with the linear room distance to the home room given. */
  function Score(intel: RoomIntel, distance: nat): real
  {
    SOURCE_WEIGHT * (|intel.sources| as real)
      - DISTANCE_PENALTY * (distance as real)
      + (if intel.mineral.Some? then MINERAL_BONUS else 0.0)
      - (if intel.hostile then HOSTILE_PENALTY else 0.0)
      - (if Owned(intel) then CONTROLLER_OWNED_PENALTY else if ReservedByRival(intel) then CONTROLLER_RESERVED_PENALTY else 0.0)
  }

  /** Two sources, a mineral, three rooms away, unowned, unreserved and quiet: 24.4. */
  lemma ScoreExample(intel: RoomIntel)
    requires |intel.sources| == 2 && intel.mineral.Some? && !intel.hostile
    requires intel.controller.None? || (intel.controller.value.owner.None? && intel.controller.value.reservation.None?)
    ensures Score(intel, 3) == 24.4
  {
  }

  /** `isRoomViable`: at least one source, no owner, no hostiles. */
  predicate Viable(intel: RoomIntel)
  {
    |intel.sources| > 0 && !Owned(intel) && !intel.hostile
  }

  /** A viable room's score never carries the hostile or the owned penalty. */
  lemma ViableScore(intel: RoomIntel, distance: nat)
    requires Viable(intel)
    ensures Score(intel, distance)
      == SOURCE_WEIGHT * (|intel.sources| as real) - DISTANCE_PENALTY * (distance as real)
        + (if intel.mineral.Some? then MINERAL_BONUS else 0.0)
        - (if ReservedByRival(intel) then CONTROLLER_RESERVED_PENALTY else 0.0)
    ensures Score(intel, distance) >= SOURCE_WEIGHT - DISTANCE_PENALTY * (distance as real) - CONTROLLER_RESERVED_PENALTY
  {
    assert |intel.sources| as real >= 1.0;
  }

  /** A room the home room may expand into at tick `now`. */
  predicate Eligible(intel: RoomIntel, home: string, now: int)
  {
    Viable(intel) && (intel.homeRoom.None? || intel.homeRoom == Some(home)) && !(now - intel.lastScouted > STALE_AFTER)
  }

  /** The scored eligible rooms among `names`, in enumeration order. */
  function Candidates(names: seq<string>, records: map<string, RoomIntel>, home: string, now: int, distance: string -> nat): (r: seq<ScoredRoom>)
    requires forall i :: 0 <= i < |names| ==> names[i] in records
    ensures |r| <= |names|
    ensures forall i :: 0 <= i < |r| ==>
      && r[i].roomName in names && r[i].homeRoom == home && r[i].intel == records[r[i].roomName]
      && Eligible(r[i].intel, home, now) && r[i].score == Score(r[i].intel, distance(r[i].roomName))
    ensures forall i :: 0 <= i < |names| && Eligible(records[names[i]], home, now) ==>
      exists j :: 0 <= j < |r| && r[j].roomName == names[i]
  {
    if |names| == 0 then []
    else
      var name := names[|names| - 1];
      var intel := records[name];
      var init := Candidates(names[..|names| - 1], records, home, now, distance);
      var r := init + (if Eligible(intel, home, now) then [ScoredRoom(name, intel, Score(intel, distance(name)), home)] else []);
      assert forall i :: 0 <= i < |names| - 1 ==> names[..|names| - 1][i] == names[i];
      assert forall j :: 0 <= j < |init| ==> r[j] == init[j];
      assert Eligible(intel, home, now) ==> r[|init|].roomName == name;
      r
  }

  // ---------------------------------------------------------------- stable sort, best first

  predicate SortedDesc(s: seq<ScoredRoom>)
  {
    forall i, j :: 0 <= i < j < |s| ==> s[i].score >= s[j].score
  }

  /** Insert after every element that scores at least as much. */
  function InsertDesc(x: ScoredRoom, s: seq<ScoredRoom>): seq<ScoredRoom>
  {
    if |s| == 0 then [x] else if s[0].score >= x.score then [s[0]] + InsertDesc(x, s[1..]) else [x] + s
  }

  /** `sort((a, b) => b.score - a.score)`, a stable sort. */
  function SortDesc(s: seq<ScoredRoom>): seq<ScoredRoom>
  {
    if |s| == 0 then [] else InsertDesc(s[|s| - 1], SortDesc(s[..|s| - 1]))
  }

  /** The elements of s with score v, in order. */
  function WithScore(s: seq<ScoredRoom>, v: real): seq<ScoredRoom>
  {
    if |s| == 0 then [] else WithScore(s[..|s| - 1], v) + (if s[|s| - 1].score == v then [s[|s| - 1]] else [])
  }

  lemma {:induction false} WithScorePrepend(x: ScoredRoom, s: seq<ScoredRoom>, v: real)
    ensures WithScore([x] + s, v) == (if x.score == v then [x] else []) + WithScore(s, v)
  {
    if |s| > 0 {
      WithScorePrepend(x, s[..|s| - 1], v);
      assert ([x] + s)[..|s|] == [x] + s[..|s| - 1];
    } else {
      assert ([x] + s)[..0] == [];
    }
  }

  lemma {:induction false} WithScoreAllBelow(s: seq<ScoredRoom>, v: real)
    requires forall i :: 0 <= i < |s| ==> s[i].score < v
    ensures WithScore(s, v) == []
  {
    if |s| > 0 {
      WithScoreAllBelow(s[..|s| - 1], v);
    }
  }

  lemma {:induction false} InsertDescMultiset(x: ScoredRoom, s: seq<ScoredRoom>)
    ensures multiset(InsertDesc(x, s)) == multiset(s) + multiset{x}
  {
    if |s| > 0 && s[0].score >= x.score {
      InsertDescMultiset(x, s[1..]);
      assert s == [s[0]] + s[1..];
    }
  }

  lemma {:induction false} InsertDescSorted(x: ScoredRoom, s: seq<ScoredRoom>)
    requires SortedDesc(s)
    ensures SortedDesc(InsertDesc(x, s))
  {
    if |s| > 0 && s[0].score >= x.score {
      var rest := InsertDesc(x, s[1..]);
      InsertDescSorted(x, s[1..]);
      InsertDescMultiset(x, s[1..]);
      forall j | 0 <= j < |rest|
        ensures s[0].score >= rest[j].score
      {
        var y := rest[j];
        assert y in multiset(rest);
        assert y == x || y in multiset(s[1..]);
        if y != x {
          var k :| 0 <= k < |s[1..]| && s[1..][k] == y;
          assert s[k + 1] == y;
        }
      }
    }
  }

  lemma {:induction false} InsertDescWithScore(x: ScoredRoom, s: seq<ScoredRoom>, v: real)
    requires SortedDesc(s)
    ensures WithScore(InsertDesc(x, s), v) == WithScore(s, v) + (if x.score == v then [x] else [])
  {
    var tail := if x.score == v then [x] else [];
    if |s| == 0 {
      assert [x][..0] == [];
    } else if s[0].score >= x.score {
      assert SortedDesc(s[1..]);
      InsertDescWithScore(x, s[1..], v);
      BehindHeadWithScore(x, s, v);
    } else {
      assert InsertDesc(x, s) == [x] + s;
      InFrontWithScore(x, s, v);
    }
  }

  /** A room inserted behind the head of a list: the head's contribution comes first either way. */
  lemma BehindHeadWithScore(x: ScoredRoom, s: seq<ScoredRoom>, v: real)
    requires |s| > 0 && s[0].score >= x.score
    requires WithScore(InsertDesc(x, s[1..]), v) == WithScore(s[1..], v) + (if x.score == v then [x] else [])
    ensures WithScore(InsertDesc(x, s), v) == WithScore(s, v) + (if x.score == v then [x] else [])
  {
    var head, rest := s[0], s[1..];
    var tail := if x.score == v then [x] else [];
    assert InsertDesc(x, s) == [head] + InsertDesc(x, rest);
    WithScorePrepend(head, InsertDesc(x, rest), v);
    assert s == [head] + rest;
    WithScorePrepend(head, rest, v);
    var h := if head.score == v then [head] else [];
    assert WithScore(InsertDesc(x, s), v) == h + (WithScore(rest, v) + tail);
    assert h + WithScore(rest, v) + tail == h + (WithScore(rest, v) + tail);
  }

  /** A room that outscores the head of a best-first list, put in front of it. */
  lemma InFrontWithScore(x: ScoredRoom, s: seq<ScoredRoom>, v: real)
    requires SortedDesc(s) && |s| > 0 && s[0].score < x.score
    ensures WithScore([x] + s, v) == WithScore(s, v) + (if x.score == v then [x] else [])
  {
    WithScorePrepend(x, s, v);
    if x.score == v {
      assert forall i :: 0 <= i < |s| ==> s[i].score <= s[0].score;
      WithScoreAllBelow(s, v);
    }
  }

  /** The sort puts the best first and keeps every room exactly once. */
  lemma {:induction false} SortDescPermutes(s: seq<ScoredRoom>)
    ensures SortedDesc(SortDesc(s))
    ensures multiset(SortDesc(s)) == multiset(s)
  {
    if |s| > 0 {
      var init := s[..|s| - 1];
      SortDescPermutes(init);
      InsertDescSorted(s[|s| - 1], SortDesc(init));
      InsertDescMultiset(s[|s| - 1], SortDesc(init));
      assert s == init + [s[|s| - 1]];
    }
  }

  /** The sort keeps rooms with equal scores in their original order. */
  lemma {:induction false} SortDescStable(s: seq<ScoredRoom>, v: real)
    ensures WithScore(SortDesc(s), v) == WithScore(s, v)
  {
    if |s| > 0 {
      var init := s[..|s| - 1];
      SortDescStable(init, v);
      SortDescPermutes(init);
      InsertDescWithScore(s[|s| - 1], SortDesc(init), v);
    }
  }

  /** `getTopExpansionTargets(home, maxTargets)`; no intel map gives no targets. */
  function TopExpansionTargets(intel: Option<IntelMap>, home: string, maxTargets: nat, now: int, distance: string -> nat): seq<ScoredRoom>
    requires intel.Some? ==> intel.value.Valid()
  {
    if intel.None? then []
    else
      var sorted := SortDesc(Candidates(intel.value.order, intel.value.records, home, now, distance));
      sorted[..Min(maxTargets, |sorted|)]
  }

  /**
   * The targets: at most `maxTargets`, best first, each an eligible room of the cache scored
   * for this home and tagged with it.
   */
  lemma TopTargetsShape(intel: Option<IntelMap>, home: string, maxTargets: nat, now: int, distance: string -> nat)
    requires intel.Some? ==> intel.value.Valid()
    ensures var r := TopExpansionTargets(intel, home, maxTargets, now, distance);
      && |r| <= maxTargets
      && SortedDesc(r)
      && (intel.None? ==> r == [])
      && (forall i :: 0 <= i < |r| ==>
            && r[i].homeRoom == home && r[i].roomName in intel.value.records
            && r[i].intel == intel.value.records[r[i].roomName]
            && Eligible(r[i].intel, home, now)
            && r[i].score == Score(r[i].intel, distance(r[i].roomName)))
  {
    if intel.Some? {
      var m := intel.value;
      var c := Candidates(m.order, m.records, home, now, distance);
      var sorted := SortDesc(c);
      SortDescPermutes(c);
      var r := sorted[..Min(maxTargets, |sorted|)];
      assert r == TopExpansionTargets(intel, home, maxTargets, now, distance);
      forall i | 0 <= i < |r|
        ensures r[i].homeRoom == home && r[i].roomName in m.records && r[i].intel == m.records[r[i].roomName]
        ensures Eligible(r[i].intel, home, now) && r[i].score == Score(r[i].intel, distance(r[i].roomName))
      {
        assert r[i] == sorted[i];
        assert sorted[i] in multiset(sorted);
        var j :| 0 <= j < |c| && c[j] == r[i];
      }
    }
  }

  /** A room missing from a prefix of a best-first list is not better than anything in the prefix, and the prefix is short of the whole list. */
  lemma LeftOutOfPrefix(sorted: seq<ScoredRoom>, n: nat, x: ScoredRoom)
    requires SortedDesc(sorted) && x in sorted
    ensures var r := sorted[..Min(n, |sorted|)];
      (forall i :: 0 <= i < |r| ==> r[i].roomName != x.roomName) ==>
        |r| == n && forall i :: 0 <= i < |r| ==> r[i].score >= x.score
  {
    var r := sorted[..Min(n, |sorted|)];
    if forall i :: 0 <= i < |r| ==> r[i].roomName != x.roomName {
      var p :| 0 <= p < |sorted| && sorted[p] == x;
      assert p >= |r|;
      forall i | 0 <= i < |r|
        ensures r[i].score >= x.score
      {
        assert r[i] == sorted[i];
      }
    }
  }

  /** The candidate entry an eligible room of the cache produces. */
  lemma CandidateFor(intel: IntelMap, home: string, now: int, distance: string -> nat, name: string) returns (x: ScoredRoom)
    requires intel.Valid()
    requires name in intel.records && Eligible(intel.records[name], home, now)
    ensures x in Candidates(intel.order, intel.records, home, now, distance)
    ensures x.roomName == name && x.score == Score(intel.records[name], distance(name))
  {
    var c := Candidates(intel.order, intel.records, home, now, distance);
    assert name in intel.order;
    var k :| 0 <= k < |intel.order| && intel.order[k] == name;
    assert Eligible(intel.records[intel.order[k]], home, now);
    var j :| 0 <= j < |c| && c[j].roomName == intel.order[k];
    x := c[j];
  }

  /** Whatever is in a list is in its sorted copy, which is best first. */
  lemma InSorted(c: seq<ScoredRoom>, x: ScoredRoom)
    requires x in c
    ensures SortedDesc(SortDesc(c)) && x in SortDesc(c)
  {
    SortDescPermutes(c);
    assert x in multiset(c);
  }

  /** No eligible room left out of the targets scores more than one kept, and one is left out only when the list is full. */
  lemma TopTargetsComplete(intel: IntelMap, home: string, maxTargets: nat, now: int, distance: string -> nat, name: string)
    requires intel.Valid()
    requires name in intel.records && Eligible(intel.records[name], home, now)
    ensures var r := TopExpansionTargets(Some(intel), home, maxTargets, now, distance);
      (forall i :: 0 <= i < |r| ==> r[i].roomName != name) ==>
        |r| == maxTargets && forall i :: 0 <= i < |r| ==> r[i].score >= Score(intel.records[name], distance(name))
  {
    var x := CandidateFor(intel, home, now, distance, name);
    InSorted(Candidates(intel.order, intel.records, home, now, distance), x);
    LeftOutOfPrefix(SortDesc(Candidates(intel.order, intel.records, home, now, distance)), maxTargets, x);
  }

  predicate DistinctNames(s: seq<ScoredRoom>)
  {
    forall i, j :: 0 <= i < j < |s| ==> s[i].roomName != s[j].roomName
  }

  lemma {:induction false} CandidatesDistinct(names: seq<string>, records: map<string, RoomIntel>, home: string, now: int, distance: string -> nat)
    requires forall i :: 0 <= i < |names| ==> names[i] in records
    requires forall i, j :: 0 <= i < j < |names| ==> names[i] != names[j]
    ensures DistinctNames(Candidates(names, records, home, now, distance))
  {
    if |names| > 0 {
      var init := names[..|names| - 1];
      CandidatesDistinct(init, records, home, now, distance);
      var c0 := Candidates(init, records, home, now, distance);
      assert forall k :: 0 <= k < |c0| ==> c0[k].roomName != names[|names| - 1];
    }
  }

  lemma {:induction false} InsertDescDistinct(x: ScoredRoom, s: seq<ScoredRoom>)
    requires DistinctNames(s) && forall k :: 0 <= k < |s| ==> s[k].roomName != x.roomName
    ensures DistinctNames(InsertDesc(x, s))
  {
    if |s| > 0 && s[0].score >= x.score {
      var rest := InsertDesc(x, s[1..]);
      InsertDescDistinct(x, s[1..]);
      InsertDescMultiset(x, s[1..]);
      forall k | 0 <= k < |rest|
        ensures rest[k].roomName != s[0].roomName
      {
        assert rest[k] in multiset(rest);
        if rest[k] != x {
          assert rest[k] in multiset(s[1..]);
          var m :| 0 <= m < |s[1..]| && s[1..][m] == rest[k];
          assert s[m + 1] == rest[k];
        }
      }
      assert InsertDesc(x, s) == [s[0]] + rest;
    }
  }

  lemma {:induction false} SortDescDistinct(s: seq<ScoredRoom>)
    requires DistinctNames(s)
    ensures DistinctNames(SortDesc(s))
  {
    if |s| > 0 {
      var init := s[..|s| - 1];
      var last := s[|s| - 1];
      SortDescDistinct(init);
      SortDescPermutes(init);
      var sorted := SortDesc(init);
      forall k | 0 <= k < |sorted|
        ensures sorted[k].roomName != last.roomName
      {
        assert sorted[k] in multiset(init);
        var m :| 0 <= m < |init| && init[m] == sorted[k];
        assert s[m] == sorted[k];
      }
      InsertDescDistinct(last, sorted);
    }
  }

  /** No room appears twice among the targets. */
  lemma TopTargetsDistinct(intel: IntelMap, home: string, maxTargets: nat, now: int, distance: string -> nat)
    requires intel.Valid()
    ensures DistinctNames(TopExpansionTargets(Some(intel), home, maxTargets, now, distance))
  {
    var c := Candidates(intel.order, intel.records, home, now, distance);
    CandidatesDistinct(intel.order, intel.records, home, now, distance);
    SortDescDistinct(c);
  }

  /** Rooms with equal scores come out in the order the cache enumerates them. */
  lemma TopTargetsStable(intel: IntelMap, home: string, maxTargets: nat, now: int, distance: string -> nat, v: real)
    requires intel.Valid()
    ensures var c := Candidates(intel.order, intel.records, home, now, distance);
      WithScore(SortDesc(c), v) == WithScore(c, v)
  {
    SortDescStable(Candidates(intel.order, intel.records, home, now, distance), v);
  }

  /** `shouldClaimRoom`: there is GCL room for one more owned room. */
  predicate ShouldClaim(gclLevel: nat, spawnCount: nat)
  {
    gclLevel > spawnCount
  }

  datatype ExpansionAction = Claim | Reserve | NoAction

  /** `getExpansionAction(roomName)`. */
  function ExpansionActionFor(intel: Option<IntelMap>, roomName: string, gclLevel: nat, spawnCount: nat): (a: ExpansionAction)
    ensures a == NoAction <==> intel.None? || roomName !in intel.value.records || !Viable(intel.value.records[roomName])
    ensures a == Claim <==> a != NoAction && ShouldClaim(gclLevel, spawnCount) && |intel.value.records[roomName].sources| >= 2
  {
    if intel.None? || roomName !in intel.value.records then NoAction
    else
      var room := intel.value.records[roomName];
      if !Viable(room) then NoAction
      else if ShouldClaim(gclLevel, spawnCount) && |room.sources| >= 2 then Claim
      else Reserve
  }
}
