/**
 * The anomaly detector (`identify_illegal_well_and_owner`): rank users by
 * total consumption and keep the top ten, keep their wells that are Inactive
 * or unauthorised, drop the wells that some control activity covers, and
 * report the first well left together with its owner.
 */
module Detector {
  import opened SeqUtil
  import opened Snapshot
  import opened VerificationCode

  /** The `$limit` of the ranking stage. */
  const TOP_K: nat := 10

  // ---------------------------------------------------------------------
  // Stage a: `$group` by user, `$sum` of consumption, `$sort` descending, `$limit`.

  function RecordUserIds(records: seq<ConsumptionRecord>): (ids: seq<string>)
    ensures |ids| == |records|
    ensures forall i :: 0 <= i < |ids| ==> ids[i] == records[i].userId
  {
    seq(|records|, i requires 0 <= i < |records| => records[i].userId)
  }

  /** The groups of `$group`: every user id of a record once, in order of first appearance. */
  function GroupKeys(records: seq<ConsumptionRecord>): (keys: seq<string>)
    ensures NoDups(keys)
    ensures forall u :: u in keys <==> exists r :: r in records && r.userId == u
  {
    var ids := RecordUserIds(records);
    assert forall r :: r in records ==> r.userId in ids by {
      forall r | r in records ensures r.userId in ids {
        var i :| 0 <= i < |records| && records[i] == r;
        assert ids[i] == r.userId;
      }
    }
    Distinct(ids)
  }

  /** The position of the first group with the largest total. */
  function ArgMax(pool: seq<string>, records: seq<ConsumptionRecord>): (m: nat)
    requires pool != []
    ensures m < |pool|
    ensures forall j :: 0 <= j < |pool| ==> TotalConsumption(records, pool[j]) <= TotalConsumption(records, pool[m])
    ensures forall j :: 0 <= j < m ==> TotalConsumption(records, pool[j]) < TotalConsumption(records, pool[m])
  {
    if |pool| == 1 then 0
    else
      var k := ArgMax(pool[1..], records) + 1;
      assert forall j :: 1 <= j < |pool| ==> pool[j] == pool[1..][j - 1];
      if TotalConsumption(records, pool[0]) >= TotalConsumption(records, pool[k]) then 0 else k
  }

  function RemoveAt(s: seq<string>, m: nat): (r: seq<string>)
    requires m < |s|
    ensures |r| == |s| - 1
    ensures forall x :: x in s && x != s[m] ==> x in r
    ensures forall x :: x in r ==> x in s
    ensures NoDups(s) ==> NoDups(r) && s[m] !in r
  {
    var r := s[..m] + s[m + 1..];
    assert forall i :: 0 <= i < |r| ==> r[i] == if i < m then s[i] else s[i + 1];
    assert forall x :: x in s && x != s[m] ==> x in r by {
      forall x | x in s && x != s[m] ensures x in r {
        var i :| 0 <= i < |s| && s[i] == x;
        assert r[if i < m then i else i - 1] == x;
      }
    }
    r
  }

  /**
   * The descending sort by total followed by `$limit k`. Ties are left in an
   * unspecified order by the store; here the group that appeared first wins.
   */
  function Rank(pool: seq<string>, records: seq<ConsumptionRecord>, k: nat): (top: seq<string>)
    ensures |top| == if k < |pool| then k else |pool|
    ensures RankingOf(pool, top, records)
    decreases k
  {
    if k == 0 || pool == [] then []
    else
      var m := ArgMax(pool, records);
      var rest := Rank(RemoveAt(pool, m), records, k - 1);
      RankStep(pool, m, rest, records);
      [pool[m]] + rest
  }

  /**
   * `top` lists groups of `pool` by non-increasing total, without
   * repeating a group of a duplicate-free pool, and no group left out
   * consumed more than a listed one.
   */
  predicate RankingOf(pool: seq<string>, top: seq<string>, records: seq<ConsumptionRecord>) {
    && (forall u :: u in top ==> u in pool)
    && (NoDups(pool) ==> NoDups(top))
    && (forall i, j :: 0 <= i < j < |top| ==> TotalConsumption(records, top[j]) <= TotalConsumption(records, top[i]))
    && (forall u, x :: u in top && x in pool && x !in top ==> TotalConsumption(records, x) <= TotalConsumption(records, u))
  }

  /** Putting the first largest group in front of the ranking of the others ranks the whole pool. */
  lemma RankStep(pool: seq<string>, m: nat, rest: seq<string>, records: seq<ConsumptionRecord>)
    requires m < |pool|
    requires forall j :: 0 <= j < |pool| ==> TotalConsumption(records, pool[j]) <= TotalConsumption(records, pool[m])
    requires RankingOf(RemoveAt(pool, m), rest, records)
    ensures RankingOf(pool, [pool[m]] + rest, records)
  {
    var top := [pool[m]] + rest;
    assert forall x :: x in pool ==> TotalConsumption(records, x) <= TotalConsumption(records, pool[m]) by {
      forall x | x in pool ensures TotalConsumption(records, x) <= TotalConsumption(records, pool[m]) {
        var j :| 0 <= j < |pool| && pool[j] == x;
      }
    }
    assert forall u :: u in top ==> u in pool;
    RankStepLeftOut(pool, m, rest, records);
    if NoDups(pool) {
      RankStepNoDups(pool, m, rest);
    }
    RankStepSorted(pool[m], rest, records);
  }

  /** No group left out of the extended ranking consumed more than a listed one. */
  lemma RankStepLeftOut(pool: seq<string>, m: nat, rest: seq<string>, records: seq<ConsumptionRecord>)
    requires m < |pool|
    requires forall x :: x in pool ==> TotalConsumption(records, x) <= TotalConsumption(records, pool[m])
    requires forall u, x :: u in rest && x in RemoveAt(pool, m) && x !in rest
                            ==> TotalConsumption(records, x) <= TotalConsumption(records, u)
    ensures forall u, x :: u in [pool[m]] + rest && x in pool && x !in [pool[m]] + rest
                           ==> TotalConsumption(records, x) <= TotalConsumption(records, u)
  {
    var top := [pool[m]] + rest;
    forall u, x | u in top && x in pool && x !in top
      ensures TotalConsumption(records, x) <= TotalConsumption(records, u)
    {
      if u != pool[m] {
        assert u in rest && x in RemoveAt(pool, m);
      }
    }
  }

  /** The picked group is not in the ranking of the others, so the extended ranking repeats nothing. */
  lemma RankStepNoDups(pool: seq<string>, m: nat, rest: seq<string>)
    requires m < |pool| && NoDups(pool)
    requires forall u :: u in rest ==> u in RemoveAt(pool, m)
    requires NoDups(RemoveAt(pool, m)) ==> NoDups(rest)
    ensures NoDups([pool[m]] + rest)
  {
    var top := [pool[m]] + rest;
    assert pool[m] !in rest;
    forall i, j | 0 <= i < j < |top| ensures top[i] != top[j] {
      if i > 0 {
        assert top[i] == rest[i - 1] && top[j] == rest[j - 1];
      } else {
        assert top[j] in rest;
      }
    }
  }

  /** A group at least as large as every group of a sorted ranking can go in front of it. */
  lemma RankStepSorted(first: string, rest: seq<string>, records: seq<ConsumptionRecord>)
    requires forall u :: u in rest ==> TotalConsumption(records, u) <= TotalConsumption(records, first)
    requires forall i, j :: 0 <= i < j < |rest| ==> TotalConsumption(records, rest[j]) <= TotalConsumption(records, rest[i])
    ensures var top := [first] + rest;
      forall i, j :: 0 <= i < j < |top| ==> TotalConsumption(records, top[j]) <= TotalConsumption(records, top[i])
  {
    var top := [first] + rest;
    forall i, j | 0 <= i < j < |top|
      ensures TotalConsumption(records, top[j]) <= TotalConsumption(records, top[i])
    {
      if i > 0 {
        assert top[i] == rest[i - 1] && top[j] == rest[j - 1];
      } else {
        assert top[j] in rest;
      }
    }
  }

  /** A duplicate-free pool no larger than the limit is ranked whole. */
  lemma RankKeepsSmallPool(pool: seq<string>, records: seq<ConsumptionRecord>, k: nat)
    requires |pool| <= k && NoDups(pool)
    ensures forall x :: x in pool ==> x in Rank(pool, records, k)
  {
    var top := Rank(pool, records, k);
    forall x | x in pool ensures x in top {
      if x !in top {
        var i :| 0 <= i < |pool| && pool[i] == x;
        var others := RemoveAt(pool, i);
        assert forall u :: u in top ==> u in others;
        NoDupsSubsetLength(top, others);
        assert false;
      }
    }
  }

  /** A group whose total exceeds every other group's heads the ranking. */
  lemma RankedFirst(pool: seq<string>, records: seq<ConsumptionRecord>, k: nat, x: string)
    requires k >= 1 && x in pool
    requires forall y :: y in pool && y != x ==> TotalConsumption(records, y) < TotalConsumption(records, x)
    ensures Rank(pool, records, k) != [] && Rank(pool, records, k)[0] == x
  {
    var m := ArgMax(pool, records);
    var i :| 0 <= i < |pool| && pool[i] == x;
    assert TotalConsumption(records, pool[i]) <= TotalConsumption(records, pool[m]);
    assert Rank(pool, records, k) == [pool[m]] + Rank(RemoveAt(pool, m), records, k - 1);
  }

  /** The user ids of the `TOP_K` largest consumers, largest first. */
  function TopConsumers(records: seq<ConsumptionRecord>): seq<string> {
    Rank(GroupKeys(records), records, TOP_K)
  }

  /** When the consumers fit in a list of at most `TOP_K` ids, every consumer is a top consumer. */
  lemma FewConsumersAllRanked(records: seq<ConsumptionRecord>, ids: seq<string>)
    requires |ids| <= TOP_K
    requires forall r :: r in records ==> r.userId in ids
    ensures forall r :: r in records ==> r.userId in TopConsumers(records)
  {
    var pool := GroupKeys(records);
    NoDupsSubsetLength(pool, ids);
    RankKeepsSmallPool(pool, records, TOP_K);
  }

  // ---------------------------------------------------------------------
  // Stage b: suspect wells.

  /** An Inactive well, or one with no authorization date. */
  predicate SuspectKind(w: Well) {
    w.status == Inactive || w.authorizationDate.None?
  }

  /** The wells of the top consumers that are Inactive or unauthorised, in collection order. */
  function SuspectWells(v: Village): (r: seq<Well>)
    ensures forall w :: w in r <==> && w in v.wells && w.ownerUserId in TopConsumers(v.consumption)
                                    && SuspectKind(w)
  {
    var top := TopConsumers(v.consumption);
    Filter(v.wells, (w: Well) => w.ownerUserId in top && SuspectKind(w))
  }

  /** The id of every well, in order. */
  function WellIds(wells: seq<Well>): seq<string> {
    Map(wells, (w: Well) => w.wellId)
  }

  // ---------------------------------------------------------------------
  // Stage c: drop the wells some control activity covers.

  /** Some control activity refers to the well (`find_one({'well_id': ...})` finds one). */
  predicate Monitored(activities: seq<ControlActivity>, wellId: string)
    ensures Monitored(activities, wellId) <==> exists a :: a in activities && a.wellId == wellId
  {
    activities != [] && (activities[0].wellId == wellId || Monitored(activities[1..], wellId))
  }

  /** The ids among `ids` that no control activity refers to, in order. */
  function Unmonitored(ids: seq<string>, activities: seq<ControlActivity>): seq<string> {
    Filter(ids, (id: string) => !Monitored(activities, id))
  }

  // ---------------------------------------------------------------------
  // Stage d: report.

  datatype Detection =
    | NoSuspectWells
    | NoIllegalWell
      /** The reported well's owner is not in the users collection; the detector then stops with an error, subscripting `None` for the owner's name (`data_validation.py`:232-234). */
    | OwnerNotFound(well: Well)
    | Identified(well: Well, owner: User, code: string)

  /** Looks up the owner of the reported well and derives the verification code from the owner's name. */
  function Report(v: Village, well: Well): (d: Detection)
    ensures d.OwnerNotFound? || d.Identified?
    ensures d.well == well
    ensures d.Identified? ==> d.owner in v.users && d.owner.userId == well.ownerUserId
                              && d.code == ExtractFirstSyllable(d.owner.name)
    ensures d.OwnerNotFound? <==> forall u :: u in v.users ==> u.userId != well.ownerUserId
  {
    match FindFirst(v.users, (u: User) => u.userId == well.ownerUserId)
    case None => OwnerNotFound(well)
    case Some(owner) => Identified(well, owner, ExtractFirstSyllable(owner.name))
  }

  /** `find_one({'well_id': wellId})` for an id that some well carries. */
  function FindWell(wells: seq<Well>, wellId: string): (w: Well)
    requires exists x :: x in wells && x.wellId == wellId
    ensures w in wells && w.wellId == wellId
    ensures UniqueWellIds(wells) ==> forall x :: x in wells && x.wellId == wellId ==> x == w
  {
    var found := FindFirst(wells, (x: Well) => x.wellId == wellId);
    var w := found.value;
    assert UniqueWellIds(wells) ==> forall x :: x in wells && x.wellId == wellId ==> x == w by {
      if UniqueWellIds(wells) {
        forall x | x in wells && x.wellId == wellId ensures x == w {
          var i :| 0 <= i < |wells| && wells[i] == x;
          var j :| 0 <= j < |wells| && wells[j] == w;
          assert i == j;
        }
      }
    }
    w
  }

  /** The whole pipeline as written: the first suspect well, in collection order, that no activity covers. */
  function Detect(v: Village): Detection {
    var suspects := SuspectWells(v);
    if suspects == [] then NoSuspectWells
    else
      var unmonitored := Unmonitored(WellIds(suspects), v.activities);
      if unmonitored == [] then NoIllegalWell
      else
        UnmonitoredIdIsAWell(v, unmonitored[0]);
        Report(v, FindWell(v.wells, unmonitored[0]))
  }

  lemma UnmonitoredIdIsAWell(v: Village, id: string)
    requires id in Unmonitored(WellIds(SuspectWells(v)), v.activities)
    ensures exists x :: x in v.wells && x.wellId == id
  {
    var suspects := SuspectWells(v);
    var i :| 0 <= i < |WellIds(suspects)| && WellIds(suspects)[i] == id;
    assert suspects[i] in suspects;
  }

  /** Stage c as a loop: keep, in order, the ids no control activity refers to. */
  method CollectUnmonitored(ids: seq<string>, activities: seq<ControlActivity>) returns (unmonitored: seq<string>)
    ensures unmonitored == Unmonitored(ids, activities)
  {
    unmonitored := [];
    for i := 0 to |ids|
      invariant unmonitored == Unmonitored(ids[..i], activities)
    {
      if !Monitored(activities, ids[i]) {
        unmonitored := unmonitored + [ids[i]];
      }
      assert ids[..i + 1] == ids[..i] + [ids[i]];
      FilterConcat(ids[..i], [ids[i]], (id: string) => !Monitored(activities, id));
    }
    assert ids[..|ids|] == ids;
  }

  /** `identify_illegal_well_and_owner`. */
  method IdentifyIllegalWellAndOwner(v: Village) returns (d: Detection)
    ensures d == Detect(v)
  {
    var suspects := SuspectWells(v);
    if suspects == [] {
      return NoSuspectWells;
    }
    var unmonitored := CollectUnmonitored(WellIds(suspects), v.activities);
    if unmonitored == [] {
      return NoIllegalWell;
    }
    UnmonitoredIdIsAWell(v, unmonitored[0]);
    var well := FindWell(v.wells, unmonitored[0]);
    d := Report(v, well);
  }

  /** The position, from `from` on, of the first suspect well no activity covers; `|suspects|` when all are covered. */
  function FirstUnmonitored(suspects: seq<Well>, activities: seq<ControlActivity>, from: nat): (k: nat)
    requires from <= |suspects|
    ensures from <= k <= |suspects|
    ensures forall j :: from <= j < k ==> Monitored(activities, suspects[j].wellId)
    ensures k < |suspects| ==> !Monitored(activities, suspects[k].wellId)
    decreases |suspects| - from
  {
    if from == |suspects| || !Monitored(activities, suspects[from].wellId) then from
    else FirstUnmonitored(suspects, activities, from + 1)
  }

  /** The list built in stage c starts with the id of the first unmonitored suspect well, and is empty when there is none. */
  lemma UnmonitoredStartsAtFirst(suspects: seq<Well>, activities: seq<ControlActivity>)
    ensures var unmonitored, k := Unmonitored(WellIds(suspects), activities), FirstUnmonitored(suspects, activities, 0);
            && (unmonitored == [] <==> k == |suspects|)
            && (unmonitored != [] ==> k < |suspects| && unmonitored[0] == suspects[k].wellId)
  {
    var ids := WellIds(suspects);
    var p := (id: string) => !Monitored(activities, id);
    var unmonitored := Unmonitored(ids, activities);
    var k := FirstUnmonitored(suspects, activities, 0);
    if k < |suspects| {
      assert ids[k] in ids && p(ids[k]);
      assert ids[k] in unmonitored;
    }
    if unmonitored != [] {
      FilterHead(ids, p);
      var i :| 0 <= i < |ids| && ids[i] == unmonitored[0] && p(ids[i]) && forall j :: 0 <= j < i ==> !p(ids[j]);
      assert k == i;
    }
  }

  /**
   * What the detector promises: "no suspects" exactly when no top consumer
   * owns a suspect well, "no illegal well" exactly when every suspect well is
   * covered, and otherwise the first uncovered suspect well in collection order.
   */
  lemma DetectionSound(v: Village)
    ensures Detect(v).NoSuspectWells? <==> SuspectWells(v) == []
    ensures Detect(v).NoIllegalWell? <==>
      SuspectWells(v) != [] && FirstUnmonitored(SuspectWells(v), v.activities, 0) == |SuspectWells(v)|
    ensures Detect(v).OwnerNotFound? || Detect(v).Identified? ==>
      var w, suspects := Detect(v).well, SuspectWells(v);
      var k := FirstUnmonitored(suspects, v.activities, 0);
      && k < |suspects| && w in v.wells && w.wellId == suspects[k].wellId
      && !Monitored(v.activities, w.wellId)
      && (UniqueWellIds(v.wells) ==> w == suspects[k])
  {
    var suspects := SuspectWells(v);
    UnmonitoredStartsAtFirst(suspects, v.activities);
    var k := FirstUnmonitored(suspects, v.activities, 0);
    if suspects != [] && k < |suspects| {
      assert suspects[k] in suspects;
    }
  }

  // ---------------------------------------------------------------------
  // The detector with the tie-break the ranking calls for (see README, Findings).

  /** The suspect wells of user `userId` that no control activity covers, in collection order. */
  function UnmonitoredSuspectsOf(v: Village, userId: string): (r: seq<Well>)
    ensures forall w :: w in r <==> && w in v.wells && w.ownerUserId == userId
                                    && SuspectKind(w) && !Monitored(v.activities, w.wellId)
  {
    Filter(v.wells, (w: Well) => w.ownerUserId == userId && SuspectKind(w) && !Monitored(v.activities, w.wellId))
  }

  /** The position, from `from` on, of the first user in `ranked` with an unmonitored suspect well; `|ranked|` when there is none. */
  function FirstFlaggedRank(v: Village, ranked: seq<string>, from: nat): (i: nat)
    requires from <= |ranked|
    ensures from <= i <= |ranked|
    ensures forall j :: from <= j < i ==> UnmonitoredSuspectsOf(v, ranked[j]) == []
    ensures i < |ranked| ==> UnmonitoredSuspectsOf(v, ranked[i]) != []
    decreases |ranked| - from
  {
    if from == |ranked| || UnmonitoredSuspectsOf(v, ranked[from]) != [] then from
    else FirstFlaggedRank(v, ranked, from + 1)
  }

  /** The first unmonitored suspect well of the highest-ranked user in `ranked` that has one. */
  function FirstByRank(v: Village, ranked: seq<string>): Option<Well> {
    var i := FirstFlaggedRank(v, ranked, 0);
    if i == |ranked| then None else Some(UnmonitoredSuspectsOf(v, ranked[i])[0])
  }

  /** Ranked detection: the unmonitored suspect well of the largest consumer that has one. */
  function DetectByRank(v: Village): Detection {
    if SuspectWells(v) == [] then NoSuspectWells
    else
      match FirstByRank(v, TopConsumers(v.consumption))
      case None => NoIllegalWell
      case Some(w) => Report(v, w)
  }

  /** Some top consumer has an unmonitored suspect well exactly when some suspect well is unmonitored. */
  lemma SomeRankedUserHasUnmonitoredSuspect(v: Village)
    ensures (exists j :: 0 <= j < |TopConsumers(v.consumption)| && UnmonitoredSuspectsOf(v, TopConsumers(v.consumption)[j]) != [])
            <==> exists w :: w in SuspectWells(v) && !Monitored(v.activities, w.wellId)
  {
    var top := TopConsumers(v.consumption);
    var suspects := SuspectWells(v);
    if j :| 0 <= j < |top| && UnmonitoredSuspectsOf(v, top[j]) != [] {
      var w := UnmonitoredSuspectsOf(v, top[j])[0];
      assert w in UnmonitoredSuspectsOf(v, top[j]);
      assert w in suspects;
    }
    if w :| w in suspects && !Monitored(v.activities, w.wellId) {
      var j :| 0 <= j < |top| && top[j] == w.ownerUserId;
      assert w in UnmonitoredSuspectsOf(v, top[j]);
    }
  }

  lemma FlaggedRankFound(v: Village, ranked: seq<string>)
    ensures FirstFlaggedRank(v, ranked, 0) < |ranked| <==>
            exists j :: 0 <= j < |ranked| && UnmonitoredSuspectsOf(v, ranked[j]) != []
  {}

  lemma FirstUnmonitoredFound(suspects: seq<Well>, activities: seq<ControlActivity>)
    ensures FirstUnmonitored(suspects, activities, 0) < |suspects| <==>
            exists w :: w in suspects && !Monitored(activities, w.wellId)
  {
    var k := FirstUnmonitored(suspects, activities, 0);
    if k < |suspects| {
      assert suspects[k] in suspects;
    }
  }

  /** Ranked detection: "not found" under the same conditions as the detector as written, and otherwise an uncovered suspect well of the highest-ranked user that has one. */
  lemma DetectByRankSound(v: Village)
    ensures DetectByRank(v).NoSuspectWells? <==> SuspectWells(v) == []
    ensures DetectByRank(v).NoIllegalWell? <==>
      SuspectWells(v) != [] && FirstUnmonitored(SuspectWells(v), v.activities, 0) == |SuspectWells(v)|
    ensures DetectByRank(v).OwnerNotFound? || DetectByRank(v).Identified? ==>
      var w, top := DetectByRank(v).well, TopConsumers(v.consumption);
      var i := FirstFlaggedRank(v, top, 0);
      && w in v.wells && SuspectKind(w) && !Monitored(v.activities, w.wellId)
      && i < |top| && top[i] == w.ownerUserId
      && forall j :: 0 <= j < i ==> UnmonitoredSuspectsOf(v, top[j]) == []
  {
    var top := TopConsumers(v.consumption);
    var suspects := SuspectWells(v);
    FlaggedRankFound(v, top);
    FirstUnmonitoredFound(suspects, v.activities);
    SomeRankedUserHasUnmonitoredSuspect(v);
    var i := FirstFlaggedRank(v, top, 0);
    if i < |top| {
      assert UnmonitoredSuspectsOf(v, top[i])[0] in UnmonitoredSuspectsOf(v, top[i]);
    }
  }

  /** Both detectors report "no suspect wells" and "no illegal well" on exactly the same snapshots. */
  lemma DetectorsAgreeWhenNothingFound(v: Village)
    ensures DetectByRank(v).NoSuspectWells? <==> Detect(v).NoSuspectWells?
    ensures DetectByRank(v).NoIllegalWell? <==> Detect(v).NoIllegalWell?
  {
    DetectionSound(v);
    DetectByRankSound(v);
  }

  /**
   * When the largest consumer owns exactly one well and that well is an
   * unmonitored suspect, the ranked detector reports it.
   */
  lemma DetectByRankTopOwner(v: Village, w: Well)
    requires var top := TopConsumers(v.consumption); top != [] && top[0] == w.ownerUserId
    requires w in v.wells && SuspectKind(w) && !Monitored(v.activities, w.wellId)
    requires forall x :: x in v.wells && x.ownerUserId == w.ownerUserId ==> x == w
    ensures DetectByRank(v) == Report(v, w)
  {
    var top := TopConsumers(v.consumption);
    assert w in SuspectWells(v);
    var flagged := UnmonitoredSuspectsOf(v, top[0]);
    assert w in flagged;
    assert FirstFlaggedRank(v, top, 0) == 0;
    assert flagged[0] in flagged;
  }
}
