/**
 * What the validator and the detector conclude about the data the generator
 * writes: the generated village passes every date and integrity check, its
 * coverage passes for exactly the legal-well counts where nine tenths rounded
 * down lands in the 85-95% band, its planted owner ranks first, and the
 * ranked detector identifies the planted well while the detector as written
 * can report a legal well instead.
 */
module EndToEnd {
  import opened SeqUtil
  import opened Snapshot
  import opened Checks
  import opened Detector
  import opened Generator
  import opened VerificationCode

  /** The planted well is generated, is the only unauthorized well and the only well of its owner, and every well is dated in order. */
  lemma GeneratedWells(d: VillageDraws, weeks: nat, now: int)
    requires Generated(d, weeks, now)
    ensures var wells, planted := WellsOf(d, now), IllegalWellOf(d);
      && planted in wells
      && Filter(wells, Unauthorized) == [planted]
      && Filter(wells, OwnedBy(IllegalUserOf(d).userId)) == [planted]
      && forall w :: w in wells ==> WellShaped(w, UsersOf(d), planted, now)
  {
    var users, c := UsersOf(d), d.illegalChoice;
    var wells, planted := WellsOf(d, now), IllegalWellOf(d);
    PlannedWellsShape(users, users[c], planted, d.wells, now);
    UnauthorizedPlannedWells(users, users[c], planted, d.wells, now, c);
    OwnedPlannedWells(users, users[c], planted, d.wells, now, c);
    assert planted in Filter(wells, Unauthorized);
  }

  /** Generated wells pass the status-change ordering check. */
  lemma GeneratedStatusChangesPass(d: VillageDraws, weeks: nat, now: int)
    requires Generated(d, weeks, now)
    ensures CheckLastStatusChangeDates(WellsOf(d, now)).Pass?
  {
    GeneratedWells(d, weeks, now);
    ShapedWellsPass(WellsOf(d, now), UsersOf(d), IllegalWellOf(d), now);
  }

  /** No generated well carries a date after `now`. */
  lemma GeneratedWellDatesPass(d: VillageDraws, weeks: nat, now: int)
    requires Generated(d, weeks, now)
    ensures CheckDatesInFutureInRegisteredWells(WellsOf(d, now), now).Pass?
  {
    GeneratedWells(d, weeks, now);
    ShapedWellsPass(WellsOf(d, now), UsersOf(d), IllegalWellOf(d), now);
  }

  /** No generated user is registered after `now`. */
  lemma GeneratedRegistrationsPass(d: VillageDraws, weeks: nat, now: int)
    requires Generated(d, weeks, now)
    ensures CheckFutureUserRegistrationDates(UsersOf(d), now).Pass?
  {
    UsersNotInFuture(d.users, now);
  }

  /** Wells shaped as the generator writes them pass both well date checks. */
  lemma ShapedWellsPass(wells: seq<Well>, users: seq<User>, planted: Well, now: int)
    requires planted.lastStatusChange.None?
    requires forall w :: w in wells ==> WellShaped(w, users, planted, now)
    ensures CheckLastStatusChangeDates(wells).Pass?
    ensures CheckDatesInFutureInRegisteredWells(wells, now).Pass?
  {
    forall w | w in wells
      ensures (w.lastStatusChange.Some? ==> w.lastStatusChange.value <= now)
              && (w.authorizationDate.Some? ==> w.authorizationDate.value <= now)
    {
      assert WellShaped(w, users, planted, now);
    }
  }

  /**
   * Each generated activity controls the sampled legal well, never the planted one, and is dated
   * between the well's last status change and `now`, strictly after the change when it lies a day or more before `now`.
   */
  lemma GeneratedActivities(d: VillageDraws, weeks: nat, now: int)
    requires Generated(d, weeks, now)
    ensures var activities, legal := ActivitiesOf(d, now), LegalWellsOfVillage(d, now);
      forall k :: 0 <= k < |activities| ==>
        var well := legal[d.activities[k].position];
        var change := well.lastStatusChange.value;
        && well in WellsOf(d, now)
        && activities[k].wellId == well.wellId != IllegalWellOf(d).wellId
        && change <= activities[k].date <= now
        && (DaysBetween(now, change) > 0 ==> change < activities[k].date)
  {
    var wells, planted, legal := WellsOf(d, now), IllegalWellOf(d), LegalWellsOfVillage(d, now);
    ActivitiesDated(wells, planted, d.activities, now);
    GeneratedWells(d, weeks, now);
    forall k | 0 <= k < |ActivitiesOf(d, now)|
      ensures legal[d.activities[k].position].lastStatusChange.value <= now
    {
      assert WellShaped(legal[d.activities[k].position], UsersOf(d), planted, now);
    }
  }

  /** No generated activity is dated after `now`. */
  lemma GeneratedActivitiesNotInFuture(d: VillageDraws, weeks: nat, now: int)
    requires Generated(d, weeks, now)
    ensures forall a :: a in ActivitiesOf(d, now) ==> a.date <= now
  {
    var activities := ActivitiesOf(d, now);
    GeneratedActivities(d, weeks, now);
    forall a | a in activities ensures a.date <= now {
      var k :| 0 <= k < |activities| && activities[k] == a;
    }
  }

  /** No generated activity controls the planted well. */
  lemma GeneratedActivitiesAvoidPlanted(d: VillageDraws, weeks: nat, now: int)
    requires Generated(d, weeks, now)
    ensures forall a :: a in ActivitiesOf(d, now) ==> a.wellId != IllegalWellOf(d).wellId
  {
    var activities := ActivitiesOf(d, now);
    GeneratedActivities(d, weeks, now);
    forall a | a in activities ensures a.wellId != IllegalWellOf(d).wellId {
      var k :| 0 <= k < |activities| && activities[k] == a;
    }
  }

  /** The generator never controls the planted well, so the illegal-well check finds it and passes. */
  lemma GeneratedIllegalWellUncontrolled(d: VillageDraws, weeks: nat, now: int)
    requires Generated(d, weeks, now)
    ensures FindIllegalWell(WellsOf(d, now)) == Some(IllegalWellOf(d))
    ensures CheckNoControlActivitiesForIllegalWell(WellsOf(d, now), ActivitiesOf(d, now)).Pass?
  {
    var wells, planted := WellsOf(d, now), IllegalWellOf(d);
    GeneratedWells(d, weeks, now);
    GeneratedActivitiesAvoidPlanted(d, weeks, now);
    FilterAgree(wells, (w: Well) => w.authorizationDate.None?, Unauthorized);
    assert FindIllegalWell(wells) == Some(planted);
  }

  /** Every activity of the generated data is dated no earlier than its well's last status change. */
  lemma GeneratedActivityDatesPass(d: VillageDraws, weeks: nat, now: int)
    requires Generated(d, weeks, now)
    ensures CheckControlActivityDates(ActivitiesOf(d, now), WellsOf(d, now)).Pass?
  {
    var wells, activities, legal := WellsOf(d, now), ActivitiesOf(d, now), LegalWellsOfVillage(d, now);
    GeneratedActivities(d, weeks, now);
    forall a, w | a in activities && w in wells && w.wellId == a.wellId && w.lastStatusChange.Some?
      ensures w.lastStatusChange.value <= a.date
    {
      var k :| 0 <= k < |activities| && activities[k] == a;
      var well := legal[d.activities[k].position];
      SameIdSameWell(wells, w, well);
    }
  }

  /** Generated activities are also never dated after `now`, so they pass the activity-date check as announced. */
  lemma GeneratedActivityDatesPassUntil(d: VillageDraws, weeks: nat, now: int)
    requires Generated(d, weeks, now)
    ensures CheckControlActivityDatesUntil(ActivitiesOf(d, now), WellsOf(d, now), now).Pass?
  {
    GeneratedActivityDatesPass(d, weeks, now);
    GeneratedActivitiesNotInFuture(d, weeks, now);
    DatesUntilRefinesDates(ActivitiesOf(d, now), WellsOf(d, now), now);
  }

  /** With distinct well ids, two wells of the collection with the same id are the same well. */
  lemma SameIdSameWell(wells: seq<Well>, a: Well, b: Well)
    requires UniqueWellIds(wells) && a in wells && b in wells && a.wellId == b.wellId
    ensures a == b
  {
    var i :| 0 <= i < |wells| && wells[i] == a;
    var j :| 0 <= j < |wells| && wells[j] == b;
    assert i == j;
  }

  /**
   * Nine tenths of `legal`, rounded down, lies in the 85-95% band exactly
   * for 7 to 10 legal wells and for 14 or more.
   */
  lemma SampleCoverage(legal: nat)
    ensures (legal > 0 && 85 * legal <= 100 * NumActivities(legal) <= 95 * legal)
            <==> (7 <= legal <= 10 || 14 <= legal)
  {
    var n := NumActivities(legal);
    if legal >= 18 {
      assert 9 * legal < 10 * n + 10;
    } else if 0 < legal < 7 {
      assert 100 * n < 85 * legal by {
        if legal == 1 { assert n == 0; }
        else if legal == 2 { assert n == 1; }
        else if legal == 3 { assert n == 2; }
        else if legal == 4 { assert n == 3; }
        else if legal == 5 { assert n == 4; }
        else { assert n == 5; }
      }
    } else if 10 < legal < 14 {
      assert 100 * n < 85 * legal by {
        if legal == 11 { assert n == 9; }
        else if legal == 12 { assert n == 10; }
        else { assert n == 11; }
      }
    }
  }

  /** On generated data, the wells with an authorization date are exactly the wells other than the planted one. */
  lemma GeneratedLegalWellCount(d: VillageDraws, weeks: nat, now: int)
    requires Generated(d, weeks, now)
    ensures LegalWellCount(WellsOf(d, now)) == |LegalWellsOfVillage(d, now)|
  {
    var wells, planted := WellsOf(d, now), IllegalWellOf(d);
    GeneratedWells(d, weeks, now);
    forall w | w in wells ensures w.authorizationDate.Some? <==> w.wellId != planted.wellId {
      assert WellShaped(w, UsersOf(d), planted, now);
      if w.wellId == planted.wellId {
        SameIdSameWell(wells, w, planted);
      }
    }
    FilterAgree(wells, (w: Well) => w.authorizationDate.Some?, (w: Well) => w.wellId != planted.wellId);
  }

  /** Generated activities control distinct wells, as many as nine tenths of the legal wells rounded down. */
  lemma GeneratedCoveredCount(d: VillageDraws, weeks: nat, now: int)
    requires Generated(d, weeks, now)
    ensures CoveredWellCount(ActivitiesOf(d, now)) == NumActivities(|LegalWellsOfVillage(d, now)|)
  {
    var activities := ActivitiesOf(d, now);
    ActivityWellsDistinct(WellsOf(d, now), IllegalWellOf(d), d.activities, now);
    var ids := ActivityWellIds(activities);
    assert NoDups(ids);
    DistinctOfNoDups(ids);
  }

  /**
   * The coverage check passes on generated data exactly when the number of
   * legal wells is between 7 and 10 or at least 14.
   */
  lemma GeneratedCoverage(d: VillageDraws, weeks: nat, now: int)
    requires Generated(d, weeks, now)
    ensures var legal := |LegalWellsOfVillage(d, now)|;
      CheckControlActivitiesCoverage(WellsOf(d, now), ActivitiesOf(d, now)).Pass?
      <==> (7 <= legal <= 10 || 14 <= legal)
  {
    GeneratedLegalWellCount(d, weeks, now);
    GeneratedCoveredCount(d, weeks, now);
    SampleCoverage(|LegalWellsOfVillage(d, now)|);
  }

  /** Every consumption group is a user, and every user with readings forms a group. */
  lemma GeneratedGroups(d: VillageDraws, weeks: nat, now: int)
    requires Generated(d, weeks, now) && weeks >= 1
    ensures var users, pool := UsersOf(d), GroupKeys(ConsumptionOf(d, now));
      && (forall x :: x in pool ==> exists j :: 0 <= j < |users| && users[j].userId == x)
      && forall j :: 0 <= j < |users| ==> users[j].userId in pool
  {
    PlannedGroups(UsersOf(d), IllegalUserOf(d), d.consumption, SeriesStart(now), weeks);
  }

  /** With at least one week of readings for everyone, the group keys of the planned consumption are the user ids. */
  lemma PlannedGroups(users: seq<User>, illegalUser: User, draws: seq<ConsumptionDraw>, start: int, weeks: nat)
    requires |draws| == |users| && weeks >= 1
    requires forall j :: 0 <= j < |draws| ==> |draws[j].weeks| == weeks
    ensures var pool := GroupKeys(PlannedConsumption(users, illegalUser, draws, start, |users|));
      && (forall x :: x in pool ==> exists j :: 0 <= j < |users| && users[j].userId == x)
      && forall j :: 0 <= j < |users| ==> users[j].userId in pool
  {
    PlannedConsumptionOwners(users, illegalUser, draws, start, |users|);
    assert forall j :: 0 <= j < |users| ==> draws[j].weeks != [];
  }

  /**
   * With at least one week of readings, the planted well's owner heads the
   * ranking of consumers.
   */
  lemma IllegalUserRankedFirst(d: VillageDraws, weeks: nat, now: int)
    requires Generated(d, weeks, now) && weeks >= 1
    ensures var top := TopConsumers(ConsumptionOf(d, now));
            top != [] && top[0] == IllegalUserOf(d).userId
  {
    var users, c, records := UsersOf(d), d.illegalChoice, ConsumptionOf(d, now);
    var id := users[c].userId;
    GeneratedGroups(d, weeks, now);
    IllegalUserConsumesMost(users, users[c], d.consumption, SeriesStart(now), weeks, c);
    var pool := GroupKeys(records);
    forall x | x in pool && x != id ensures TotalConsumption(records, x) < TotalConsumption(records, id) {
      var j :| 0 <= j < |users| && users[j].userId == x;
    }
    RankedFirst(pool, records, TOP_K, id);
  }

  /** With distinct user ids, the user of the collection carrying an id is the one at that id's position. */
  lemma SameIdSameUser(users: seq<User>, u: User, i: nat)
    requires UniqueUserIds(users) && i < |users| && u in users && u.userId == users[i].userId
    ensures u == users[i]
  {
    var j :| 0 <= j < |users| && users[j] == u;
    assert i == j;
  }

  /**
   * On generated data with at least one week of readings, the ranked
   * detector identifies the planted well, its owner, and the code derived
   * from the owner's name.
   */
  lemma DetectByRankFindsPlantedWell(d: VillageDraws, weeks: nat, now: int)
    requires Generated(d, weeks, now) && weeks >= 1
    ensures var owner := IllegalUserOf(d);
      DetectByRank(PlannedVillage(d, weeks, now))
      == Identified(IllegalWellOf(d), owner, ExtractFirstSyllable(owner.name))
  {
    var v := PlannedVillage(d, weeks, now);
    var planted, owner := IllegalWellOf(d), IllegalUserOf(d);
    IllegalUserRankedFirst(d, weeks, now);
    GeneratedWells(d, weeks, now);
    GeneratedActivitiesAvoidPlanted(d, weeks, now);
    assert !Monitored(v.activities, planted.wellId);
    forall x | x in v.wells && x.ownerUserId == planted.ownerUserId ensures x == planted {
      assert x in Filter(v.wells, OwnedBy(owner.userId));
    }
    DetectByRankTopOwner(v, planted);
    var report := Detector.Report(v, planted);
    assert owner in v.users;
    SameIdSameUser(v.users, report.owner, d.illegalChoice);
  }

  // ---------------------------------------------------------------------
  // The detector as written, on a two-user village.

  /** The first user's single well, written before the planted one. */
  function FirstLegalWell(d: VillageDraws, now: int): Well
    requires |d.users| >= 1 && |d.wells| >= 1 && |d.wells[0]| >= 1
  {
    LegalWell(UsersOf(d)[0].userId, d.wells[0][0], now)
  }

  /** With two users, the second one planted and the first owning one well, the run writes that well, the planted one, and no activity. */
  lemma TwoUserVillage(d: VillageDraws, weeks: nat, now: int)
    requires Generated(d, weeks, now)
    requires |d.users| == 2 && d.illegalChoice == 1 && |d.wells[0]| == 1
    ensures WellsOf(d, now) == [FirstLegalWell(d, now), IllegalWellOf(d)]
    ensures FirstLegalWell(d, now).wellId != IllegalWellOf(d).wellId
    ensures ActivitiesOf(d, now) == []
  {
    var users, planted, legal0 := UsersOf(d), IllegalWellOf(d), FirstLegalWell(d, now);
    assert users[0].userId != users[1].userId;
    var blocks := WellBlocks(users, users[1], planted, d.wells, now);
    assert blocks[0] == [legal0];
    assert blocks[1] == [planted];
    assert Flatten(blocks[1..]) == [planted] + Flatten(blocks[2..]);
    var wells := WellsOf(d, now);
    assert wells == [legal0, planted];
    assert legal0.wellId != planted.wellId by {
      assert wells[0] != wells[1];
    }
    var p := (w: Well) => w.wellId != planted.wellId;
    assert Filter([planted], p) == [] by {
      assert [planted][1..] == [];
    }
    assert Filter(wells, p) == [legal0] + Filter([planted], p) by {
      assert wells[1..] == [planted];
    }
    assert LegalWellsOfVillage(d, now) == Filter(wells, p);
  }

  /** When the consumers are exactly the users of a village of at most `TOP_K` users, every user is a top consumer. */
  lemma FewUsersAllRanked(users: seq<User>, records: seq<ConsumptionRecord>)
    requires |users| <= TOP_K
    requires forall x :: x in GroupKeys(records) ==> exists j :: 0 <= j < |users| && users[j].userId == x
    requires forall j :: 0 <= j < |users| ==> users[j].userId in GroupKeys(records)
    ensures forall u :: u in users ==> u.userId in TopConsumers(records)
  {
    var ids := seq(|users|, j requires 0 <= j < |users| => users[j].userId);
    forall r | r in records ensures r.userId in ids {
      assert r.userId in GroupKeys(records);
      var j :| 0 <= j < |users| && users[j].userId == r.userId;
      assert ids[j] == r.userId;
    }
    FewConsumersAllRanked(records, ids);
    forall u | u in users ensures u.userId in TopConsumers(records) {
      var j :| 0 <= j < |users| && users[j] == u;
      assert u.userId in GroupKeys(records);
    }
  }

  /**
   * The counterexample to the detector as written: two users, the planted
   * user second and the first owning one Inactive well. One legal well
   * yields `int(0.9 * 1) == 0` control activities, so both users' wells are
   * unmonitored suspects, and the detector reports the first user's legal
   * well, while the ranked detector reports the planted one.
   */
  lemma DetectAsWrittenMissesPlantedWell(d: VillageDraws, weeks: nat, now: int)
    requires Generated(d, weeks, now) && weeks >= 1
    requires |d.users| == 2 && d.illegalChoice == 1 && |d.wells[0]| == 1 && d.wells[0][0].status == Inactive
    ensures var v, first := PlannedVillage(d, weeks, now), UsersOf(d)[0];
      && Detect(v) == Identified(FirstLegalWell(d, now), first, ExtractFirstSyllable(first.name))
      && FirstLegalWell(d, now) != IllegalWellOf(d)
      && DetectByRank(v).Identified? && DetectByRank(v).well == IllegalWellOf(d)
  {
    var v := PlannedVillage(d, weeks, now);
    var users, planted, legal0 := UsersOf(d), IllegalWellOf(d), FirstLegalWell(d, now);
    TwoUserVillage(d, weeks, now);
    GeneratedGroups(d, weeks, now);
    FewUsersAllRanked(users, v.consumption);
    var suspects := SuspectWells(v);
    assert legal0 in suspects;
    assert suspects[0] == legal0 by {
      assert v.wells[1..] == [planted];
    }
    assert FirstUnmonitored(suspects, v.activities, 0) == 0;
    DetectionSound(v);
    assert users[0] in users;
    SameIdSameUser(users, Detect(v).owner, 0);
    DetectByRankFindsPlantedWell(d, weeks, now);
  }
}
