/**
 * The validator's battery of independent, read-only checks. Each database
 * query becomes a filter over the snapshot's collections; each check reports
 * PASS, FAIL with the selected documents, or WARN.
 *
 * Two comparison rules of the document store matter at the edges:
 * - inside an aggregation expression (`$expr`, `$project`), `$lt` orders a
 *   null below every date;
 * - a query operator such as `{field: {$gt: t}}` matches only dates, never null.
 */
module Checks {
  import opened SeqUtil
  import opened Snapshot

  /** The verdict of one check. */
  datatype Outcome<T> = Pass | Fail(violations: seq<T>) | Warn

  /** PASS when the query selected nothing, otherwise FAIL listing what it selected. */
  function Report<T>(selected: seq<T>): Outcome<T> {
    if selected == [] then Pass else Fail(selected)
  }

  /** Aggregation-expression `$lt` on two nullable dates: null sorts below every date. */
  predicate BsonLess(a: Option<int>, b: Option<int>) {
    match (a, b)
    case (None, None) => false
    case (None, Some(_)) => true
    case (Some(_), None) => false
    case (Some(x), Some(y)) => x < y
  }

  /** Query operator `{field: {$gt: t}}` on a nullable date: null never matches. */
  predicate After(a: Option<int>, t: int) {
    a.Some? && a.value > t
  }

  // ---------------------------------------------------------------------
  // check_last_status_change_dates

  /** The `$expr` of the query: a non-null authorization date and `$lt` of the status change below it. */
  predicate StatusChangeBeforeAuthorization(w: Well) {
    w.authorizationDate != None && BsonLess(w.lastStatusChange, w.authorizationDate)
  }

  function CheckLastStatusChangeDates(wells: seq<Well>): (o: Outcome<Well>)
    ensures !o.Warn?
    ensures o.Pass? <==> forall w :: w in wells && w.authorizationDate.Some? ==>
                           w.lastStatusChange.Some? && w.authorizationDate.value <= w.lastStatusChange.value
    ensures o.Fail? ==> forall w :: w in o.violations <==>
                          && w in wells
                          && w.authorizationDate.Some?
                          && (w.lastStatusChange.None? || w.lastStatusChange.value < w.authorizationDate.value)
  {
    var selected := Filter(wells, StatusChangeBeforeAuthorization);
    assert selected != [] ==> selected[0] in selected;
    Report(selected)
  }

  // ---------------------------------------------------------------------
  // check_control_activities_coverage

  /** `count_documents({'authorization_date': {'$ne': None}})`. */
  function LegalWellCount(wells: seq<Well>): nat {
    |Filter(wells, (w: Well) => w.authorizationDate.Some?)|
  }

  /** The well id of every activity, in order. */
  function ActivityWellIds(activities: seq<ControlActivity>): seq<string> {
    Map(activities, (a: ControlActivity) => a.wellId)
  }

  /** `len(distinct('well_id'))` over all control activities. */
  function CoveredWellCount(activities: seq<ControlActivity>): nat {
    |Distinct(ActivityWellIds(activities))|
  }

  /** Covered wells as a percentage of legal wells; 0 when there is no legal well. */
  function CoveragePercentage(wells: seq<Well>, activities: seq<ControlActivity>): real {
    var legal := LegalWellCount(wells);
    if legal == 0 then 0.0
    else (CoveredWellCount(activities) as real / legal as real) * 100.0
  }

  lemma PercentageBounds(covered: nat, legal: nat, p: real)
    requires legal > 0 && p == (covered as real / legal as real) * 100.0
    ensures 85.0 <= p <==> 85 * legal <= 100 * covered
    ensures p <= 95.0 <==> 100 * covered <= 95 * legal
  {
    var l, c := legal as real, covered as real;
    DivCompare(c, l, 85.0);
    DivCompare(c, l, 95.0);
    assert (85 * legal) as real == 85.0 * l;
    assert (95 * legal) as real == 95.0 * l;
    assert (100 * covered) as real == 100.0 * c;
  }

  /** A percentage `c / l * 100` against a bound `k`, without the division. */
  lemma DivCompare(c: real, l: real, k: real)
    requires l > 0.0
    ensures k <= (c / l) * 100.0 <==> k * l <= 100.0 * c
    ensures (c / l) * 100.0 <= k <==> 100.0 * c <= k * l
  {
    var q := c / l;
    assert q * l == c;
    ScaleCompare(k, q * 100.0, l);
    ScaleCompare(q * 100.0, k, l);
    assert (q * 100.0) * l == 100.0 * c;
  }

  /** Multiplying both sides by a positive factor keeps a comparison. */
  lemma ScaleCompare(x: real, y: real, l: real)
    requires l > 0.0
    ensures x <= y <==> x * l <= y * l
  {
    if x <= y {
      assert (y - x) * l >= 0.0;
    } else {
      assert (x - y) * l > 0.0;
    }
  }

  function CheckControlActivitiesCoverage(wells: seq<Well>, activities: seq<ControlActivity>): (o: Outcome<()>)
    ensures !o.Fail?
    ensures o.Pass? <==>
      var legal, covered := LegalWellCount(wells), CoveredWellCount(activities);
      legal > 0 && 85 * legal <= 100 * covered <= 95 * legal
  {
    var p := CoveragePercentage(wells, activities);
    var legal, covered := LegalWellCount(wells), CoveredWellCount(activities);
    assert legal > 0 ==> (85.0 <= p <==> 85 * legal <= 100 * covered)
                         && (p <= 95.0 <==> 100 * covered <= 95 * legal) by {
      if legal > 0 {
        PercentageBounds(covered, legal, p);
      }
    }
    if 85.0 <= p <= 95.0 then Pass else Warn
  }

  // ---------------------------------------------------------------------
  // check_no_control_activities_for_illegal_well

  /** `find_one({'authorization_date': None})`. */
  function FindIllegalWell(wells: seq<Well>): Option<Well> {
    FindFirst(wells, (w: Well) => w.authorizationDate.None?)
  }

  function CheckNoControlActivitiesForIllegalWell(wells: seq<Well>, activities: seq<ControlActivity>): (o: Outcome<ControlActivity>)
    ensures o.Warn? <==> forall w :: w in wells ==> w.authorizationDate.Some?
    ensures !o.Warn? ==> FindIllegalWell(wells).Some? && FindIllegalWell(wells).value in wells
                         && FindIllegalWell(wells).value.authorizationDate.None?
    ensures o.Pass? <==> !o.Warn? && forall a :: a in activities ==> a.wellId != FindIllegalWell(wells).value.wellId
    ensures o.Fail? ==> forall a :: a in o.violations <==>
                          a in activities && a.wellId == FindIllegalWell(wells).value.wellId
  {
    match FindIllegalWell(wells)
    case None => Warn
    case Some(illegal) =>
      var selected := Filter(activities, (a: ControlActivity) => a.wellId == illegal.wellId);
      assert selected != [] ==> selected[0] in selected;
      Report(selected)
  }

  // ---------------------------------------------------------------------
  // check_control_activity_dates

  /** One result document of the pipeline: the activity and the joined well's status change. */
  datatype DateIssue = DateIssue(activity: ControlActivity, lastStatusChange: int)

  /** The `$lookup` joins `w` to `a`, and `$lt` puts `a`'s date before `w`'s status change. */
  predicate ChangedAfter(a: ControlActivity, w: Well) {
    w.wellId == a.wellId && BsonLess(Some(a.date), w.lastStatusChange)
  }

  /**
   * `$lookup` of one activity's wells, `$unwind`, and `$match` on `$lt: [date, last_status_change]`:
   * one row per joined well that changed status after the activity.
   */
  function IssuesOf(a: ControlActivity, wells: seq<Well>): (r: seq<DateIssue>)
    ensures forall issue :: issue in r <==>
      && issue.activity == a
      && exists w :: w in wells && w.wellId == a.wellId && w.lastStatusChange == Some(issue.lastStatusChange)
                     && a.date < issue.lastStatusChange
    ensures |r| == |Filter(wells, (w: Well) => ChangedAfter(a, w))|
  {
    if wells == [] then []
    else
      var w := wells[0];
      assert forall x :: x in wells ==> x == w || x in wells[1..];
      (if ChangedAfter(a, w) then [DateIssue(a, w.lastStatusChange.value)] else [])
      + IssuesOf(a, wells[1..])
  }

  /** The whole aggregation pipeline, in activity order. */
  function DateIssues(activities: seq<ControlActivity>, wells: seq<Well>): (r: seq<DateIssue>)
    ensures forall issue :: issue in r <==>
      && issue.activity in activities
      && exists w :: w in wells && w.wellId == issue.activity.wellId
                     && w.lastStatusChange == Some(issue.lastStatusChange)
                     && issue.activity.date < issue.lastStatusChange
  {
    if activities == [] then []
    else
      assert forall x :: x in activities ==> x == activities[0] || x in activities[1..];
      IssuesOf(activities[0], wells) + DateIssues(activities[1..], wells)
  }

  function CheckControlActivityDates(activities: seq<ControlActivity>, wells: seq<Well>): (o: Outcome<DateIssue>)
    ensures !o.Warn?
    ensures o.Pass? <==> forall a, w :: a in activities && w in wells && w.wellId == a.wellId && w.lastStatusChange.Some?
                                       ==> w.lastStatusChange.value <= a.date
    ensures o.Fail? ==> o.violations == DateIssues(activities, wells)
  {
    var issues := DateIssues(activities, wells);
    assert issues != [] ==> issues[0] in issues;
    assert (exists a, w :: a in activities && w in wells && w.wellId == a.wellId && w.lastStatusChange.Some?
                          && a.date < w.lastStatusChange.value) ==> issues != [] by {
      if a, w :| a in activities && w in wells && w.wellId == a.wellId && w.lastStatusChange.Some?
                 && a.date < w.lastStatusChange.value {
        assert DateIssue(a, w.lastStatusChange.value) in issues;
      }
    }
    Report(issues)
  }

  /** An activity is flagged exactly when some well it joins changed status after it; one joining no well never is. */
  lemma FlaggedActivities(activities: seq<ControlActivity>, wells: seq<Well>, a: ControlActivity)
    requires a in activities
    ensures (exists issue :: issue in DateIssues(activities, wells) && issue.activity == a) <==>
            exists w :: w in wells && w.wellId == a.wellId && w.lastStatusChange.Some? && a.date < w.lastStatusChange.value
  {
    if w :| w in wells && w.wellId == a.wellId && w.lastStatusChange.Some? && a.date < w.lastStatusChange.value {
      assert DateIssue(a, w.lastStatusChange.value) in DateIssues(activities, wells);
    }
  }

  /**
   * The check announces activity dates "after the last status change and before today",
   * but its pipeline never compares with today: an activity dated in the future,
   * after its well's status change, passes.
   */
  lemma FutureActivityPasses(a: ControlActivity, wells: seq<Well>, now: int)
    requires a.date > now
    requires forall w :: w in wells && w.wellId == a.wellId && w.lastStatusChange.Some? ==> w.lastStatusChange.value <= a.date
    ensures CheckControlActivityDates([a], wells).Pass?
    ensures CheckControlActivityDatesUntil([a], wells, now).Fail?
  {
    assert a in [a];
  }

  /** The activity is dated after today, or before the status change of a well with its id. */
  predicate MisdatedActivity(a: ControlActivity, wells: seq<Well>, now: int) {
    a.date > now || IssuesOf(a, wells) != []
  }

  /** The activity-date check as announced: no activity before its wells' last status change, and none after today. */
  function CheckControlActivityDatesUntil(activities: seq<ControlActivity>, wells: seq<Well>, now: int): (o: Outcome<ControlActivity>)
    ensures !o.Warn?
    ensures o.Pass? <==> forall a :: a in activities ==>
                           && a.date <= now
                           && forall w :: w in wells && w.wellId == a.wellId && w.lastStatusChange.Some? ==>
                                w.lastStatusChange.value <= a.date
    ensures o.Fail? ==> forall a :: a in o.violations <==>
                          && a in activities
                          && (|| a.date > now
                              || exists w :: w in wells && w.wellId == a.wellId && w.lastStatusChange.Some?
                                             && a.date < w.lastStatusChange.value)
  {
    var selected := Filter(activities, (a: ControlActivity) => MisdatedActivity(a, wells, now));
    assert selected != [] ==> selected[0] in selected;
    forall a | a in activities
      ensures IssuesOf(a, wells) != [] <==>
              exists w :: w in wells && w.wellId == a.wellId && w.lastStatusChange.Some? && a.date < w.lastStatusChange.value
    {
      IssuesOfNonEmpty(a, wells);
    }
    Report(selected)
  }

  /** The check as announced passes exactly when the check as written passes and no activity is dated after today. */
  lemma DatesUntilRefinesDates(activities: seq<ControlActivity>, wells: seq<Well>, now: int)
    ensures CheckControlActivityDatesUntil(activities, wells, now).Pass? <==>
            CheckControlActivityDates(activities, wells).Pass? && forall a :: a in activities ==> a.date <= now
  {}

  /** An activity yields a row exactly when a well with its id changed status after it. */
  lemma IssuesOfNonEmpty(a: ControlActivity, wells: seq<Well>)
    ensures IssuesOf(a, wells) != [] <==>
            exists w :: w in wells && w.wellId == a.wellId && w.lastStatusChange.Some? && a.date < w.lastStatusChange.value
  {
    if w :| w in wells && w.wellId == a.wellId && w.lastStatusChange.Some? && a.date < w.lastStatusChange.value {
      assert DateIssue(a, w.lastStatusChange.value) in IssuesOf(a, wells);
    }
    if IssuesOf(a, wells) != [] {
      assert IssuesOf(a, wells)[0] in IssuesOf(a, wells);
    }
  }

  // ---------------------------------------------------------------------
  // check_future_user_registration_dates and check_dates_in_future_in_registered_wells

  function CheckFutureUserRegistrationDates(users: seq<User>, now: int): (o: Outcome<User>)
    ensures !o.Warn?
    ensures o.Pass? <==> forall u :: u in users ==> u.registrationDate <= now
    ensures o.Fail? ==> forall u :: u in o.violations <==> u in users && u.registrationDate > now
  {
    var selected := Filter(users, (u: User) => After(Some(u.registrationDate), now));
    assert selected != [] ==> selected[0] in selected;
    Report(selected)
  }

  /** The `$or` of the two `$gt` filters. */
  predicate DatedAfter(w: Well, now: int) {
    After(w.lastStatusChange, now) || After(w.authorizationDate, now)
  }

  function CheckDatesInFutureInRegisteredWells(wells: seq<Well>, now: int): (o: Outcome<Well>)
    ensures !o.Warn?
    ensures o.Pass? <==> forall w :: w in wells ==>
                           (w.lastStatusChange.Some? ==> w.lastStatusChange.value <= now)
                           && (w.authorizationDate.Some? ==> w.authorizationDate.value <= now)
    ensures o.Fail? ==> forall w :: w in o.violations <==>
                          && w in wells
                          && ((w.lastStatusChange.Some? && w.lastStatusChange.value > now)
                              || (w.authorizationDate.Some? && w.authorizationDate.value > now))
  {
    var selected := Filter(wells, (w: Well) => DatedAfter(w, now));
    assert selected != [] ==> selected[0] in selected;
    Report(selected)
  }

  /** The boundary: a date equal to `now` passes, one second later fails. */
  lemma RegistrationAtNowPasses(u: User, now: int)
    ensures CheckFutureUserRegistrationDates([u.(registrationDate := now)], now).Pass?
    ensures CheckFutureUserRegistrationDates([u.(registrationDate := now + 1)], now).Fail?
  {
    assert u.(registrationDate := now + 1) in [u.(registrationDate := now + 1)];
  }

  // ---------------------------------------------------------------------
  // check_names_length

  /** `$strLenCP` counts code points, which is the length of a Dafny string. */
  function CheckNamesLength(users: seq<User>): (o: Outcome<User>)
    ensures !o.Warn?
    ensures o.Pass? <==> forall u :: u in users ==> |u.name| >= 3
    ensures o.Fail? ==> forall u :: u in o.violations <==> u in users && |u.name| < 3
  {
    var selected := Filter(users, (u: User) => |u.name| < 3);
    assert selected != [] ==> selected[0] in selected;
    Report(selected)
  }
}
