/**
 * The village database as an in-memory snapshot: the four collections the
 * generator writes and the validator and detector read.
 *
 * Instants are integers counting seconds; a calendar date is stored as the
 * midnight that starts it (`Midnight(day)`), as the generator does.
 */
module Snapshot {
  import opened SeqUtil

  /** Seconds in a day. */
  const DAY: int := 86400

  /** Midnight at the start of calendar day `day`. */
  function Midnight(day: int): int {
    day * DAY
  }

  /** The calendar day containing the instant `t` (floor division). */
  function Today(t: int): int {
    t / DAY
  }

  /** Whole days from `earlier` to `later`, rounded down like `timedelta.days`. */
  function DaysBetween(later: int, earlier: int): int {
    (later - earlier) / DAY
  }

  /** A coordinate inside the village's bounding box; only carried along. */
  datatype Location = Location(latitude: real, longitude: real)

  datatype Status = Active | Inactive

  datatype ControlType = Inspection | Verification | Audit

  datatype ControlResult = Legal | NoAnomalies

  datatype User = User(userId: string, name: string, address: string, registrationDate: int)

  /** A registered well; a null authorization date marks an illegal well. */
  datatype Well = Well(
    wellId: string,
    location: Location,
    ownerUserId: string,
    authorizationDate: Option<int>,
    status: Status,
    lastStatusChange: Option<int>)

  /** One weekly meter reading of one user. */
  datatype ConsumptionRecord = ConsumptionRecord(
    userId: string,
    date: int,
    consumption: real,
    previousReading: real,
    currentReading: real,
    variation: real)

  datatype ControlActivity = ControlActivity(
    controlId: string,
    date: int,
    controlType: ControlType,
    result: ControlResult,
    observations: string,
    wellId: string)

  /** The four collections of the database. */
  datatype Village = Village(
    users: seq<User>,
    wells: seq<Well>,
    consumption: seq<ConsumptionRecord>,
    activities: seq<ControlActivity>)

  /** Sum of `consumption` over the records of user `userId` (a `$group` with `$sum`). */
  function TotalConsumption(records: seq<ConsumptionRecord>, userId: string): real
  {
    if records == [] then 0.0
    else (if records[0].userId == userId then records[0].consumption else 0.0)
         + TotalConsumption(records[1..], userId)
  }

  lemma {:induction false} TotalConsumptionConcat(a: seq<ConsumptionRecord>, b: seq<ConsumptionRecord>, userId: string)
    ensures TotalConsumption(a + b, userId) == TotalConsumption(a, userId) + TotalConsumption(b, userId)
  {
    if a == [] {
      assert a + b == b;
    } else {
      assert (a + b)[0] == a[0] && (a + b)[1..] == a[1..] + b;
      TotalConsumptionConcat(a[1..], b, userId);
    }
  }

  predicate UniqueUserIds(users: seq<User>) {
    forall i, j :: 0 <= i < j < |users| ==> users[i].userId != users[j].userId
  }

  predicate UniqueWellIds(wells: seq<Well>) {
    forall i, j :: 0 <= i < j < |wells| ==> wells[i].wellId != wells[j].wellId
  }
}
