/**
 * The synthetic village generator: users, registered wells with exactly one
 * planted illegal well, weekly meter readings in which the illegal well's
 * owner consumes abnormally much, and control activities on about 90% of the
 * legal wells.
 *
 * Every random value, identifier, fake name or address and the current
 * instant `now` is an input ("draw"); the predicates `...InRange` state the
 * ranges the random functions draw from.
 */
module Generator {
  import opened SeqUtil
  import opened Snapshot
  import opened Text

  // ---------------------------------------------------------------------
  // Shared date arithmetic.

  /**
   * A random date in the window after `start`: `start` plus `offset` whole
   * days when at least one whole day separates `start` from `now`, and
   * `start` itself otherwise.
   */
  function LaterDate(start: int, offset: int, now: int): int {
    if DaysBetween(now, start) > 0 then start + offset * DAY else start
  }

  /** `random.randint(1, delta_days)` is only drawn when `delta_days > 0`. */
  predicate OffsetInRange(start: int, offset: int, now: int) {
    DaysBetween(now, start) > 0 ==> 1 <= offset <= DaysBetween(now, start)
  }

  /** The later date is never before `start`, is strictly after it when a day separates `start` from `now`, and never passes `now`. */
  lemma LaterDateBounds(start: int, offset: int, now: int)
    requires OffsetInRange(start, offset, now)
    ensures start <= LaterDate(start, offset, now)
    ensures DaysBetween(now, start) > 0 ==> start < LaterDate(start, offset, now)
    ensures start <= now ==> LaterDate(start, offset, now) <= now
  {
    var delta := DaysBetween(now, start);
    if delta > 0 {
      assert delta * DAY <= now - start;
      assert offset * DAY <= delta * DAY;
    }
  }

  /** The midnight of a day no later than today is not in the future. */
  lemma MidnightNotAfter(day: int, now: int)
    requires day <= Today(now)
    ensures Midnight(day) <= now
  {
    assert Today(now) * DAY <= now;
    assert day * DAY <= Today(now) * DAY;
  }

  // ---------------------------------------------------------------------
  // generate_users

  /** The faked values behind one user. */
  datatype UserDraw = UserDraw(userId: string, name: string, address: string, registrationDay: int)

  /** `fake.date_between(start_date='-5y', end_date='today')` draws no day after today. */
  predicate UserDrawInRange(d: UserDraw, now: int) {
    d.registrationDay <= Today(now)
  }

  /** One user document: the first line of the faked address without trailing whitespace, registered at midnight. */
  function NewUser(d: UserDraw): (u: User)
    ensures '\n' !in u.address
    ensures u.address == [] || !IsSpace(u.address[|u.address| - 1])
    ensures u.address <= d.address
    ensures u.registrationDate % DAY == 0
  {
    var line := FirstLine(d.address);
    var address := RStrip(line);
    assert forall c :: c in address ==> c in line;
    var registered := Midnight(d.registrationDay);
    assert registered % DAY == 0;
    User(d.userId, d.name, address, registered)
  }

  function NewUsers(draws: seq<UserDraw>): (users: seq<User>)
    ensures |users| == |draws|
    ensures forall i :: 0 <= i < |draws| ==> users[i] == NewUser(draws[i])
  {
    seq(|draws|, i requires 0 <= i < |draws| => NewUser(draws[i]))
  }

  /** `generate_users`. */
  method GenerateUsers(draws: seq<UserDraw>) returns (users: seq<User>)
    ensures users == NewUsers(draws)
  {
    users := [];
    for i := 0 to |draws|
      invariant users == NewUsers(draws[..i])
    {
      users := users + [NewUser(draws[i])];
    }
    assert draws[..|draws|] == draws;
  }

  /** No generated user is registered in the future. */
  lemma UsersNotInFuture(draws: seq<UserDraw>, now: int)
    requires forall d :: d in draws ==> UserDrawInRange(d, now)
    ensures forall u :: u in NewUsers(draws) ==> u.registrationDate <= now
  {
    forall u | u in NewUsers(draws) ensures u.registrationDate <= now {
      var i :| 0 <= i < |draws| && NewUsers(draws)[i] == u;
      assert draws[i] in draws;
      MidnightNotAfter(draws[i].registrationDay, now);
    }
  }

  // ---------------------------------------------------------------------
  // generate_registered_wells

  /** The random values behind one legal well. */
  datatype WellDraw = WellDraw(
    wellId: string,
    location: Location,
    authorizationDay: int,
    statusChangeDays: int,
    status: Status)

  /**
   * The authorization day is drawn up to today (from one of two windows,
   * 30 to 5 years ago or the last 5 years), and the status change offset
   * from `1..delta_days`.
   */
  predicate WellDrawInRange(d: WellDraw, now: int) {
    && d.authorizationDay <= Today(now)
    && OffsetInRange(Midnight(d.authorizationDay), d.statusChangeDays, now)
  }

  /** One legal well of user `owner`. */
  function LegalWell(owner: string, d: WellDraw, now: int): Well {
    var auth := Midnight(d.authorizationDay);
    Well(d.wellId, d.location, owner, Some(auth), d.status, Some(LaterDate(auth, d.statusChangeDays, now)))
  }

  /** A legal well is authorized no later than its status change, which is strictly later when a day separates the authorization from `now`, and never after `now`. */
  lemma LegalWellDates(owner: string, d: WellDraw, now: int)
    requires WellDrawInRange(d, now)
    ensures var w := LegalWell(owner, d, now);
            var auth, change := w.authorizationDate.value, w.lastStatusChange.value;
            && auth <= change <= now
            && (DaysBetween(now, auth) > 0 ==> auth < change)
  {
    MidnightNotAfter(d.authorizationDay, now);
    LaterDateBounds(Midnight(d.authorizationDay), d.statusChangeDays, now);
  }

  /** The planted well: no authorization date, Inactive, no status change. */
  function IllegalWell(owner: User, wellId: string, location: Location): Well {
    Well(wellId, location, owner.userId, None, Inactive, None)
  }

  function LegalWellsOf(owner: string, draws: seq<WellDraw>, now: int): (wells: seq<Well>)
    ensures |wells| == |draws|
    ensures forall j :: 0 <= j < |draws| ==> wells[j] == LegalWell(owner, draws[j], now)
    ensures forall w :: w in wells ==> w.ownerUserId == owner && w.authorizationDate.Some?
  {
    seq(|draws|, j requires 0 <= j < |draws| => LegalWell(owner, draws[j], now))
  }

  /** The wells the loop body writes for one user. */
  function UserWells(user: User, illegalUser: User, illegalWell: Well, draws: seq<WellDraw>, now: int): (wells: seq<Well>)
    ensures illegalWell.ownerUserId == illegalUser.userId ==> forall w :: w in wells ==> w.ownerUserId == user.userId
    ensures user != illegalUser ==> forall w :: w in wells ==> w.authorizationDate.Some?
  {
    if user == illegalUser then [illegalWell] else LegalWellsOf(user.userId, draws, now)
  }

  /** The wells written for each user, user by user. */
  function WellBlocks(users: seq<User>, illegalUser: User, illegalWell: Well, draws: seq<seq<WellDraw>>, now: int): (blocks: seq<seq<Well>>)
    requires |draws| == |users|
    ensures |blocks| == |users|
    ensures forall i :: 0 <= i < |users| ==> blocks[i] == UserWells(users[i], illegalUser, illegalWell, draws[i], now)
  {
    seq(|users|, i requires 0 <= i < |users| => UserWells(users[i], illegalUser, illegalWell, draws[i], now))
  }

  /** The registered wells collection: every user's wells, in user order. */
  function PlannedWells(users: seq<User>, illegalUser: User, illegalWell: Well, draws: seq<seq<WellDraw>>, now: int): seq<Well>
    requires |draws| == |users|
  {
    Flatten(WellBlocks(users, illegalUser, illegalWell, draws, now))
  }

  /** `random.randint(1, 10)` wells per legal user, each drawn in range. */
  predicate WellDrawsInRange(users: seq<User>, illegalUser: User, draws: seq<seq<WellDraw>>, now: int)
    requires |draws| == |users|
  {
    forall i :: 0 <= i < |users| && users[i] != illegalUser ==>
      1 <= |draws[i]| <= 10 && forall d :: d in draws[i] ==> WellDrawInRange(d, now)
  }

  /** `generate_registered_wells`: `illegalChoice` is the position `random.choice` picks. */
  method GenerateRegisteredWells(users: seq<User>, illegalChoice: nat, illegalWellId: string, illegalLocation: Location,
                                 draws: seq<seq<WellDraw>>, now: int)
    returns (wells: seq<Well>, illegalUser: User, illegalWell: Well)
    requires illegalChoice < |users|
    requires |draws| == |users|
    ensures illegalUser == users[illegalChoice]
    ensures illegalWell == IllegalWell(illegalUser, illegalWellId, illegalLocation)
    ensures wells == PlannedWells(users, illegalUser, illegalWell, draws, now)
  {
    wells := [];
    illegalUser := users[illegalChoice];
    illegalWell := IllegalWell(illegalUser, illegalWellId, illegalLocation);
    ghost var blocks := WellBlocks(users, illegalUser, illegalWell, draws, now);
    for i := 0 to |users|
      invariant wells == Flatten(blocks[..i])
    {
      var user := users[i];
      var own;
      if user == illegalUser {
        own := [illegalWell];
      } else {
        own := AppendLegalWells(user.userId, draws[i], now);
      }
      wells := wells + own;
      assert blocks[..i + 1] == blocks[..i] + [own];
      FlattenConcat(blocks[..i], [own]);
      assert Flatten([own]) == own + [];
    }
    assert blocks[..|users|] == blocks;
  }

  /** The inner loop of `generate_registered_wells`: the legal wells of one user, in draw order. */
  method AppendLegalWells(owner: string, draws: seq<WellDraw>, now: int) returns (wells: seq<Well>)
    ensures wells == LegalWellsOf(owner, draws, now)
  {
    wells := [];
    for j := 0 to |draws|
      invariant wells == LegalWellsOf(owner, draws[..j], now)
    {
      wells := wells + [LegalWell(owner, draws[j], now)];
      assert LegalWellsOf(owner, draws[..j + 1], now) == LegalWellsOf(owner, draws[..j], now) + [LegalWell(owner, draws[j], now)];
    }
    assert draws[..|draws|] == draws;
  }

  /** Selects the wells of user `userId`. */
  function OwnedBy(userId: string): Well -> bool {
    (w: Well) => w.ownerUserId == userId
  }

  predicate Unauthorized(w: Well) {
    w.authorizationDate.None?
  }

  /** A generated well: the planted one, or a legal well dated in order; either way owned by a user. */
  predicate WellShaped(w: Well, users: seq<User>, illegalWell: Well, now: int) {
    && (w.authorizationDate.None? ==> w == illegalWell)
    && (w.authorizationDate.Some? ==>
          && w.lastStatusChange.Some?
          && w.authorizationDate.value <= w.lastStatusChange.value <= now)
    && exists u :: u in users && u.userId == w.ownerUserId
  }

  /** Every well written for `user` belongs to `user`. */
  lemma UserWellsOwned(user: User, illegalUser: User, illegalWell: Well, draws: seq<WellDraw>, now: int, userId: string)
    requires illegalWell.ownerUserId == illegalUser.userId
    ensures forall w :: w in UserWells(user, illegalUser, illegalWell, draws, now) ==> (OwnedBy(userId)(w) <==> user.userId == userId)
  {
  }

  /** The illegal user's one well is unauthorized; every other user's wells are authorized. */
  lemma UserWellsAuthorization(user: User, illegalUser: User, illegalWell: Well, draws: seq<WellDraw>, now: int)
    requires illegalWell.authorizationDate.None?
    ensures forall w :: w in UserWells(user, illegalUser, illegalWell, draws, now) ==> (Unauthorized(w) <==> user == illegalUser)
  {
  }

  /** The wells written for one user are the planted well, or legal wells dated in order; all belong to the user. */
  lemma UserWellsShape(users: seq<User>, i: nat, illegalUser: User, illegalWell: Well, draws: seq<WellDraw>, now: int)
    requires i < |users|
    requires users[i] != illegalUser ==> forall d :: d in draws ==> WellDrawInRange(d, now)
    requires illegalWell.ownerUserId == illegalUser.userId && illegalWell.authorizationDate.None?
    ensures forall w :: w in UserWells(users[i], illegalUser, illegalWell, draws, now) ==> WellShaped(w, users, illegalWell, now)
  {
    var user := users[i];
    assert user in users;
    var own := UserWells(user, illegalUser, illegalWell, draws, now);
    if user != illegalUser {
      var legal := LegalWellsOf(user.userId, draws, now);
      assert own == legal;
      forall w | w in legal
        ensures w.lastStatusChange.Some? && w.authorizationDate.value <= w.lastStatusChange.value <= now
      {
        var j :| 0 <= j < |draws| && legal[j] == w;
        assert draws[j] in draws;
        LegalWellDates(user.userId, draws[j], now);
      }
    } else {
      assert own == [illegalWell] && illegalWell.ownerUserId == user.userId;
    }
  }

  /** Every generated well is either the planted one or a legal well dated in order, and belongs to one of the users. */
  lemma PlannedWellsShape(users: seq<User>, illegalUser: User, illegalWell: Well, draws: seq<seq<WellDraw>>, now: int)
    requires |draws| == |users|
    requires WellDrawsInRange(users, illegalUser, draws, now)
    requires illegalWell.ownerUserId == illegalUser.userId && illegalWell.authorizationDate.None?
    ensures forall w :: w in PlannedWells(users, illegalUser, illegalWell, draws, now) ==> WellShaped(w, users, illegalWell, now)
  {
    var blocks := WellBlocks(users, illegalUser, illegalWell, draws, now);
    forall w | w in Flatten(blocks) ensures WellShaped(w, users, illegalWell, now) {
      InFlatten(blocks, w);
      var j :| 0 <= j < |blocks| && w in blocks[j];
      UserWellsShape(users, j, illegalUser, illegalWell, draws[j], now);
    }
  }

  /**
   * The wells of one user: the planted well alone for the illegal user, the
   * user's own legal wells for every other user.
   */
  lemma OwnedPlannedWells(users: seq<User>, illegalUser: User, illegalWell: Well, draws: seq<seq<WellDraw>>, now: int, i: nat)
    requires |draws| == |users| && i < |users|
    requires UniqueUserIds(users)
    requires illegalWell.ownerUserId == illegalUser.userId
    ensures Filter(PlannedWells(users, illegalUser, illegalWell, draws, now), OwnedBy(users[i].userId))
            == UserWells(users[i], illegalUser, illegalWell, draws[i], now)
  {
    var blocks := WellBlocks(users, illegalUser, illegalWell, draws, now);
    var owned := OwnedBy(users[i].userId);
    forall j, x | 0 <= j < |blocks| && x in blocks[j] ensures owned(x) <==> j == i {
      UserWellsOwned(users[j], illegalUser, illegalWell, draws[j], now, users[i].userId);
    }
    FilterFlattenBlock(blocks, owned, i);
  }

  /** Exactly one generated well has no authorization date: the planted well. */
  lemma UnauthorizedPlannedWells(users: seq<User>, illegalUser: User, illegalWell: Well, draws: seq<seq<WellDraw>>, now: int, c: nat)
    requires |draws| == |users| && c < |users|
    requires UniqueUserIds(users) && users[c] == illegalUser
    requires illegalWell.authorizationDate.None?
    ensures Filter(PlannedWells(users, illegalUser, illegalWell, draws, now), Unauthorized) == [illegalWell]
  {
    var blocks := WellBlocks(users, illegalUser, illegalWell, draws, now);
    forall j, x | 0 <= j < |blocks| && x in blocks[j] ensures Unauthorized(x) <==> j == c {
      UserWellsAuthorization(users[j], illegalUser, illegalWell, draws[j], now);
      assert users[j] == illegalUser ==> users[j].userId == users[c].userId;
    }
    FilterFlattenBlock(blocks, Unauthorized, c);
  }

  /** The illegal user owns the planted well alone; every other user owns between one and ten wells. */
  lemma WellsPerUser(users: seq<User>, illegalUser: User, illegalWell: Well, draws: seq<seq<WellDraw>>, now: int, i: nat)
    requires |draws| == |users| && i < |users|
    requires UniqueUserIds(users) && WellDrawsInRange(users, illegalUser, draws, now)
    requires illegalWell.ownerUserId == illegalUser.userId
    ensures var owned := Filter(PlannedWells(users, illegalUser, illegalWell, draws, now), OwnedBy(users[i].userId));
            && (users[i] == illegalUser ==> owned == [illegalWell])
            && (users[i] != illegalUser ==> 1 <= |owned| <= 10)
  {
    OwnedPlannedWells(users, illegalUser, illegalWell, draws, now, i);
  }

  // ---------------------------------------------------------------------
  // generate_water_consumption

  /** `num_records_per_user`'s default. */
  const RECORDS_PER_USER: nat := 50

  /** Readings start a year before `now` and follow weekly. */
  const SERIES_DAYS: int := 365
  const WEEK_DAYS: int := 7

  function SeriesStart(now: int): int {
    now - SERIES_DAYS * DAY
  }

  /** `random.random()` lies in the unit interval. */
  predicate Unit(u: real) {
    0.0 <= u <= 1.0
  }

  /** `random.uniform(a, b)` for the unit draw `u`. */
  function Uniform(a: real, b: real, u: real): (x: real)
    ensures a <= b && Unit(u) ==> a <= x <= b
  {
    assert a <= b && Unit(u) ==> 0.0 <= (b - a) * u <= b - a by {
      if a <= b && Unit(u) {
        MulNonNegative(b - a, u);
        MulNonNegative(b - a, 1.0 - u);
        assert (b - a) * (1.0 - u) == (b - a) - (b - a) * u;
      }
    }
    a + (b - a) * u
  }

  lemma MulNonNegative(x: real, y: real)
    requires 0.0 <= x && 0.0 <= y
    ensures 0.0 <= x * y
  {
  }

  /** One week's consumption: 20 to 50 m3 for the illegal user, 0 to 10 m3 for everyone else. */
  function Increment(illegal: bool, u: real): (x: real)
    ensures Unit(u) ==> if illegal then 20.0 <= x <= 50.0 else 0.0 <= x <= 10.0
  {
    if illegal then Uniform(20.0, 50.0, u) else Uniform(0.0, 10.0, u)
  }

  /** The unit draws behind one user's series: the starting reading and one per week. */
  datatype ConsumptionDraw = ConsumptionDraw(baseline: real, weeks: seq<real>)

  predicate ConsumptionDrawInRange(d: ConsumptionDraw) {
    Unit(d.baseline) && forall u :: u in d.weeks ==> Unit(u)
  }

  function Increments(illegal: bool, weeks: seq<real>): (xs: seq<real>)
    ensures |xs| == |weeks|
    ensures forall k :: 0 <= k < |weeks| ==> xs[k] == Increment(illegal, weeks[k])
  {
    seq(|weeks|, k requires 0 <= k < |weeks| => Increment(illegal, weeks[k]))
  }

  /** The meter reading before week `k`: the starting reading plus every earlier week's increment. */
  function ReadingBefore(illegal: bool, d: ConsumptionDraw, k: nat): real
    requires k <= |d.weeks|
  {
    Uniform(0.0, 100.0, d.baseline) + Sum(Increments(illegal, d.weeks[..k]))
  }

  /** The record of week `k`. */
  function Reading(userId: string, illegal: bool, d: ConsumptionDraw, start: int, k: nat): ConsumptionRecord
    requires k < |d.weeks|
  {
    var previous := ReadingBefore(illegal, d, k);
    var current := previous + Increment(illegal, d.weeks[k]);
    ConsumptionRecord(userId, start + k * WEEK_DAYS * DAY, current - previous, previous, current, current - previous)
  }

  /** The records of one user, one per week. */
  function Series(userId: string, illegal: bool, d: ConsumptionDraw, start: int): (records: seq<ConsumptionRecord>)
    ensures |records| == |d.weeks|
    ensures forall k :: 0 <= k < |d.weeks| ==> records[k] == Reading(userId, illegal, d, start, k)
  {
    seq(|d.weeks|, k requires 0 <= k < |d.weeks| => Reading(userId, illegal, d, start, k))
  }

  /** The readings before consecutive weeks differ by that week's increment. */
  lemma ReadingStep(illegal: bool, d: ConsumptionDraw, k: nat)
    requires k < |d.weeks|
    ensures ReadingBefore(illegal, d, k + 1) == ReadingBefore(illegal, d, k) + Increment(illegal, d.weeks[k])
  {
    assert Increments(illegal, d.weeks[..k + 1]) == Increments(illegal, d.weeks[..k]) + [Increment(illegal, d.weeks[k])];
    SumAppend(Increments(illegal, d.weeks[..k]), Increment(illegal, d.weeks[k]));
  }

  /**
   * A user's series starts at `start` from the drawn starting reading; each
   * record is dated a week after the previous one and starts where it ended;
   * consumption and variation both equal the week's increment.
   */
  lemma SeriesChained(userId: string, illegal: bool, d: ConsumptionDraw, start: int)
    ensures var s := Series(userId, illegal, d, start);
      && (|s| > 0 ==> s[0].date == start && s[0].previousReading == Uniform(0.0, 100.0, d.baseline))
      && (forall k :: 0 <= k < |s| - 1 ==>
            s[k + 1].previousReading == s[k].currentReading && s[k + 1].date == s[k].date + WEEK_DAYS * DAY)
      && forall k :: 0 <= k < |s| ==>
            && s[k].userId == userId
            && s[k].consumption == s[k].variation == s[k].currentReading - s[k].previousReading
            && s[k].consumption == Increment(illegal, d.weeks[k])
  {
    var s := Series(userId, illegal, d, start);
    if |s| > 0 {
      assert d.weeks[..0] == [];
    }
    forall k | 0 <= k < |s| - 1
      ensures s[k + 1].previousReading == s[k].currentReading && s[k + 1].date == s[k].date + WEEK_DAYS * DAY
    {
      ReadingStep(illegal, d, k);
    }
  }

  /** With unit draws, the reading before any week is non-negative. */
  lemma ReadingBeforeNonNegative(illegal: bool, d: ConsumptionDraw, k: nat)
    requires ConsumptionDrawInRange(d) && k <= |d.weeks|
    ensures 0.0 <= ReadingBefore(illegal, d, k)
  {
    var xs := Increments(illegal, d.weeks[..k]);
    forall x | x in xs ensures 0.0 <= x <= 50.0 {
      var j :| 0 <= j < |xs| && xs[j] == x;
      assert d.weeks[j] in d.weeks;
    }
    SumBounds(xs, 0.0, 50.0);
  }

  /** With unit draws, every reading is non-negative, readings never decrease, and each week's consumption lies in the user's band. */
  lemma SeriesBounds(userId: string, illegal: bool, d: ConsumptionDraw, start: int)
    requires ConsumptionDrawInRange(d)
    ensures forall r :: r in Series(userId, illegal, d, start) ==>
      && 0.0 <= r.previousReading <= r.currentReading
      && (illegal ==> 20.0 <= r.consumption <= 50.0)
      && (!illegal ==> 0.0 <= r.consumption <= 10.0)
  {
    var s := Series(userId, illegal, d, start);
    forall r | r in s
      ensures 0.0 <= r.previousReading <= r.currentReading
      ensures illegal ==> 20.0 <= r.consumption <= 50.0
      ensures !illegal ==> 0.0 <= r.consumption <= 10.0
    {
      var k :| 0 <= k < |s| && s[k] == r;
      assert d.weeks[k] in d.weeks;
      ReadingBeforeNonNegative(illegal, d, k);
    }
  }

  /** The `$sum` over records that all belong to `userId` is the sum of their consumptions. */
  lemma {:induction false} TotalOfOwnRecords(records: seq<ConsumptionRecord>, userId: string, xs: seq<real>)
    requires |records| == |xs|
    requires forall k :: 0 <= k < |records| ==> records[k].userId == userId && records[k].consumption == xs[k]
    ensures TotalConsumption(records, userId) == Sum(xs)
  {
    if records != [] {
      TotalOfOwnRecords(records[1..], userId, xs[1..]);
    }
  }

  /** Records of other users add nothing to the total of `userId`. */
  lemma {:induction false} TotalOfOthersRecords(records: seq<ConsumptionRecord>, userId: string)
    requires forall r :: r in records ==> r.userId != userId
    ensures TotalConsumption(records, userId) == 0.0
  {
    if records != [] {
      assert records[0] in records;
      assert forall r :: r in records[1..] ==> r in records;
      TotalOfOthersRecords(records[1..], userId);
    }
  }

  /** A series adds the sum of its increments to its own user's total and nothing to anyone else's. */
  lemma SeriesTotal(userId: string, illegal: bool, d: ConsumptionDraw, start: int, other: string)
    ensures TotalConsumption(Series(userId, illegal, d, start), userId) == Sum(Increments(illegal, d.weeks))
    ensures other != userId ==> TotalConsumption(Series(userId, illegal, d, start), other) == 0.0
  {
    SeriesChained(userId, illegal, d, start);
    TotalOfOwnRecords(Series(userId, illegal, d, start), userId, Increments(illegal, d.weeks));
    if other != userId {
      TotalOfOthersRecords(Series(userId, illegal, d, start), other);
    }
  }

  /** Whether `user` is the illegal user; users are compared by id here. */
  predicate IsIllegalUser(user: User, illegalUser: User) {
    user.userId == illegalUser.userId
  }

  /** The records written for the first `n` users, in order. */
  function PlannedConsumption(users: seq<User>, illegalUser: User, draws: seq<ConsumptionDraw>, start: int, n: nat): seq<ConsumptionRecord>
    requires n <= |users| && |draws| == |users|
  {
    if n == 0 then []
    else PlannedConsumption(users, illegalUser, draws, start, n - 1)
         + Series(users[n - 1].userId, IsIllegalUser(users[n - 1], illegalUser), draws[n - 1], start)
  }

  /** The inner loop of `generate_water_consumption`: one user's weekly readings. */
  method ReadSeries(userId: string, illegal: bool, d: ConsumptionDraw, start: int) returns (series: seq<ConsumptionRecord>)
    ensures series == Series(userId, illegal, d, start)
  {
    series := [];
    var previous := Uniform(0.0, 100.0, d.baseline);
    var date := start;
    assert d.weeks[..0] == [];
    for k := 0 to |d.weeks|
      invariant |series| == k
      invariant forall j :: 0 <= j < k ==> series[j] == Reading(userId, illegal, d, start, j)
      invariant previous == ReadingBefore(illegal, d, k)
      invariant date == start + k * WEEK_DAYS * DAY
    {
      var current := previous + Increment(illegal, d.weeks[k]);
      series := series + [ConsumptionRecord(userId, date, current - previous, previous, current, current - previous)];
      ReadingStep(illegal, d, k);
      previous := current;
      date := date + WEEK_DAYS * DAY;
    }
  }

  /** `generate_water_consumption`: a year of weekly readings for every user, `recordsPerUser` each. */
  method GenerateWaterConsumption(users: seq<User>, illegalUser: User, draws: seq<ConsumptionDraw>, recordsPerUser: nat, now: int)
    returns (records: seq<ConsumptionRecord>)
    requires |draws| == |users|
    requires forall i :: 0 <= i < |draws| ==> |draws[i].weeks| == recordsPerUser
    ensures records == PlannedConsumption(users, illegalUser, draws, SeriesStart(now), |users|)
    ensures |records| == recordsPerUser * |users|
  {
    records := [];
    for i := 0 to |users|
      invariant records == PlannedConsumption(users, illegalUser, draws, SeriesStart(now), i)
      invariant |records| == recordsPerUser * i
    {
      var series := ReadSeries(users[i].userId, IsIllegalUser(users[i], illegalUser), draws[i], SeriesStart(now));
      records := records + series;
    }
  }

  /** With unit draws, a user's total lies in the user's weekly band times the number of weeks. */
  lemma IncrementsSumBounds(illegal: bool, weeks: seq<real>)
    requires forall u :: u in weeks ==> Unit(u)
    ensures illegal ==> 20.0 * |weeks| as real <= Sum(Increments(illegal, weeks)) <= 50.0 * |weeks| as real
    ensures !illegal ==> 0.0 <= Sum(Increments(illegal, weeks)) <= 10.0 * |weeks| as real
  {
    var xs := Increments(illegal, weeks);
    var lo, hi := if illegal then 20.0 else 0.0, if illegal then 50.0 else 10.0;
    forall x | x in xs ensures lo <= x <= hi {
      var k :| 0 <= k < |xs| && xs[k] == x;
      assert weeks[k] in weeks;
    }
    SumBounds(xs, lo, hi);
  }

  /** With distinct user ids, each user's total is the sum of that user's own increments. */
  lemma {:induction false} PlannedTotal(users: seq<User>, illegalUser: User, draws: seq<ConsumptionDraw>, start: int, n: nat, i: nat)
    requires n <= |users| && |draws| == |users| && i < |users|
    requires UniqueUserIds(users)
    ensures i < n ==> TotalConsumption(PlannedConsumption(users, illegalUser, draws, start, n), users[i].userId)
                      == Sum(Increments(IsIllegalUser(users[i], illegalUser), draws[i].weeks))
    ensures n <= i ==> TotalConsumption(PlannedConsumption(users, illegalUser, draws, start, n), users[i].userId) == 0.0
  {
    if n > 0 {
      PlannedTotal(users, illegalUser, draws, start, n - 1, i);
      var prior := PlannedConsumption(users, illegalUser, draws, start, n - 1);
      var series := Series(users[n - 1].userId, IsIllegalUser(users[n - 1], illegalUser), draws[n - 1], start);
      assert PlannedConsumption(users, illegalUser, draws, start, n) == prior + series;
      TotalConsumptionConcat(prior, series, users[i].userId);
      SeriesTotal(users[n - 1].userId, IsIllegalUser(users[n - 1], illegalUser), draws[n - 1], start, users[i].userId);
      if n - 1 != i {
        assert users[n - 1].userId != users[i].userId;
      }
    }
  }

  /** Every record belongs to one of the users, and every user with at least one week has a record. */
  lemma {:induction false} PlannedConsumptionOwners(users: seq<User>, illegalUser: User, draws: seq<ConsumptionDraw>, start: int, n: nat)
    requires n <= |users| && |draws| == |users|
    ensures forall r :: r in PlannedConsumption(users, illegalUser, draws, start, n) ==>
              exists j :: 0 <= j < n && users[j].userId == r.userId
    ensures forall j :: 0 <= j < n && draws[j].weeks != [] ==>
              exists r :: r in PlannedConsumption(users, illegalUser, draws, start, n) && r.userId == users[j].userId
  {
    if n > 0 {
      PlannedConsumptionOwners(users, illegalUser, draws, start, n - 1);
      var prior := PlannedConsumption(users, illegalUser, draws, start, n - 1);
      var series := Series(users[n - 1].userId, IsIllegalUser(users[n - 1], illegalUser), draws[n - 1], start);
      SeriesChained(users[n - 1].userId, IsIllegalUser(users[n - 1], illegalUser), draws[n - 1], start);
      assert PlannedConsumption(users, illegalUser, draws, start, n) == prior + series;
      forall r: ConsumptionRecord | r in prior + series ensures exists j :: 0 <= j < n && users[j].userId == r.userId {
        if r !in prior {
          var k :| 0 <= k < |series| && series[k] == r;
          assert users[n - 1].userId == r.userId;
        }
      }
      if draws[n - 1].weeks != [] {
        assert series[0] in prior + series;
      }
      assert forall r :: r in prior ==> r in prior + series;
    }
  }

  /** Consumption unit draws for every user, `weeks` weeks each. */
  predicate ConsumptionDrawsInRange(draws: seq<ConsumptionDraw>, weeks: nat) {
    forall i :: 0 <= i < |draws| ==> ConsumptionDrawInRange(draws[i]) && |draws[i].weeks| == weeks
  }

  /**
   * With at least one week of readings, the illegal user's total (at least
   * 20 m3 a week) exceeds every other user's (at most 10 m3 a week).
   */
  lemma IllegalUserConsumesMost(users: seq<User>, illegalUser: User, draws: seq<ConsumptionDraw>, start: int, weeks: nat, c: nat)
    requires |draws| == |users| && c < |users| && users[c] == illegalUser
    requires UniqueUserIds(users)
    requires ConsumptionDrawsInRange(draws, weeks) && weeks >= 1
    ensures var records := PlannedConsumption(users, illegalUser, draws, start, |users|);
      && 20.0 * weeks as real <= TotalConsumption(records, illegalUser.userId)
      && forall i :: 0 <= i < |users| && i != c ==>
           TotalConsumption(records, users[i].userId) <= 10.0 * weeks as real
           && TotalConsumption(records, users[i].userId) < TotalConsumption(records, illegalUser.userId)
  {
    var records := PlannedConsumption(users, illegalUser, draws, start, |users|);
    PlannedTotal(users, illegalUser, draws, start, |users|, c);
    IncrementsSumBounds(true, draws[c].weeks);
    forall i | 0 <= i < |users| && i != c
      ensures TotalConsumption(records, users[i].userId) <= 10.0 * weeks as real
    {
      PlannedTotal(users, illegalUser, draws, start, |users|, i);
      assert !IsIllegalUser(users[i], illegalUser);
      IncrementsSumBounds(false, draws[i].weeks);
    }
  }

  // ---------------------------------------------------------------------
  // generate_control_activities

  /** The random values behind one control activity: the sampled position among the legal wells and the faked fields. */
  datatype ActivityDraw = ActivityDraw(
    position: nat,
    controlId: string,
    dayOffset: int,
    controlType: ControlType,
    result: ControlResult,
    observations: string)

  /** Every well other than the planted one. */
  function LegalWells(wells: seq<Well>, illegalWell: Well): seq<Well> {
    Filter(wells, (w: Well) => w.wellId != illegalWell.wellId)
  }

  /** `int(0.9 * n)`: nine tenths of `n`, rounded down. */
  function NumActivities(n: nat): (r: nat)
    ensures r <= n
    ensures 10 * r <= 9 * n < 10 * r + 10
  {
    (9 * n) / 10
  }

  /** The sampled positions point into the legal wells, and each sampled well has a status change date. */
  predicate Sampled(legal: seq<Well>, draws: seq<ActivityDraw>) {
    forall k :: 0 <= k < |draws| ==> draws[k].position < |legal| && legal[draws[k].position].lastStatusChange.Some?
  }

  /** `random.sample` draws distinct positions; each day offset is drawn from `1..delta_days`. */
  predicate SampleInRange(legal: seq<Well>, draws: seq<ActivityDraw>, now: int)
    requires Sampled(legal, draws)
  {
    && (forall k, l :: 0 <= k < l < |draws| ==> draws[k].position != draws[l].position)
    && forall k :: 0 <= k < |draws| ==>
         OffsetInRange(legal[draws[k].position].lastStatusChange.value, draws[k].dayOffset, now)
  }

  /** One control activity on the sampled well, dated after its last status change. */
  function PlannedActivity(legal: seq<Well>, d: ActivityDraw, now: int): ControlActivity
    requires d.position < |legal| && legal[d.position].lastStatusChange.Some?
  {
    var well := legal[d.position];
    ControlActivity(d.controlId, LaterDate(well.lastStatusChange.value, d.dayOffset, now),
                    d.controlType, d.result, d.observations, well.wellId)
  }

  function PlannedActivities(legal: seq<Well>, draws: seq<ActivityDraw>, now: int): (activities: seq<ControlActivity>)
    requires Sampled(legal, draws)
    ensures |activities| == |draws|
    ensures forall k :: 0 <= k < |draws| ==> activities[k] == PlannedActivity(legal, draws[k], now)
  {
    seq(|draws|, k requires 0 <= k < |draws| => PlannedActivity(legal, draws[k], now))
  }

  /** `generate_control_activities`: one activity for each of `int(0.9 * len(legal_wells))` sampled legal wells. */
  method GenerateControlActivities(wells: seq<Well>, illegalWell: Well, draws: seq<ActivityDraw>, now: int)
    returns (activities: seq<ControlActivity>)
    requires |draws| == NumActivities(|LegalWells(wells, illegalWell)|)
    requires Sampled(LegalWells(wells, illegalWell), draws)
    ensures activities == PlannedActivities(LegalWells(wells, illegalWell), draws, now)
    ensures |activities| == NumActivities(|LegalWells(wells, illegalWell)|)
  {
    var legal := LegalWells(wells, illegalWell);
    var count := NumActivities(|legal|);
    activities := [];
    for k := 0 to count
      invariant activities == PlannedActivities(legal, draws[..k], now)
    {
      var well := legal[draws[k].position];
      var start := well.lastStatusChange.value;
      var date;
      if DaysBetween(now, start) > 0 {
        date := start + draws[k].dayOffset * DAY;
      } else {
        date := start;
      }
      activities := activities + [ControlActivity(draws[k].controlId, date, draws[k].controlType,
                                                  draws[k].result, draws[k].observations, well.wellId)];
      assert PlannedActivities(legal, draws[..k + 1], now) == PlannedActivities(legal, draws[..k], now) + [PlannedActivity(legal, draws[k], now)];
    }
    assert draws[..count] == draws;
  }

  /**
   * Each activity controls a legal well of the collection, never the planted
   * one, and is dated no earlier than the well's last status change, strictly
   * later when a day separates that change from `now`, and never after `now`
   * when the change is not in the future.
   */
  lemma ActivitiesDated(wells: seq<Well>, illegalWell: Well, draws: seq<ActivityDraw>, now: int)
    requires Sampled(LegalWells(wells, illegalWell), draws)
    requires SampleInRange(LegalWells(wells, illegalWell), draws, now)
    ensures var legal := LegalWells(wells, illegalWell);
            var activities := PlannedActivities(legal, draws, now);
            forall k :: 0 <= k < |activities| ==>
              var well := legal[draws[k].position];
              var change := well.lastStatusChange.value;
              && well in wells
              && activities[k].wellId == well.wellId != illegalWell.wellId
              && change <= activities[k].date
              && (DaysBetween(now, change) > 0 ==> change < activities[k].date)
              && (change <= now ==> activities[k].date <= now)
  {
    var legal := LegalWells(wells, illegalWell);
    forall k | 0 <= k < |draws|
      ensures var well := legal[draws[k].position];
              var change := well.lastStatusChange.value;
              && well in wells
              && well.wellId != illegalWell.wellId
              && change <= PlannedActivity(legal, draws[k], now).date
              && (DaysBetween(now, change) > 0 ==> change < PlannedActivity(legal, draws[k], now).date)
              && (change <= now ==> PlannedActivity(legal, draws[k], now).date <= now)
    {
      var well := legal[draws[k].position];
      assert well in legal;
      LaterDateBounds(well.lastStatusChange.value, draws[k].dayOffset, now);
    }
  }

  /** Keeping some wells of a collection with distinct ids keeps the ids distinct. */
  lemma {:induction false} FilterUniqueWellIds(wells: seq<Well>, p: Well -> bool)
    requires UniqueWellIds(wells)
    ensures UniqueWellIds(Filter(wells, p))
  {
    if wells != [] {
      var rest := Filter(wells[1..], p);
      FilterUniqueWellIds(wells[1..], p);
      forall w | w in rest ensures w.wellId != wells[0].wellId {
        var j :| 0 <= j < |wells[1..]| && wells[1..][j] == w;
        assert w == wells[j + 1];
      }
      if p(wells[0]) {
        var r := [wells[0]] + rest;
        forall i, j | 0 <= i < j < |r| ensures r[i].wellId != r[j].wellId {
          assert r[j] == rest[j - 1] && r[j] in rest;
          if i > 0 {
            assert r[i] == rest[i - 1];
          }
        }
      }
    }
  }

  /** Distinct sampled positions over wells with distinct ids give activities on distinct wells. */
  lemma ActivityWellsDistinct(wells: seq<Well>, illegalWell: Well, draws: seq<ActivityDraw>, now: int)
    requires Sampled(LegalWells(wells, illegalWell), draws)
    requires SampleInRange(LegalWells(wells, illegalWell), draws, now)
    requires UniqueWellIds(wells)
    ensures var activities := PlannedActivities(LegalWells(wells, illegalWell), draws, now);
            forall k, l :: 0 <= k < l < |activities| ==> activities[k].wellId != activities[l].wellId
  {
    FilterUniqueWellIds(wells, (w: Well) => w.wellId != illegalWell.wellId);
  }

  // ---------------------------------------------------------------------
  // main

  /** `generate_users(1000)` in `main`. */
  const NUM_USERS: nat := 1000

  /** Every random value one run of the generator draws. */
  datatype VillageDraws = VillageDraws(
    users: seq<UserDraw>,
    illegalChoice: nat,
    illegalWellId: string,
    illegalLocation: Location,
    wells: seq<seq<WellDraw>>,
    consumption: seq<ConsumptionDraw>,
    activities: seq<ActivityDraw>)

  /** The draws fit the calls: a chosen user, one well list and one consumption series of `weeks` weeks per user. */
  predicate Shaped(d: VillageDraws, weeks: nat) {
    && d.illegalChoice < |d.users|
    && |d.wells| == |d.users|
    && |d.consumption| == |d.users|
    && forall i :: 0 <= i < |d.consumption| ==> |d.consumption[i].weeks| == weeks
  }

  function UsersOf(d: VillageDraws): seq<User> {
    NewUsers(d.users)
  }

  function IllegalUserOf(d: VillageDraws): User
    requires d.illegalChoice < |d.users|
  {
    UsersOf(d)[d.illegalChoice]
  }

  function IllegalWellOf(d: VillageDraws): Well
    requires d.illegalChoice < |d.users|
  {
    IllegalWell(IllegalUserOf(d), d.illegalWellId, d.illegalLocation)
  }

  function WellsOf(d: VillageDraws, now: int): seq<Well>
    requires d.illegalChoice < |d.users| && |d.wells| == |d.users|
  {
    PlannedWells(UsersOf(d), IllegalUserOf(d), IllegalWellOf(d), d.wells, now)
  }

  function LegalWellsOfVillage(d: VillageDraws, now: int): seq<Well>
    requires d.illegalChoice < |d.users| && |d.wells| == |d.users|
  {
    LegalWells(WellsOf(d, now), IllegalWellOf(d))
  }

  /** The sample has the size `main` asks for and points at legal wells with a status change date. */
  predicate SampleShaped(d: VillageDraws, now: int)
    requires d.illegalChoice < |d.users| && |d.wells| == |d.users|
  {
    && |d.activities| == NumActivities(|LegalWellsOfVillage(d, now)|)
    && Sampled(LegalWellsOfVillage(d, now), d.activities)
  }

  function ConsumptionOf(d: VillageDraws, now: int): seq<ConsumptionRecord>
    requires d.illegalChoice < |d.users| && |d.consumption| == |d.users|
  {
    PlannedConsumption(UsersOf(d), IllegalUserOf(d), d.consumption, SeriesStart(now), |d.users|)
  }

  function ActivitiesOf(d: VillageDraws, now: int): seq<ControlActivity>
    requires d.illegalChoice < |d.users| && |d.wells| == |d.users| && SampleShaped(d, now)
  {
    PlannedActivities(LegalWellsOfVillage(d, now), d.activities, now)
  }

  /** The four collections one run writes. */
  function PlannedVillage(d: VillageDraws, weeks: nat, now: int): Village
    requires Shaped(d, weeks) && SampleShaped(d, now)
  {
    Village(UsersOf(d), WellsOf(d, now), ConsumptionOf(d, now), ActivitiesOf(d, now))
  }

  /**
   * Every draw lies in the range its random function draws from, and the
   * generated identifiers are distinct (version 4 uuids are taken never to
   * collide).
   */
  predicate DrawsInRange(d: VillageDraws, weeks: nat, now: int)
    requires Shaped(d, weeks) && SampleShaped(d, now)
  {
    && (forall u :: u in d.users ==> UserDrawInRange(u, now))
    && WellDrawsInRange(UsersOf(d), IllegalUserOf(d), d.wells, now)
    && ConsumptionDrawsInRange(d.consumption, weeks)
    && SampleInRange(LegalWellsOfVillage(d, now), d.activities, now)
    && UniqueUserIds(UsersOf(d))
    && UniqueWellIds(WellsOf(d, now))
  }

  /** A run of the generator: draws that fit the calls and lie in their ranges. */
  predicate Generated(d: VillageDraws, weeks: nat, now: int) {
    Shaped(d, weeks) && SampleShaped(d, now) && DrawsInRange(d, weeks, now)
  }

  /** `main`: users, then wells, then consumption, then control activities, each written to its collection. */
  method GenerateVillage(d: VillageDraws, now: int) returns (v: Village, illegalUser: User, illegalWell: Well)
    requires |d.users| == NUM_USERS
    requires Shaped(d, RECORDS_PER_USER) && SampleShaped(d, now)
    ensures v == PlannedVillage(d, RECORDS_PER_USER, now)
    ensures illegalUser == IllegalUserOf(d) && illegalWell == IllegalWellOf(d)
  {
    var users := GenerateUsers(d.users);
    var wells;
    wells, illegalUser, illegalWell := GenerateRegisteredWells(users, d.illegalChoice, d.illegalWellId, d.illegalLocation, d.wells, now);
    var consumption := GenerateWaterConsumption(users, illegalUser, d.consumption, RECORDS_PER_USER, now);
    var activities := GenerateControlActivities(wells, illegalWell, d.activities, now);
    v := Village(users, wells, consumption, activities);
  }
}
