/** The table of online-data subscriptions, `SubscriptionHandler`: unit id
    to the subscription the platform issued for that unit and when. */
module Subscriptions {
  import opened Ints
  import opened Clock

  /** A subscription is expired once its age exceeds this many whole minutes. */
  const LifetimeMinutes: nat := 10

  datatype Subscription = Subscription(uuid: string, createdAt: Instant)
  {
    /** `Subscription::is_expired` evaluated at `now`: the age, truncated to
        whole minutes toward zero, is greater than the lifetime, which
        happens exactly from 11 minutes of age on. */
    predicate IsExpired(now: Instant): (expired: bool)
      ensures expired <==> now - createdAt >= (LifetimeMinutes + 1) * NanosPerMinute
    {
      NumMinutesExceeds(now - createdAt, LifetimeMinutes);
      NumMinutes(now - createdAt) > LifetimeMinutes
    }
  }

  /** A subscription created after `now` is not expired: a negative age
      never exceeds the lifetime. */
  lemma FutureNotExpired(s: Subscription, now: Instant)
    requires now < s.createdAt
    ensures !s.IsExpired(now)
  {
  }

  /** One nanosecond short of 11 minutes (10 min 59.999999999 s) is not
      expired; 11 minutes exactly is. */
  lemma ExpiryBoundary(s: Subscription)
    ensures !s.IsExpired(s.createdAt + 11 * NanosPerMinute - 1)
    ensures s.IsExpired(s.createdAt + 11 * NanosPerMinute)
  {
  }

  /** The entries of a table that survive a sweep at `now`. */
  function Unexpired(m: map<I32, Subscription>, now: Instant): (r: map<I32, Subscription>)
    ensures forall id :: id in r <==> id in m && !m[id].IsExpired(now)
    ensures forall id :: id in r ==> r[id] == m[id]
  {
    map id | id in m && !m[id].IsExpired(now) :: m[id]
  }

  /** A second sweep at the same instant changes nothing. */
  lemma UnexpiredIdempotent(m: map<I32, Subscription>, now: Instant)
    ensures Unexpired(Unexpired(m, now), now) == Unexpired(m, now)
  {
    var once := Unexpired(m, now);
    var twice := Unexpired(once, now);
    assert twice.Keys == once.Keys;
  }

  /** A later sweep never keeps an entry an earlier one dropped: ageing
      only ever expires subscriptions. */
  lemma UnexpiredShrinksOverTime(m: map<I32, Subscription>, earlier: Instant, later: Instant)
    requires earlier <= later
    ensures Unexpired(m, later).Keys <= Unexpired(m, earlier).Keys
  {
    forall id | id in Unexpired(m, later)
      ensures id in Unexpired(m, earlier)
    {
    }
  }

  class SubscriptionHandler {
    var subscriptions: map<I32, Subscription>

    /** `SubscriptionHandler::new`: an empty table. */
    constructor ()
      ensures subscriptions == map[]
    {
      subscriptions := map[];
    }

    /** `add_subscription`: insert or replace the entry for `unitId` with a
        subscription created at `now`; the latest uuid wins. */
    method AddSubscription(unitId: I32, uuid: string, now: Instant)
      modifies this
      ensures unitId in subscriptions && subscriptions[unitId] == Subscription(uuid, now)
      ensures subscriptions.Keys == old(subscriptions).Keys + {unitId}
      ensures forall id :: id in old(subscriptions) && id != unitId ==> subscriptions[id] == old(subscriptions)[id]
    {
      subscriptions := subscriptions[unitId := Subscription(uuid, now)];
    }

    /** `remove_subscription`: drop the entry for `unitId`, if any; every
        other entry is kept as it was. */
    method RemoveSubscription(unitId: I32)
      modifies this
      ensures subscriptions.Keys == old(subscriptions).Keys - {unitId}
      ensures forall id :: id in subscriptions ==> subscriptions[id] == old(subscriptions)[id]
      ensures unitId !in old(subscriptions) ==> subscriptions == old(subscriptions)
    {
      subscriptions := subscriptions - {unitId};
    }

    /** `is_exist`: whether the table holds an entry for `unitId`, expired
        or not. */
    method IsExist(unitId: I32) returns (b: bool)
      ensures b <==> unitId in subscriptions
    {
      b := unitId in subscriptions;
    }

    /** `clear_expired`: keep exactly the entries not expired at `now`. */
    method ClearExpired(now: Instant)
      modifies this
      ensures subscriptions == Unexpired(old(subscriptions), now)
    {
      subscriptions := Unexpired(subscriptions, now);
    }
  }

  /** test_add_subscription and test_is_exist: after adding unit 1, unit 1
      exists and unit 2 does not. */
  method AddThenExists(now: Instant) returns (has1: bool, has2: bool)
    ensures has1 && !has2
  {
    var handler := new SubscriptionHandler();
    handler.AddSubscription(1, "uuid-1", now);
    has1 := handler.IsExist(1);
    has2 := handler.IsExist(2);
  }

  /** test_add_subscription_duplicate: re-adding a unit keeps the latest uuid. */
  method AddDuplicate(t1: Instant, t2: Instant) returns (uuid: string)
    ensures uuid == "uuid-2"
  {
    var handler := new SubscriptionHandler();
    handler.AddSubscription(1, "uuid-1", t1);
    handler.AddSubscription(1, "uuid-2", t2);
    uuid := handler.subscriptions[1].uuid;
  }

  /** test_remove_subscription and test_remove_nonexistent_subscription:
      a removed unit does not exist, and removing from an empty table
      leaves it empty. */
  method RemoveThenAbsent(now: Instant) returns (afterRemove: bool, afterRemoveAbsent: bool)
    ensures !afterRemove && !afterRemoveAbsent
  {
    var handler := new SubscriptionHandler();
    handler.AddSubscription(1, "uuid-1", now);
    handler.RemoveSubscription(1);
    afterRemove := handler.IsExist(1);
    var empty := new SubscriptionHandler();
    empty.RemoveSubscription(1);
    afterRemoveAbsent := empty.IsExist(1);
  }

  /** test_clear_expired: unit 1 added at `added`; unit 2 inserted with a
      creation time one day before `stamped`, the instant the test reads
      the clock for it; unit 2's expiry checked at `checked`; then a sweep
      at `now`, all within the 11 minutes a test run takes at most. Unit 2
      is expired and swept; unit 1 survives. */
  method ClearExpiredDropsDayOld(added: Instant, stamped: Instant, checked: Instant, now: Instant)
    returns (expired2: bool, has1: bool, has2: bool)
    requires added <= stamped <= checked <= now < added + 11 * NanosPerMinute
    ensures expired2 && has1 && !has2
  {
    var handler := new SubscriptionHandler();
    handler.AddSubscription(1, "uuid-1", added);
    var stale := Subscription("uuid-expired", stamped - NanosPerDay);
    handler.subscriptions := handler.subscriptions[2 := stale];
    expired2 := handler.subscriptions[2].IsExpired(checked);
    handler.ClearExpired(now);
    has1 := handler.IsExist(1);
    has2 := handler.IsExist(2);
  }

  /** test_clear_expired_no_expired: two fresh subscriptions, each stamped
      when it is added, both survive a sweep made within 11 minutes of the
      first add. */
  method ClearExpiredKeepsFresh(added1: Instant, added2: Instant, now: Instant) returns (has1: bool, has2: bool)
    requires added1 <= added2 <= now < added1 + 11 * NanosPerMinute
    ensures has1 && has2
  {
    var handler := new SubscriptionHandler();
    handler.AddSubscription(1, "uuid-1", added1);
    handler.AddSubscription(2, "uuid-2", added2);
    handler.ClearExpired(now);
    has1 := handler.IsExist(1);
    has2 := handler.IsExist(2);
  }
}
