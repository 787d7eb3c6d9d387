/** The reservation ledger (index.js:410-467): a mini-raffle winner's right to
    claim a number of main slots before a deadline, kept per main raffle as
    `data.reservations[mainKey][userId] = {remaining, expiresAt}`. Reading the
    ledger prunes entries that have expired or are used up. */
module Ledger {

  import opened Common

  const MinuteMs: int := 60 * 1000

  datatype Reservation = Reservation(remaining: int, expiresAt: int)

  /** One main raffle's reservations, by member. */
  type Bucket = map<UserId, Reservation>

  /** All buckets, by raffle key. */
  type Reservations = map<string, Bucket>

  /** An entry `getReservation` keeps: not past its deadline, something left. */
  predicate IsLive(r: Reservation, now: int) {
    now <= r.expiresAt && r.remaining > 0
  }

  /** The live entries of a bucket. */
  function LiveOnly(b: Bucket, now: int): Bucket {
    map u | u in b && IsLive(b[u], now) :: b[u]
  }

  /** The sum of `remaining` over a bucket. */
  ghost function SumRemaining(b: Bucket): int
    decreases |b|
  {
    if b == map[] then 0
    else
      EmptyOrHasElement(b.Keys);
      var u :| u in b;
      b[u].remaining + SumRemaining(b - {u})
  }

  /** The sum does not depend on the order entries are visited in: any entry
      can be taken out first. */
  lemma {:induction false} SumRemainingRemove(b: Bucket, u: UserId)
    requires u in b
    ensures SumRemaining(b) == b[u].remaining + SumRemaining(b - {u})
    decreases |b|
  {
    EmptyOrHasElement(b.Keys);
    var v :| v in b && SumRemaining(b) == b[v].remaining + SumRemaining(b - {v});
    if v != u {
      var rest := b - {u} - {v};
      assert b - {v} - {u} == rest;
      SumRemainingRemove(b - {v}, u);
      SumRemainingRemove(b - {u}, v);
    }
  }

  /** A bucket of live entries sums to a positive total unless it is empty. */
  lemma {:induction false} SumOfLive(b: Bucket, now: int)
    requires forall u :: u in b ==> IsLive(b[u], now)
    ensures SumRemaining(b) >= |b|
    ensures SumRemaining(b) == 0 <==> b == map[]
    decreases |b|
  {
    if b != map[] {
      EmptyOrHasElement(b.Keys);
      var u :| u in b;
      SumRemainingRemove(b, u);
      SumOfLive(b - {u}, now);
    }
  }

  // --------------------------------------------------------------- operations

  /** `getReservation` (index.js:411-423): the member's entry if it is live.
      A dead entry is deleted on the way; the bucket itself is kept. */
  function GetReservation(rs: Reservations, key: string, u: UserId, now: int): (Option<Reservation>, Reservations) {
    if key !in rs || u !in rs[key] then (None, rs)
    else if !IsLive(rs[key][u], now) then (None, rs[key := rs[key] - {u}])
    else (Some(rs[key][u]), rs)
  }

  /** `setReservation` (index.js:425-433): creates the bucket if needed and
      (re)places the member's entry with a deadline `minutes` from now. */
  function SetReservation(rs: Reservations, key: string, u: UserId, remaining: int, minutes: int, now: int): Reservations {
    var bucket := if key in rs then rs[key] else map[];
    rs[key := bucket[u := Reservation(remaining, now + minutes * MinuteMs)]]
  }

  /** `useReservation` (index.js:435-442): takes `used` off a live entry and
      deletes the entry once nothing is left; the updated entry is returned. */
  function UseReservation(rs: Reservations, key: string, u: UserId, used: int, now: int): (Option<Reservation>, Reservations) {
    var (got, rs1) := GetReservation(rs, key, u, now);
    if got.None? then (None, rs1)
    else
      var r := got.value.(remaining := got.value.remaining - used);
      if r.remaining <= 0 then (Some(r), rs1[key := rs1[key] - {u}])
      else (Some(r), rs1[key := rs1[key][u := r]])
  }

  /** The pruning loop of `reservedTotal` (index.js:450-458): deletes every
      dead entry and adds up `remaining` over the others. */
  method PruneAndSum(bucket: Bucket, now: int) returns (kept: Bucket, total: int)
    ensures kept == LiveOnly(bucket, now)
    ensures total == SumRemaining(kept)
  {
    kept := bucket;
    total := 0;
    var todo := bucket.Keys;
    ghost var done: Bucket := map[];
    while todo != {}
      invariant todo <= bucket.Keys
      invariant forall u :: u in done <==> u in bucket && u !in todo && IsLive(bucket[u], now)
      invariant forall u :: u in done ==> done[u] == bucket[u]
      invariant forall u :: u in kept <==> u in done || u in todo
      invariant forall u :: u in kept ==> kept[u] == bucket[u]
      invariant total == SumRemaining(done)
      decreases |todo|
    {
      EmptyOrHasElement(todo);
      var u :| u in todo;
      var r := kept[u];
      if !IsLive(r, now) {
        kept := kept - {u};
      } else {
        SumRemainingRemove(done[u := r], u);
        assert done[u := r] - {u} == done;
        done := done[u := r];
        total := total + r.remaining;
      }
      todo := todo - {u};
    }
    assert kept == done;
  }

  /** `reservedTotal` (index.js:444-461): no bucket counts 0 and changes
      nothing; otherwise the bucket is pruned to its live entries and their
      remaining counts are summed. */
  ghost function ReservedTotal(rs: Reservations, key: string, now: int): (int, Reservations) {
    if key !in rs then (0, rs)
    else (SumRemaining(LiveOnly(rs[key], now)), rs[key := LiveOnly(rs[key], now)])
  }

  /** `computeMainsLeft` (index.js:463-467) from its three inputs. */
  function MainsLeft(max: int, claimed: int, reserved: int): (left: int)
    ensures left >= 0
    ensures left >= max - claimed - reserved
    ensures left == 0 || left == max - claimed - reserved
  {
    if max - claimed - reserved < 0 then 0 else max - claimed - reserved
  }

  // ------------------------------------------------------------------- lemmas

  /** What `getReservation` reports is live. */
  lemma GetReservationLive(rs: Reservations, key: string, u: UserId, now: int)
    ensures var got := GetReservation(rs, key, u, now).0;
      got.Some? ==> IsLive(got.value, now)
  {
  }

  /** `getReservation` reports exactly the live entry and then leaves the
      ledger as it was; otherwise the member has no dead entry left: their
      entry is absent or live. No other member or raffle is touched. */
  lemma GetReservationPrunes(rs: Reservations, key: string, u: UserId, now: int)
    ensures var (got, rs2) := GetReservation(rs, key, u, now);
      && (got.Some? <==> key in rs && u in rs[key] && IsLive(rs[key][u], now))
      && (got.Some? ==> got.value == rs[key][u] && rs2 == rs)
      && (key in rs2 && u in rs2[key] ==> IsLive(rs2[key][u], now))
      && rs2.Keys == rs.Keys
      && (forall k :: k in rs && k != key ==> rs2[k] == rs[k])
      && (key in rs ==> forall v :: v in rs[key] && v != u ==> v in rs2[key] && rs2[key][v] == rs[key][v])
  {
  }

  /** Setting a reservation and reading it back at once, for a positive
      count and a deadline not in the past, gives the entry that was set. */
  lemma SetThenGet(rs: Reservations, key: string, u: UserId, remaining: int, minutes: int, now: int)
    requires remaining > 0 && minutes >= 0
    ensures GetReservation(SetReservation(rs, key, u, remaining, minutes, now), key, u, now).0
            == Some(Reservation(remaining, now + minutes * MinuteMs))
  {
  }

  /** Using part of a live reservation lowers it by that much; using all of it
      deletes it. */
  lemma UseReservationEffect(rs: Reservations, key: string, u: UserId, used: int, now: int)
    requires key in rs && u in rs[key] && IsLive(rs[key][u], now)
    ensures var (got, rs2) := UseReservation(rs, key, u, used, now);
      && got == Some(rs[key][u].(remaining := rs[key][u].remaining - used))
      && (used < rs[key][u].remaining ==> u in rs2[key] && rs2[key][u] == got.value)
      && (used >= rs[key][u].remaining ==> u !in rs2[key])
      && (forall v :: v in rs[key] && v != u ==> v in rs2[key] && rs2[key][v] == rs[key][v])
  {
  }

  /** A claim that uses `used` of a live reservation, with `0 <= used <=
      remaining`, lowers the raffle's reserved total by exactly `used`. */
  lemma UseLowersReservedTotal(rs: Reservations, key: string, u: UserId, used: int, now: int)
    requires key in rs && u in rs[key] && IsLive(rs[key][u], now)
    requires 0 <= used <= rs[key][u].remaining
    ensures ReservedTotal(UseReservation(rs, key, u, used, now).1, key, now).0
            == ReservedTotal(rs, key, now).0 - used
  {
    var b := rs[key];
    var r := b[u];
    var rs2 := UseReservation(rs, key, u, used, now).1;
    var before := LiveOnly(b, now);
    var after := LiveOnly(rs2[key], now);
    SumRemainingRemove(before, u);
    if used < r.remaining {
      assert after == before[u := r.(remaining := r.remaining - used)];
      SumRemainingRemove(after, u);
      assert after - {u} == before - {u};
    } else {
      assert after == before - {u};
    }
  }

  /** After `reservedTotal` the bucket holds live entries only, its total is
      at least the number of members holding a reservation, and it is 0
      exactly when nobody does. */
  lemma ReservedTotalEffect(rs: Reservations, key: string, now: int)
    ensures var (total, rs2) := ReservedTotal(rs, key, now);
      && rs2.Keys == rs.Keys
      && (key in rs2 ==> forall u :: u in rs2[key] ==> IsLive(rs2[key][u], now))
      && (key in rs2 ==> total >= |rs2[key]|)
      && (total == 0 <==> key !in rs2 || rs2[key] == map[])
      && (forall k :: k in rs && k != key ==> rs2[k] == rs[k])
  {
    if key in rs {
      SumOfLive(LiveOnly(rs[key], now), now);
    }
  }

  /** Pruning twice at the same instant changes nothing the second time. */
  lemma ReservedTotalIdempotent(rs: Reservations, key: string, now: int)
    ensures var (total, rs2) := ReservedTotal(rs, key, now);
      ReservedTotal(rs2, key, now) == (total, rs2)
  {
    if key in rs {
      var live := LiveOnly(rs[key], now);
      assert LiveOnly(live, now) == live;
      assert rs[key := live][key := live] == rs[key := live];
    }
  }
}
