/** The mod-only `total` command (index.js:728-766): what each member owes
    for the slots they hold. A slot's price is shared equally among its
    holders, each member's sum is rounded with `Math.round`, and the grand
    total adds the rounded sums. Amounts are kept in half coins, which is
    exact because a slot has at most two holders. */
module Totals {

  import opened Common
  import opened Raffles

  /** A JavaScript `Map` from member to amount owed, in half coins: the
      members in insertion order and their amounts. */
  datatype Tally = Tally(order: seq<UserId>, half: map<UserId, nat>)

  const EmptyTally := Tally([], map[])

  /** The order lists each key of the map exactly once. */
  ghost predicate TallyOk(t: Tally) {
    NoDuplicates(t.order) && forall u :: u in t.half <==> u in t.order
  }

  /** `perUser.set(uid, (perUser.get(uid) || 0) + share)`. */
  function Credit(t: Tally, u: UserId, share: nat): Tally {
    if u in t.half then Tally(t.order, t.half[u := t.half[u] + share])
    else Tally(t.order + [u], t.half[u := share])
  }

  /** `owners.forEach(...)` crediting each holder. */
  function CreditAll(t: Tally, owners: seq<UserId>, share: nat): Tally {
    if owners == [] then t
    else Credit(CreditAll(t, owners[..|owners| - 1], share), owners[|owners| - 1], share)
  }

  /** One holder's share of a slot, in half coins: `price / owners.length`. */
  function HalfShare(price: nat, holders: nat): nat
    requires 1 <= holders <= 2
  {
    if holders == 1 then 2 * price else price
  }

  /** The per-member amounts after visiting `keys` in order. */
  function TallySlots(claims: Claims, keys: seq<int>, price: nat): Tally
    requires forall k :: k in claims ==> |claims[k]| <= 2
  {
    if keys == [] then EmptyTally
    else
      var t := TallySlots(claims, keys[..|keys| - 1], price);
      var k := keys[|keys| - 1];
      if k !in claims || |claims[k]| == 0 then t
      else CreditAll(t, claims[k], HalfShare(price, |claims[k]|))
  }

  /** The visited keys that have holders, as a set. */
  function ClaimedIn(claims: Claims, keys: seq<int>): set<int> {
    set k | k in keys && k in claims && |claims[k]| > 0
  }

  /** `claimedSlots`: the visited keys that have holders. */
  function ClaimedAmong(claims: Claims, keys: seq<int>): nat {
    if keys == [] then 0
    else
      var k := keys[|keys| - 1];
      ClaimedAmong(claims, keys[..|keys| - 1]) + (if k in claims && |claims[k]| > 0 then 1 else 0)
  }

  /** `participants`: everyone holding a visited slot. */
  function HoldersAmong(claims: Claims, keys: seq<int>): set<UserId> {
    set k, u | k in keys && k in claims && u in claims[k] :: u
  }

  /** The sum of the amounts, in the map's order. */
  function HalfSum(order: seq<UserId>, half: map<UserId, nat>): nat {
    if order == [] then 0
    else
      var u := order[|order| - 1];
      HalfSum(order[..|order| - 1], half) + (if u in half then half[u] else 0)
  }

  function TallySum(t: Tally): nat { HalfSum(t.order, t.half) }

  /** `Math.round(amt)` for `amt` = `h` half coins (halves round up). */
  function RoundHalf(h: nat): nat { (h + 1) / 2 }

  /** The grand total: the rounded amounts added up. */
  function RoundedSum(order: seq<UserId>, half: map<UserId, nat>): nat {
    if order == [] then 0
    else
      var u := order[|order| - 1];
      RoundedSum(order[..|order| - 1], half) + (if u in half then RoundHalf(half[u]) else 0)
  }

  /** The rounded amount a member owes, in coins. */
  function Owed(t: Tally, u: UserId): nat {
    if u in t.half then RoundHalf(t.half[u]) else 0
  }

  /** The lines `total` prints: every member in first-credit order with the
      rounded amount they owe. */
  function Amounts(t: Tally): seq<(UserId, nat)> {
    seq(|t.order|, i requires 0 <= i < |t.order| => (t.order[i], Owed(t, t.order[i])))
  }

  /** How many members' amounts end in half a coin. */
  function OddCount(order: seq<UserId>, half: map<UserId, nat>): nat {
    if order == [] then 0
    else
      var u := order[|order| - 1];
      OddCount(order[..|order| - 1], half) + (if u in half && half[u] % 2 == 1 then 1 else 0)
  }

  datatype TotalError = TotalModsOnly | TotalNoRaffle

  /** What `total` reports: slots claimed out of max, the number of
      participants, and, when a price can be read, the members in order with
      their rounded amounts and the grand total. */
  datatype TotalReport = TotalReport(claimedSlots: nat, max: int, participants: nat,
                                     amounts: Option<seq<(UserId, nat)>>, grand: Option<nat>)

  // ------------------------------------------------------------------- loops

  /** The slot loop of `total` (index.js:737-747), over the raffle's slots in
      ascending order (the order `Object.values` visits integer keys). */
  method TallyClaims(claims: Claims, keys: seq<int>, price: Option<nat>)
    returns (slots: nat, people: set<UserId>, t: Tally)
    requires forall k :: k in claims ==> |claims[k]| <= 2
    ensures slots == ClaimedAmong(claims, keys)
    ensures people == HoldersAmong(claims, keys)
    ensures t == (if price.Some? then TallySlots(claims, keys, price.value) else EmptyTally)
  {
    slots, people, t := 0, {}, EmptyTally;
    for i := 0 to |keys|
      invariant slots == ClaimedAmong(claims, keys[..i])
      invariant people == HoldersAmong(claims, keys[..i])
      invariant t == (if price.Some? then TallySlots(claims, keys[..i], price.value) else EmptyTally)
    {
      assert keys[..i + 1][..i] == keys[..i];
      var k := keys[i];
      if k in claims && |claims[k]| > 0 {
        var owners := claims[k];
        slots := slots + 1;
        people := people + set u | u in owners;
        if price.Some? {
          var share := HalfShare(price.value, |owners|);
          ghost var t0 := t;
          for j := 0 to |owners|
            invariant t == CreditAll(t0, owners[..j], share)
          {
            assert owners[..j + 1][..j] == owners[..j];
            t := Credit(t, owners[j], share);
          }
          assert owners[..|owners|] == owners;
        }
      }
      assert HoldersAmong(claims, keys[..i + 1]) == people by {
        forall u ensures u in HoldersAmong(claims, keys[..i + 1]) <==> u in people {
          if u in HoldersAmong(claims, keys[..i + 1]) {
            var k' :| k' in keys[..i + 1] && k' in claims && u in claims[k'];
            if k' != k { assert k' in keys[..i]; }
          }
          if u in people && !(u in HoldersAmong(claims, keys[..i])) {
            assert k in keys[..i + 1];
          }
        }
      }
    }
    assert keys[..|keys|] == keys;
  }

  /** The rounding loop of `total` (index.js:755-760). */
  method SumRounded(t: Tally) returns (amounts: seq<(UserId, nat)>, grand: nat)
    ensures grand == RoundedSum(t.order, t.half)
    ensures |amounts| == |t.order|
    ensures amounts == Amounts(t)
  {
    amounts, grand := [], 0;
    for i := 0 to |t.order|
      invariant grand == RoundedSum(t.order[..i], t.half)
      invariant |amounts| == i
      invariant amounts == Amounts(t)[..i]
    {
      assert t.order[..i + 1][..i] == t.order[..i];
      var u := t.order[i];
      var rounded := Owed(t, u);
      grand := grand + rounded;
      amounts := amounts + [(u, rounded)];
    }
    assert t.order[..|t.order|] == t.order;
    assert Amounts(t)[..|t.order|] == Amounts(t);
  }

  /** `total` on a raffle (index.js:728-766). */
  method Total(r: Raffle, isMod: bool) returns (out: Result<TotalReport, TotalError>)
    requires WellFormed(r)
    ensures out.Err? <==> !isMod || r.max == 0
    ensures out.Err? ==> out.error == (if !isMod then TotalModsOnly else TotalNoRaffle)
    ensures out.Ok? ==>
      var price := ParseCoinPrice(r.priceText);
      var keys := SlotList(r.max);
      && out.value.claimedSlots == |ClaimedKeys(r.claims)|
      && out.value.max == r.max
      && out.value.participants == |HoldersAmong(r.claims, keys)|
      && (price.None? ==> out.value.amounts.None? && out.value.grand.None?)
      && (price.Some? ==>
            var t := TallySlots(r.claims, keys, price.value);
            && out.value.amounts == Some(Amounts(t))
            && out.value.grand == Some(RoundedSum(t.order, t.half)))
  {
    if !isMod {
      return Err(TotalModsOnly);
    }
    if r.max == 0 {
      return Err(TotalNoRaffle);
    }
    var price := ParseCoinPrice(r.priceText);
    var keys := SlotList(r.max);
    var slots, people, t := TallyClaims(r.claims, keys, price);
    ClaimedAmongAll(r);
    if price.None? {
      return Ok(TotalReport(slots, r.max, |people|, None, None));
    }
    var amounts, grand := SumRounded(t);
    return Ok(TotalReport(slots, r.max, |people|, Some(amounts), Some(grand)));
  }

  // ------------------------------------------------------------------ lemmas

  /** Visiting 1..max counts exactly the claimed slots of a well-formed raffle. */
  lemma ClaimedAmongAll(r: Raffle)
    requires WellFormed(r)
    ensures ClaimedAmong(r.claims, SlotList(r.max)) == |ClaimedKeys(r.claims)|
  {
    var keys := SlotList(r.max);
    assert NoDuplicates(keys);
    ClaimedAmongCounts(r.claims, keys);
    assert ClaimedIn(r.claims, keys) == ClaimedKeys(r.claims);
  }

  lemma {:induction false} ClaimedAmongCounts(claims: Claims, keys: seq<int>)
    requires NoDuplicates(keys)
    ensures ClaimedAmong(claims, keys) == |ClaimedIn(claims, keys)|
  {
    if keys == [] {
      assert ClaimedIn(claims, keys) == {};
    } else {
      var p := keys[..|keys| - 1];
      var k := keys[|keys| - 1];
      assert NoDuplicates(p) && k !in p;
      ClaimedAmongCounts(claims, p);
      var before := ClaimedIn(claims, p);
      var after := ClaimedIn(claims, keys);
      assert forall j :: j in keys <==> j in p || j == k;
      if k in claims && |claims[k]| > 0 {
        assert after == before + {k};
      } else {
        assert after == before;
      }
    }
  }

  /** The sum ignores an entry whose member is not in the order. */
  lemma {:induction false} HalfSumIgnores(order: seq<UserId>, half: map<UserId, nat>, u: UserId, v: nat)
    requires u !in order
    ensures HalfSum(order, half[u := v]) == HalfSum(order, half)
    ensures OddCount(order, half[u := v]) == OddCount(order, half)
  {
    if order != [] {
      HalfSumIgnores(order[..|order| - 1], half, u, v);
    }
  }

  /** Changing one listed member's amount changes the sum by the difference. */
  lemma {:induction false} HalfSumUpdate(order: seq<UserId>, half: map<UserId, nat>, u: UserId, v: nat)
    requires NoDuplicates(order) && u in order && u in half
    ensures HalfSum(order, half[u := v]) == HalfSum(order, half) - half[u] + v
  {
    var p := order[..|order| - 1];
    var x := order[|order| - 1];
    assert NoDuplicates(p);
    if x == u {
      assert u !in p;
      HalfSumIgnores(p, half, u, v);
    } else {
      assert u in p;
      HalfSumUpdate(p, half, u, v);
    }
  }

  /** Crediting a share adds it to the sum and keeps the map well formed. */
  lemma CreditAdds(t: Tally, u: UserId, share: nat)
    requires TallyOk(t)
    ensures TallyOk(Credit(t, u, share))
    ensures TallySum(Credit(t, u, share)) == TallySum(t) + share
  {
    if u in t.half {
      HalfSumUpdate(t.order, t.half, u, t.half[u] + share);
    } else {
      HalfSumIgnores(t.order, t.half, u, share);
      var t2 := Credit(t, u, share);
      assert t2.order[..|t2.order| - 1] == t.order;
    }
  }

  lemma {:induction false} CreditAllOk(t: Tally, owners: seq<UserId>, share: nat)
    requires TallyOk(t)
    ensures TallyOk(CreditAll(t, owners, share))
  {
    if owners != [] {
      var p := owners[..|owners| - 1];
      CreditAllOk(t, p, share);
      CreditAdds(CreditAll(t, p, share), owners[|owners| - 1], share);
    }
  }

  lemma {:induction false} CreditAllAdds(t: Tally, owners: seq<UserId>, share: nat)
    requires TallyOk(t)
    ensures TallySum(CreditAll(t, owners, share)) == TallySum(t) + |owners| * share
  {
    if owners != [] {
      var p := owners[..|owners| - 1];
      var t1 := CreditAll(t, p, share);
      CreditAllAdds(t, p, share);
      CreditAllOk(t, p, share);
      CreditAdds(t1, owners[|owners| - 1], share);
      MulSucc(|p|, share);
    }
  }

  lemma MulSucc(a: nat, b: nat)
    ensures (a + 1) * b == a * b + b
    ensures b * (a + 1) == b * a + b
  {
  }

  /** Nothing is lost to the split: the per-member amounts add up to the
      price of every claimed slot visited, and the map lists each member
      once. */
  lemma {:induction false} TallySlotsOk(claims: Claims, keys: seq<int>, price: nat)
    requires forall k :: k in claims ==> |claims[k]| <= 2
    ensures TallyOk(TallySlots(claims, keys, price))
  {
    if keys != [] {
      var p := keys[..|keys| - 1];
      var k := keys[|keys| - 1];
      TallySlotsOk(claims, p, price);
      if k in claims && |claims[k]| > 0 {
        CreditAllOk(TallySlots(claims, p, price), claims[k], HalfShare(price, |claims[k]|));
      }
    }
  }

  lemma {:induction false} TallyConserves(claims: Claims, keys: seq<int>, price: nat)
    requires forall k :: k in claims ==> |claims[k]| <= 2
    ensures TallySum(TallySlots(claims, keys, price)) == 2 * (price * ClaimedAmong(claims, keys))
  {
    if keys != [] {
      var p := keys[..|keys| - 1];
      var k := keys[|keys| - 1];
      var t1 := TallySlots(claims, p, price);
      TallyConserves(claims, p, price);
      TallySlotsOk(claims, p, price);
      var c := ClaimedAmong(claims, p);
      if k in claims && |claims[k]| > 0 {
        var owners := claims[k];
        var share := HalfShare(price, |owners|);
        assert TallySlots(claims, keys, price) == CreditAll(t1, owners, share);
        assert ClaimedAmong(claims, keys) == c + 1;
        CreditAllAdds(t1, owners, share);
        SlotShareSum(price, |owners|);
        MulSucc(c, price);
      } else {
        assert TallySlots(claims, keys, price) == t1;
        assert ClaimedAmong(claims, keys) == c;
      }
    }
  }

  /** The holders of one slot are credited twice its price in half-coins. */
  lemma SlotShareSum(price: nat, holders: nat)
    requires 1 <= holders <= 2
    ensures holders * HalfShare(price, holders) == 2 * price
  {
  }

  /** Rounding each amount adds half a coin for each amount that ends in a
      half. */
  lemma {:induction false} RoundingAddsHalves(order: seq<UserId>, half: map<UserId, nat>)
    ensures 2 * RoundedSum(order, half) == HalfSum(order, half) + OddCount(order, half)
    ensures OddCount(order, half) <= |order|
  {
    if order != [] {
      RoundingAddsHalves(order[..|order| - 1], half);
    }
  }

  /** The grand total is the price of the claimed slots plus at most half a
      coin per participant: it never falls short, and rounding can only add. */
  lemma GrandTotalBounds(claims: Claims, keys: seq<int>, price: nat)
    requires forall k :: k in claims ==> |claims[k]| <= 2
    ensures var t := TallySlots(claims, keys, price);
      && price * ClaimedAmong(claims, keys) <= RoundedSum(t.order, t.half)
      && 2 * RoundedSum(t.order, t.half) <= 2 * (price * ClaimedAmong(claims, keys)) + |t.order|
  {
    var t := TallySlots(claims, keys, price);
    TallyConserves(claims, keys, price);
    RoundingAddsHalves(t.order, t.half);
  }

  /** Every amount is a whole number of coins. */
  ghost predicate AllWhole(t: Tally) {
    forall u :: u in t.half ==> t.half[u] % 2 == 0
  }

  lemma {:induction false} CreditAllWhole(t: Tally, owners: seq<UserId>, share: nat)
    requires AllWhole(t) && share % 2 == 0
    ensures AllWhole(CreditAll(t, owners, share))
  {
    if owners != [] {
      var t1 := CreditAll(t, owners[..|owners| - 1], share);
      CreditAllWhole(t, owners[..|owners| - 1], share);
      CreditWhole(t1, owners[|owners| - 1], share);
    }
  }

  /** Crediting a whole amount keeps every amount whole. */
  lemma CreditWhole(t: Tally, u: UserId, share: nat)
    requires AllWhole(t) && share % 2 == 0
    ensures AllWhole(Credit(t, u, share))
  {
    var t2 := Credit(t, u, share);
    forall v | v in t2.half ensures t2.half[v] % 2 == 0 {
      if v != u { assert t2.half[v] == t.half[v]; }
    }
  }

  /** Amounts stay whole when no slot is split. */
  lemma {:induction false} SoloAmountsWhole(claims: Claims, keys: seq<int>, price: nat)
    requires forall k :: k in claims ==> |claims[k]| <= 1
    ensures AllWhole(TallySlots(claims, keys, price))
  {
    if keys != [] {
      var p := keys[..|keys| - 1];
      var k := keys[|keys| - 1];
      SoloAmountsWhole(claims, p, price);
      if k in claims && |claims[k]| > 0 {
        CreditAllWhole(TallySlots(claims, p, price), claims[k], HalfShare(price, |claims[k]|));
      }
    }
  }

  lemma {:induction false} NoOddAmounts(order: seq<UserId>, half: map<UserId, nat>)
    requires forall u :: u in half ==> half[u] % 2 == 0
    ensures OddCount(order, half) == 0
  {
    if order != [] {
      NoOddAmounts(order[..|order| - 1], half);
    }
  }

  /** With only single-owner slots the grand total is exactly the number of
      claimed slots times the price. */
  lemma SoloGrandTotal(r: Raffle, price: nat)
    requires WellFormed(r)
    requires forall k :: k in r.claims ==> |r.claims[k]| == 1
    ensures var t := TallySlots(r.claims, SlotList(r.max), price);
      RoundedSum(t.order, t.half) == |ClaimedKeys(r.claims)| * price
  {
    var keys := SlotList(r.max);
    var t := TallySlots(r.claims, keys, price);
    TallyConserves(r.claims, keys, price);
    SoloAmountsWhole(r.claims, keys, price);
    NoOddAmounts(t.order, t.half);
    RoundingAddsHalves(t.order, t.half);
    ClaimedAmongAll(r);
  }

  /** Crediting a member lists them, and nobody else is added. */
  lemma CreditMembers(t: Tally, u: UserId, share: nat)
    requires TallyOk(t)
    ensures forall v :: v in Credit(t, u, share).order <==> v in t.order || v == u
  {
  }

  lemma {:induction false} CreditAllMembers(t: Tally, owners: seq<UserId>, share: nat)
    requires TallyOk(t)
    ensures forall v :: v in CreditAll(t, owners, share).order <==> v in t.order || v in owners
  {
    if owners != [] {
      var p := owners[..|owners| - 1];
      CreditAllMembers(t, p, share);
      CreditAllOk(t, p, share);
      CreditMembers(CreditAll(t, p, share), owners[|owners| - 1], share);
      assert owners == p + [owners[|owners| - 1]];
    }
  }

  /** `total` prints a line for exactly the participants it counts: the
      members of the tally are the holders of the visited slots. */
  lemma {:induction false} TallyMembers(claims: Claims, keys: seq<int>, price: nat)
    requires forall k :: k in claims ==> |claims[k]| <= 2
    ensures forall u :: u in TallySlots(claims, keys, price).order <==> u in HoldersAmong(claims, keys)
  {
    if keys != [] {
      var p := keys[..|keys| - 1];
      var k := keys[|keys| - 1];
      TallyMembers(claims, p, price);
      TallySlotsOk(claims, p, price);
      if k in claims && |claims[k]| > 0 {
        CreditAllMembers(TallySlots(claims, p, price), claims[k], HalfShare(price, |claims[k]|));
      }
      forall u ensures u in HoldersAmong(claims, keys) <==> u in HoldersAmong(claims, p) || (k in claims && u in claims[k]) {
        if u in HoldersAmong(claims, keys) {
          var k' :| k' in keys && k' in claims && u in claims[k'];
          if k' != k { assert k' in p; }
        }
        if k in claims && u in claims[k] { assert k in keys; }
      }
    } else {
      assert HoldersAmong(claims, keys) == {};
    }
  }

  /** The number of printed lines is the participant count. */
  lemma LinesMatchParticipants(claims: Claims, keys: seq<int>, price: nat)
    requires forall k :: k in claims ==> |claims[k]| <= 2
    ensures |Amounts(TallySlots(claims, keys, price))| == |HoldersAmong(claims, keys)|
  {
    var t := TallySlots(claims, keys, price);
    TallySlotsOk(claims, keys, price);
    TallyMembers(claims, keys, price);
    DistinctCardinality(t.order);
    assert (set x | x in t.order) == HoldersAmong(claims, keys);
  }
}
