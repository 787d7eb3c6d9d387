/** Mini raffles (index.js:574-698): a small raffle run in a thread of its
    own whose prize is a number of slots of a main raffle. `!mini` creates
    it from inside the main raffle's thread; `!minidraw` picks a claimed
    mini slot at random and grants its first holder a reservation in the
    main raffle for that many slots. */
module Minis {

  import opened Common
  import opened Text
  import opened Raffles
  import opened Ledger

  /** `config.miniDefaultSlots ?? 6`, with no setting configured. */
  const DefaultMiniSlots: nat := 6

  /** `config.miniClaimWindowMinutes ?? 10`, with no setting configured. */
  const DefaultClaimWindowMinutes: nat := 10

  /** `data.miniThreads[threadId]`: the main raffle the mini belongs to and
      how many of its slots the winner receives. */
  datatype MiniMeta = MiniMeta(mainKey: RaffleKey, tickets: int)

  datatype MiniError =
    | MiniModsOnly
    | NotInMainThread
    | BadTickets
    | BadSlots
    | BadPrice
    | NoMiniThread

  /** `Math.round(pot / slots)`: the nearest whole coin, halves rounded up. */
  function MiniSlotPrice(pot: nat, slots: nat): nat
    requires slots > 0
  {
    (2 * pot + slots) / (2 * slots)
  }

  /** The mini's price text:
      "`tickets`x main @ `price`c = `pot`c pot • `perSlot`c/slot". */
  function MiniPriceText(tickets: nat, price: nat, pot: nat, perSlot: nat): string {
    NatToDigits(tickets) + "x main @ " + NatToDigits(price) + "c = "
      + NatToDigits(pot) + "c pot • " + NatToDigits(perSlot) + "c/slot"
  }

  /** `!mini <tickets>x [<slots>] - <price>c` (index.js:578-629), after the
      command pattern matched (so the three numbers are digit runs).
      `miniThread` is the id of the thread created for the mini, or None when
      the mini channel is missing or the thread could not be created. On
      success: what is stored under the thread id, and the new mini raffle. */
  function CreateMini(isMod: bool, inMainThread: bool, mainKey: RaffleKey,
                      tickets: nat, slotsArg: Option<nat>, price: nat,
                      miniThread: Option<string>): Result<(string, MiniMeta, Raffle), MiniError>
  {
    var slots := if slotsArg.Some? then slotsArg.value else DefaultMiniSlots;
    if !isMod then Err(MiniModsOnly)
    else if !inMainThread then Err(NotInMainThread)
    else if tickets < 1 || tickets > 50 then Err(BadTickets)
    else if slots < 2 || slots > 100 then Err(BadSlots)
    else if price > 1000000 then Err(BadPrice)
    else if miniThread.None? then Err(NoMiniThread)
    else
      var pot := tickets * price;
      var perSlot := MiniSlotPrice(pot, slots);
      Ok((miniThread.value, MiniMeta(mainKey, tickets),
          Raffle(true, slots, MiniPriceText(tickets, price, pot, perSlot), map[])))
  }

  /** The mini-draw pool: the claimed slots among `keys`, in that order
      (`Object.entries(claims).filter(...)`, whose integer keys come out in
      ascending order). */
  function ClaimedInOrder(claims: Claims, keys: seq<int>): (pool: seq<int>)
    ensures forall k :: k in pool <==> k in keys && k in claims && |claims[k]| > 0
    ensures |pool| <= |keys|
  {
    if keys == [] then []
    else
      var p := ClaimedInOrder(claims, keys[..|keys| - 1]);
      var k := keys[|keys| - 1];
      if k in claims && |claims[k]| > 0 then p + [k] else p
  }

  function DrawPool(r: Raffle): seq<int> {
    ClaimedInOrder(r.claims, SlotList(r.max))
  }

  datatype DrawError =
    | DrawModsOnly
    | NotAMiniThread
    | NothingClaimed
    | NoWinner
    | MainThreadMissing

  /** A successful draw: the winning mini slot, its first holder, and the
      number of main slots they may now claim. */
  datatype Drawn = Drawn(number: int, winner: UserId, tickets: int)

  /** `!minidraw` up to the reservation (index.js:658-684). `pick` is what
      `randInt(0, pool.length - 1)` returned; `mainThreadFound` is whether the
      main thread, whose id is the second field of the stored key, could be
      fetched. */
  function MiniDraw(isMod: bool, meta: Option<MiniMeta>, mini: Raffle, pick: nat,
                    mainThreadFound: bool): Result<Drawn, DrawError>
    requires WellFormed(mini)
    requires DrawPool(mini) != [] ==> pick < |DrawPool(mini)|
  {
    var pool := DrawPool(mini);
    if !isMod then Err(DrawModsOnly)
    else if meta.None? then Err(NotAMiniThread)
    else if pool == [] then Err(NothingClaimed)
    else
      var number := pool[pick];
      var winner := mini.claims[number][0];
      if winner == "" then Err(NoWinner)
      else if !mainThreadFound then Err(MainThreadMissing)
      else Ok(Drawn(number, winner, if meta.value.tickets == 0 then 1 else meta.value.tickets))
  }

  /** The reservation a successful draw grants in the main raffle
      (index.js:684). */
  function GrantReservation(rs: Reservations, meta: MiniMeta, d: Drawn, minutes: int, now: int): Reservations {
    SetReservation(rs, meta.mainKey, d.winner, d.tickets, minutes, now)
  }

  // ------------------------------------------------------------------ lemmas

  /** The per-slot price is `pot / slots` rounded to the nearest coin:
      within half a coin of the exact share, halves going up. */
  lemma MiniSlotPriceRounds(pot: nat, slots: nat)
    requires slots > 0
    ensures var p := MiniSlotPrice(pot, slots);
      2 * (slots * p) <= 2 * pot + slots < 2 * (slots * p) + 2 * slots
  {
    var p := MiniSlotPrice(pot, slots);
    var n := 2 * pot + slots;
    var d := 2 * slots;
    assert n == d * p + n % d;
    assert d * p == 2 * (slots * p);
  }

  /** Creation succeeds exactly when the caller is a mod in the main thread,
      the numbers are in range (1-50 tickets, 2-100 slots, at most 1000000
      coins) and the thread exists; errors are reported in that order. A new
      mini is open, has the requested (or default) number of slots, no
      claims, and its prize is recorded against the main raffle. */
  lemma CreateMiniEffect(isMod: bool, inMainThread: bool, mainKey: RaffleKey,
                         tickets: nat, slotsArg: Option<nat>, price: nat,
                         miniThread: Option<string>)
    ensures var out := CreateMini(isMod, inMainThread, mainKey, tickets, slotsArg, price, miniThread);
      var slots := if slotsArg.Some? then slotsArg.value else DefaultMiniSlots;
      && (out.Ok? <==> isMod && inMainThread && 1 <= tickets <= 50 && 2 <= slots <= 100
                       && price <= 1000000 && miniThread.Some?)
      && (!isMod ==> out == Err(MiniModsOnly))
      && (isMod && !inMainThread ==> out == Err(NotInMainThread))
      && (isMod && inMainThread && !(1 <= tickets <= 50) ==> out == Err(BadTickets))
      && (out.Ok? ==>
            && out.value.0 == miniThread.value
            && out.value.1 == MiniMeta(mainKey, tickets)
            && out.value.2.active && out.value.2.max == slots && out.value.2.claims == map[]
            && WellFormed(out.value.2))
  {
  }

  /** "`n`c" and "`n`c/slot" never spell "coin", so no mini's price text
      reads as free: the free-mode claim limit never applies in a mini. */
  lemma MiniNeverFree(tickets: nat, price: nat, pot: nat, perSlot: nat)
    ensures !IsFreeRaffle(MiniPriceText(tickets, price, pot, perSlot))
  {
    var t := MiniPriceText(tickets, price, pot, perSlot);
    MiniTextNoCo(NatToDigits(tickets), NatToDigits(price), NatToDigits(pot), NatToDigits(perSlot));
    MiniTextNormal(NatToDigits(tickets), NatToDigits(price), NatToDigits(pot), NatToDigits(perSlot));
    assert |t| > 6;
    NoCoNotContains(t);
  }

  lemma MiniTextNoCo(a: string, b: string, c: string, d: string)
    requires AllDigits(a) && AllDigits(b) && AllDigits(c) && AllDigits(d)
    ensures NoCo(a + "x main @ " + b + "c = " + c + "c pot • " + d + "c/slot")
  {
    NoCoInDigits(a);
    NoCoInDigits(b);
    NoCoInDigits(c);
    NoCoInDigits(d);
    var s1 := a + "x main @ ";
    NoCoJoin(a, "x main @ ");
    var s2 := s1 + b;
    NoCoJoin(s1, b);
    var s3 := s2 + "c = ";
    NoCoJoin(s2, "c = ");
    var s4 := s3 + c;
    NoCoJoin(s3, c);
    var s5 := s4 + "c pot • ";
    NoCoJoin(s4, "c pot • ");
    var s6 := s5 + d;
    NoCoJoin(s5, d);
    NoCoJoin(s6, "c/slot");
  }

  lemma MiniTextNormal(a: string, b: string, c: string, d: string)
    requires a != []
    requires AllDigits(a) && AllDigits(b) && AllDigits(c) && AllDigits(d)
    ensures var t := a + "x main @ " + b + "c = " + c + "c pot • " + d + "c/slot";
      ToLower(Trim(t)) == t
  {
    var t := a + "x main @ " + b + "c = " + c + "c pot • " + d + "c/slot";
    assert t[0] == a[0] && IsDigit(a[0]);
    assert t[|t| - 1] == 't';
    TrimPadded([], t, []);
    assert [] + t + [] == t;
    NoUpperJoin(t, a, b, c, d);
    LowerOfLower(t);
  }

  /** The price that `total` reads from a mini's price text is its first
      number, the ticket count, not the price per slot. */
  lemma MiniPriceReadsTickets(tickets: nat, price: nat, pot: nat, perSlot: nat)
    ensures ParseCoinPrice(MiniPriceText(tickets, price, pot, perSlot)) == Some(tickets)
  {
    var rest := "x main @ " + NatToDigits(price) + "c = " + NatToDigits(pot) + "c pot • "
      + NatToDigits(perSlot) + "c/slot";
    assert MiniPriceText(tickets, price, pot, perSlot) == [] + NatToDigits(tickets) + rest;
    CoinPriceRead([], tickets, rest);
  }

  /** Nowhere is a 'c' followed by an 'o'. */
  predicate NoCo(s: string) {
    forall i :: 0 <= i < |s| - 1 ==> !(s[i] == 'c' && s[i + 1] == 'o')
  }

  lemma NoCoInDigits(d: string)
    requires AllDigits(d)
    ensures NoCo(d)
  {
    forall i | 0 <= i < |d| - 1 ensures !(d[i] == 'c' && d[i + 1] == 'o') {
      assert IsDigit(d[i]);
    }
  }

  lemma NoCoJoin(s: string, t: string)
    requires NoCo(s) && NoCo(t)
    requires s != [] && t != [] ==> !(s[|s| - 1] == 'c' && t[0] == 'o')
    ensures NoCo(s + t)
  {
    var u := s + t;
    forall i | 0 <= i < |u| - 1 ensures !(u[i] == 'c' && u[i + 1] == 'o') {
      if i + 1 < |s| {
        assert u[i] == s[i] && u[i + 1] == s[i + 1];
      } else if i >= |s| {
        assert u[i] == t[i - |s|] && u[i + 1] == t[i + 1 - |s|];
      } else {
        assert u[i] == s[|s| - 1] && u[i + 1] == t[0];
      }
    }
  }

  /** Text without "co" contains neither "0 coin" nor "0coin". */
  lemma NoCoNotContains(t: string)
    requires NoCo(t)
    ensures !Contains(t, "0 coin") && !Contains(t, "0coin")
  {
    forall i | 0 <= i <= |t| - 6 ensures !("0 coin" <= t[i..]) {
      assert !(t[i + 2] == 'c' && t[i + 3] == 'o');
    }
    forall i | 0 <= i <= |t| - 5 ensures !("0coin" <= t[i..]) {
      assert !(t[i + 1] == 'c' && t[i + 2] == 'o');
    }
  }

  predicate NoUpper(s: string) {
    forall i :: 0 <= i < |s| ==> !('A' <= s[i] <= 'Z')
  }

  lemma NoUpperJoin(t: string, a: string, b: string, c: string, d: string)
    requires AllDigits(a) && AllDigits(b) && AllDigits(c) && AllDigits(d)
    requires t == a + "x main @ " + b + "c = " + c + "c pot • " + d + "c/slot"
    ensures NoUpper(t)
  {
    var lits := "x main @ c = c pot • c/slot";
    forall i | 0 <= i < |t| ensures !('A' <= t[i] <= 'Z') {
      assert IsDigit(t[i]) || t[i] in lits;
    }
  }

  /** Every claimed slot of the mini is in the draw pool, once, in ascending
      order, and nothing else is: each claimed slot has one chance. */
  lemma DrawPoolIsClaimedSlots(r: Raffle)
    requires WellFormed(r)
    ensures forall k :: k in DrawPool(r) <==> k in ClaimedKeys(r.claims)
    ensures Ascending(DrawPool(r))
    ensures |DrawPool(r)| == |ClaimedKeys(r.claims)|
  {
    var keys := SlotList(r.max);
    assert Ascending(keys);
    ClaimedInOrderAscending(r.claims, keys);
    var pool := DrawPool(r);
    assert NoDuplicates(pool);
    DistinctCardinality(pool);
    assert (set k | k in pool) == ClaimedKeys(r.claims);
  }

  predicate Ascending(s: seq<int>) {
    forall i, j :: 0 <= i < j < |s| ==> s[i] < s[j]
  }

  lemma {:induction false} ClaimedInOrderAscending(claims: Claims, keys: seq<int>)
    requires Ascending(keys)
    ensures Ascending(ClaimedInOrder(claims, keys))
  {
    if keys != [] {
      var p := keys[..|keys| - 1];
      var k := keys[|keys| - 1];
      assert Ascending(p) by {
        forall i, j | 0 <= i < j < |p| ensures p[i] < p[j] {
          assert p[i] == keys[i] && p[j] == keys[j];
        }
      }
      ClaimedInOrderAscending(claims, p);
      var q := ClaimedInOrder(claims, p);
      forall x | x in q ensures x < k {
        assert x in p;
        var i :| 0 <= i < |p| && p[i] == x;
        assert keys[i] == x;
      }
      if k in claims && |claims[k]| > 0 {
        var pool := q + [k];
        assert ClaimedInOrder(claims, keys) == pool;
        forall i, j | 0 <= i < j < |pool| ensures pool[i] < pool[j] {
          assert pool[i] == q[i];
          if j < |q| { assert pool[j] == q[j]; } else { assert q[i] in q; assert pool[j] == k; }
        }
      } else {
        assert ClaimedInOrder(claims, keys) == q;
      }
    }
  }

  /** A draw always lands on a claimed slot and names its first holder, and
      every claimed slot can be drawn. */
  lemma MiniDrawWinner(isMod: bool, meta: Option<MiniMeta>, mini: Raffle, pick: nat, found: bool)
    requires WellFormed(mini)
    requires DrawPool(mini) != [] ==> pick < |DrawPool(mini)|
    ensures var out := MiniDraw(isMod, meta, mini, pick, found);
      && (out.Ok? ==> out.value.number in ClaimedKeys(mini.claims)
                      && out.value.winner == mini.claims[out.value.number][0]
                      && out.value.tickets != 0
                      && (meta.value.tickets >= 1 ==> out.value.tickets == meta.value.tickets))
      && (out == Err(NothingClaimed) <==> isMod && meta.Some? && mini.claims == map[])
      && (out.Ok? <==> isMod && meta.Some? && mini.claims != map[]
                       && mini.claims[DrawPool(mini)[pick]][0] != "" && found)
  {
    DrawPoolIsClaimedSlots(mini);
    var pool := DrawPool(mini);
    if mini.claims != map[] {
      EmptyOrHasInt(mini.claims.Keys);
      var k :| k in mini.claims;
      assert k in pool;
    } else {
      assert pool == [];
    }
  }

  /** The winner of a draw can use the reservation straight away: reading the
      ledger at the same instant finds `tickets` main slots for them, valid
      for the claim window. */
  lemma DrawWinnerHoldsReservation(rs: Reservations, meta: MiniMeta, d: Drawn, minutes: nat, now: int)
    requires d.tickets > 0
    ensures GetReservation(GrantReservation(rs, meta, d, minutes, now), meta.mainKey, d.winner, now).0
            == Some(Reservation(d.tickets, now + minutes * MinuteMs))
  {
    SetThenGet(rs, meta.mainKey, d.winner, d.tickets, minutes, now);
  }
}
