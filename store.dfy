/** The bot's in-memory document `data` (index.js:45-63, 214-217, 307-343)
    and the handlers that update it in place: raffles by key, the
    reservation ledger, the mini-raffle registry and the giveaways. Each
    handler applies the pure rule of its module to the stored value and
    writes the result back; the pure step of the number claim, which touches
    both raffles and the ledger, is defined here. */
module Store {

  import opened Common
  import Text
  import opened Raffles
  import opened Ledger
  import Slots
  import Totals
  import Minis
  import Giveaways

  /** `data.raffles[key]`, or the fresh raffle `getRaffle` would create. */
  function RaffleIn(raffles: map<RaffleKey, Raffle>, key: RaffleKey): Raffle {
    if key in raffles then raffles[key] else Unstarted
  }

  predicate AllWellFormed(raffles: map<RaffleKey, Raffle>) {
    forall k :: k in raffles ==> WellFormed(raffles[k])
  }

  /** The number claim on the stored state (index.js:837-901): the raffle is
      fetched (created if missing); after the range check the author's
      reservation is read, which prunes it if dead; a successful claim that
      had a reservation uses up as many of it as slots were claimed. Returns
      the outcome, the raffles and the ledger afterwards. */
  function ClaimStep(raffles: map<RaffleKey, Raffle>, rs: Reservations, key: RaffleKey,
                     author: UserId, nums: seq<int>, now: int)
    : (Result<Slots.Written, Slots.ClaimError>, map<RaffleKey, Raffle>, Reservations)
  {
    var r := RaffleIn(raffles, key);
    var fetched := raffles[key := r];
    if !(r.active && r.max > 0) then (Err(Slots.NoActiveRaffle), fetched, rs)
    else if Slots.OutOfRangeIn(Dedupe(nums), r.max) != [] then
      (Err(Slots.OutOfRange(Slots.OutOfRangeIn(Dedupe(nums), r.max))), fetched, rs)
    else
      GetReservationLive(rs, key, author, now);
      var (got, rs1) := GetReservation(rs, key, author, now);
      var allowance: Option<nat> := if got.Some? then Some(got.value.remaining) else None;
      var out := Slots.ClaimNumbers(r, nums, author, allowance);
      if out.Err? then (Err(out.error), fetched, rs1)
      else
        var (r2, w) := out.value;
        var rs2 := if got.Some? then UseReservation(rs1, key, author, |w.claimed|, now).1 else rs1;
        (Ok(w), raffles[key := r2], rs2)
  }

  /** The document. Every stored raffle is well formed. */
  class Document {
    var raffles: map<RaffleKey, Raffle>
    var reservations: Reservations
    var miniThreads: map<string, Minis.MiniMeta>
    var giveaways: Giveaways.Giveaways

    ghost predicate Valid()
      reads this
    {
      AllWellFormed(raffles)
    }

    /** The document `loadData` starts from when nothing is saved. */
    constructor()
      ensures Valid()
      ensures raffles == map[] && reservations == map[] && miniThreads == map[] && giveaways == map[]
    {
      raffles := map[];
      reservations := map[];
      miniThreads := map[];
      giveaways := map[];
    }

    function At(key: RaffleKey): Raffle
      reads this
    {
      RaffleIn(raffles, key)
    }

    /** `getRaffle` (index.js:319-343): stores a fresh raffle under a new
        key and returns the stored one. */
    method GetRaffle(key: RaffleKey) returns (r: Raffle)
      requires Valid()
      modifies this`raffles
      ensures Valid()
      ensures r == old(At(key))
      ensures raffles == old(raffles)[key := r]
    {
      r := At(key);
      raffles := raffles[key := r];
    }

    /** `!<max> slots [price]`: on success the raffle under `key` is reset. */
    method StartRaffle(key: RaffleKey, max: int, priceArg: Option<string>, isMod: bool, inThread: bool)
      returns (err: Option<Slots.StartError>)
      requires Valid()
      modifies this`raffles
      ensures Valid()
      ensures var s := Slots.StartRaffle(max, priceArg, isMod, inThread);
        && (s.Err? ==> err == Some(s.error) && raffles == old(raffles))
        && (s.Ok? ==> err == None && raffles == old(raffles)[key := s.value])
    {
      var s := Slots.StartRaffle(max, priceArg, isMod, inThread);
      if s.Err? {
        return Some(s.error);
      }
      Slots.StartRaffleEffect(max, priceArg, isMod, inThread);
      raffles := raffles[key := s.value];
      return None;
    }

    /** A message made of numbers, commas and spaces in the raffle `key`. */
    method Claim(key: RaffleKey, author: UserId, nums: seq<int>, now: int)
      returns (out: Result<Slots.Written, Slots.ClaimError>)
      requires Valid()
      modifies this`raffles, this`reservations
      ensures Valid()
      ensures (out, raffles, reservations) == ClaimStep(old(raffles), old(reservations), key, author, nums, now)
    {
      var r := GetRaffle(key);
      if !(r.active && r.max > 0) {
        return Err(Slots.NoActiveRaffle);
      }
      var invalid := Slots.OutOfRangeIn(Dedupe(nums), r.max);
      if invalid != [] {
        return Err(Slots.OutOfRange(invalid));
      }
      GetReservationLive(reservations, key, author, now);
      var (got, rs1) := GetReservation(reservations, key, author, now);
      reservations := rs1;
      var allowance: Option<nat> := if got.Some? then Some(got.value.remaining) else None;
      var res := Slots.ClaimNumbers(r, nums, author, allowance);
      if res.Err? {
        return Err(res.error);
      }
      Slots.ClaimKeepsWellFormed(r, nums, author, allowance);
      var (r2, w) := res.value;
      assert raffles[key := r2] == old(raffles)[key := r2];
      raffles := raffles[key := r2];
      if got.Some? {
        reservations := UseReservation(reservations, key, author, |w.claimed|, now).1;
      }
      out := Ok(w);
      assert (out, raffles, reservations) == ClaimStep(old(raffles), old(reservations), key, author, nums, now);
    }

    /** A message `content` in the raffle `key` (index.js:837-840): when it is
        a number claim, the numbers it contains are claimed; any other
        message leaves the document as it is. */
    method Message(key: RaffleKey, author: UserId, content: string, now: int)
      returns (out: Option<Result<Slots.Written, Slots.ClaimError>>)
      requires Valid()
      modifies this`raffles, this`reservations
      ensures Valid()
      ensures out.Some? <==> Slots.LooksLikeNumberClaim(content)
      ensures out.None? ==> raffles == old(raffles) && reservations == old(reservations)
      ensures out.Some? ==>
        (out.value, raffles, reservations) == ClaimStep(old(raffles), old(reservations), key, author, Text.DigitRuns(content), now)
    {
      if !Slots.LooksLikeNumberClaim(content) {
        return None;
      }
      var res := Claim(key, author, Text.DigitRuns(content), now);
      return Some(res);
    }

    /** `split N @friend`. */
    method Split(key: RaffleKey, n: int, friend: UserId, author: UserId, isMod: bool)
      returns (err: Option<Slots.SplitError>)
      requires Valid()
      modifies this`raffles
      ensures Valid()
      ensures var s := Slots.Split(old(At(key)), n, friend, author, isMod);
        && (s.Err? ==> err == Some(s.error) && raffles == old(raffles)[key := old(At(key))])
        && (s.Ok? ==> err == None && raffles == old(raffles)[key := s.value])
    {
      var r := GetRaffle(key);
      var s := Slots.Split(r, n, friend, author, isMod);
      if s.Err? {
        return Some(s.error);
      }
      Slots.SplitSucceedsIff(r, n, friend, author, isMod);
      raffles := raffles[key := s.value];
      return None;
    }

    /** `free`: the author leaves every slot, through the release loop. */
    method FreeMine(key: RaffleKey, author: UserId) returns (err: Option<Slots.FreeError>)
      requires Valid()
      modifies this`raffles
      ensures Valid()
      ensures var s := Slots.FreeMine(old(At(key)), author);
        && (s.Err? ==> err == Some(s.error) && raffles == old(raffles)[key := old(At(key))])
        && (s.Ok? ==> err == None && raffles == old(raffles)[key := s.value])
    {
      var r := GetRaffle(key);
      if r.max == 0 {
        return Some(Slots.FreeNoRaffle);
      }
      var before := CountUserClaims(r.claims, author);
      if before == 0 {
        return Some(Slots.NoClaims);
      }
      Slots.FreeMineEffect(r, author);
      var c := Slots.ReleaseHolder(r.claims, author);
      raffles := raffles[key := r.(claims := c)];
      return None;
    }

    /** `free N` by a mod. */
    method FreeSlot(key: RaffleKey, n: int, isMod: bool) returns (err: Option<Slots.FreeError>)
      requires Valid()
      modifies this`raffles
      ensures Valid()
      ensures var s := Slots.FreeSlot(old(At(key)), n, isMod);
        && (s.Err? ==> err == Some(s.error) && raffles == old(raffles)[key := old(At(key))])
        && (s.Ok? ==> err == None && raffles == old(raffles)[key := s.value])
    {
      var r := GetRaffle(key);
      var s := Slots.FreeSlot(r, n, isMod);
      if s.Err? {
        return Some(s.error);
      }
      Slots.FreeSlotEffect(r, n, isMod);
      raffles := raffles[key := s.value];
      return None;
    }

    /** `rest`: every open slot 1..max goes to the author, through the write
        loop. */
    method Rest(key: RaffleKey, author: UserId) returns (out: Result<nat, Slots.RestError>)
      requires Valid()
      modifies this`raffles
      ensures Valid()
      ensures var s := Slots.Rest(old(At(key)), author);
        && (s.Err? ==> out == Err(s.error) && raffles == old(raffles)[key := old(At(key))])
        && (s.Ok? ==> out == Ok(s.value.1) && raffles == old(raffles)[key := s.value.0])
    {
      var r := GetRaffle(key);
      if !r.active || r.max == 0 {
        return Err(Slots.RestNoActiveRaffle);
      }
      var c, claimed, taken := Slots.WriteOpenSlots(r.claims, SlotList(r.max), author);
      if |claimed| == 0 {
        return Err(Slots.NothingLeft);
      }
      Slots.RestFillsEverySlot(r, author);
      var next := r.(claims := c);
      raffles := raffles[key := next.(active := !IsRaffleFull(next))];
      return Ok(|claimed|);
    }

    /** `total` in the raffle `key`. */
    method Total(key: RaffleKey, isMod: bool) returns (out: Result<Totals.TotalReport, Totals.TotalError>)
      requires Valid()
      modifies this`raffles
      ensures Valid()
      ensures !isMod ==> raffles == old(raffles)
      ensures isMod ==> raffles == old(raffles)[key := old(At(key))]
      ensures out.Err? <==> !isMod || old(At(key)).max == 0
      ensures out.Ok? ==>
        var r := old(At(key));
        var price := ParseCoinPrice(r.priceText);
        && out.value.claimedSlots == |ClaimedKeys(r.claims)|
        && out.value.max == r.max
        && out.value.participants == |Totals.HoldersAmong(r.claims, SlotList(r.max))|
        && (price.None? ==> out.value.amounts.None? && out.value.grand.None?)
        && (price.Some? ==>
              var t := Totals.TallySlots(r.claims, SlotList(r.max), price.value);
              && out.value.amounts == Some(Totals.Amounts(t))
              && out.value.grand == Some(Totals.RoundedSum(t.order, t.half)))
    {
      if !isMod {
        return Err(Totals.TotalModsOnly);
      }
      var r := GetRaffle(key);
      out := Totals.Total(r, isMod);
    }

    /** `/roll dN` in the channel `key`, `result` being the rolled number. */
    method Roll(key: RaffleKey, sides: int, result: int) returns (out: Slots.RollOutcome)
      requires Valid()
      modifies this`raffles
      ensures Valid()
      ensures raffles == old(raffles)[key := old(At(key))]
      ensures out == Slots.Roll(old(At(key)), sides, result)
    {
      var r := GetRaffle(key);
      out := Slots.Roll(r, sides, result);
    }

    /** `reservedTotal(key)` (index.js:444-461) through the pruning loop. */
    method ReservedTotal(key: RaffleKey, now: int) returns (total: int)
      modifies this`reservations
      ensures (total, reservations) == Ledger.ReservedTotal(old(reservations), key, now)
    {
      if key !in reservations {
        return 0;
      }
      var kept;
      kept, total := PruneAndSum(reservations[key], now);
      reservations := reservations[key := kept];
    }

    /** `computeMainsLeft` (index.js:463-467) for the main raffle `key`. */
    method MainsLeft(key: RaffleKey, now: int) returns (left: int)
      requires Valid()
      modifies this`reservations
      ensures left >= 0
      ensures var (reserved, rs) := Ledger.ReservedTotal(old(reservations), key, now);
        && reservations == rs
        && left == Ledger.MainsLeft(At(key).max, |ClaimedKeys(At(key).claims)|, reserved)
    {
      var reserved := ReservedTotal(key, now);
      var r := At(key);
      var claimed := CountClaimedSlots(r.claims);
      left := Ledger.MainsLeft(r.max, claimed, reserved);
    }

    /** `!mini ...` in the main raffle `mainKey` (index.js:578-654):
        registers the mini thread and stores its raffle, then fetches the
        main raffle and computes its mains-left count for the announcement,
        which prunes the main raffle's ledger. The mini's tickets are not
        reserved until a winner is drawn. */
    method CreateMini(guildId: string, mainKey: RaffleKey, isMod: bool, inMainThread: bool,
                      tickets: nat, slotsArg: Option<nat>, price: nat, miniThread: Option<string>, now: int)
      returns (out: Result<int, Minis.MiniError>)
      requires Valid()
      modifies this`raffles, this`miniThreads, this`reservations
      ensures Valid()
      ensures var s := Minis.CreateMini(isMod, inMainThread, mainKey, tickets, slotsArg, price, miniThread);
        && (s.Err? <==> out.Err?)
        && (s.Err? ==> out.error == s.error && raffles == old(raffles) && miniThreads == old(miniThreads)
                       && reservations == old(reservations))
        && (s.Ok? ==>
              var r1 := old(raffles)[RaffleKeyOf(guildId, s.value.0) := s.value.2];
              var main := RaffleIn(r1, mainKey);
              var (reserved, rs) := Ledger.ReservedTotal(old(reservations), mainKey, now);
              && miniThreads == old(miniThreads)[s.value.0 := s.value.1]
              && raffles == r1[mainKey := main]
              && reservations == rs
              && out.value == Ledger.MainsLeft(main.max, |ClaimedKeys(main.claims)|, reserved))
    {
      var s := Minis.CreateMini(isMod, inMainThread, mainKey, tickets, slotsArg, price, miniThread);
      if s.Err? {
        return Err(s.error);
      }
      Minis.CreateMiniEffect(isMod, inMainThread, mainKey, tickets, slotsArg, price, miniThread);
      var (threadId, meta, mini) := s.value;
      miniThreads := miniThreads[threadId := meta];
      raffles := raffles[RaffleKeyOf(guildId, threadId) := mini];
      var main := GetRaffle(mainKey);
      // index.js:644-645 reads `reservedTotal(mainKey)` twice; the second
      // read finds the ledger already pruned and gives the same total.
      ghost var rs0 := reservations;
      var withTickets := ReservedTotal(mainKey, now);
      withTickets := withTickets + tickets;
      Ledger.ReservedTotalIdempotent(rs0, mainKey, now);
      var reserved := ReservedTotal(mainKey, now);
      var claimed := CountClaimedSlots(main.claims);
      return Ok(Ledger.MainsLeft(main.max, claimed, reserved));
    }

    /** `!minidraw` in the mini thread `threadId` (index.js:658-698): the
        mini raffle is fetched; on success the winner gets a reservation of
        `tickets` main slots for `minutes` minutes, the main raffle (in the
        thread named by the second field of the stored key) is fetched, and
        its mains-left count is computed, pruning its ledger. */
    method MiniDraw(guildId: string, threadId: string, isMod: bool, pick: nat, mainThreadFound: bool,
                    minutes: int, now: int) returns (out: Result<(Minis.Drawn, int), Minis.DrawError>)
      requires Valid()
      requires var m := RaffleIn(raffles, RaffleKeyOf(guildId, threadId));
        Minis.DrawPool(m) != [] ==> pick < |Minis.DrawPool(m)|
      modifies this`raffles, this`reservations
      ensures Valid()
      ensures var meta := if threadId in old(miniThreads) then Some(old(miniThreads)[threadId]) else None;
        var miniKey := RaffleKeyOf(guildId, threadId);
        var d := Minis.MiniDraw(isMod, meta, old(At(miniKey)), pick, mainThreadFound);
        var r1 := old(raffles)[miniKey := old(At(miniKey))];
        && (d.Err? <==> out.Err?)
        && (d.Err? ==> out.error == d.error && reservations == old(reservations))
        && (!isMod || meta.None? ==> raffles == old(raffles))
        && (d.Err? && isMod && meta.Some? ==> raffles == r1)
        && (d.Ok? ==>
              var mainKey := RaffleKeyOf(guildId, SecondField(meta.value.mainKey));
              var main := RaffleIn(r1, mainKey);
              var rs := Minis.GrantReservation(old(reservations), meta.value, d.value, minutes, now);
              var (reserved, rs2) := Ledger.ReservedTotal(rs, meta.value.mainKey, now);
              && out.value.0 == d.value
              && raffles == r1[mainKey := main]
              && reservations == rs2
              && out.value.1 == Ledger.MainsLeft(main.max, |ClaimedKeys(main.claims)|, reserved))
    {
      if !isMod {
        return Err(Minis.DrawModsOnly);
      }
      var meta := if threadId in miniThreads then Some(miniThreads[threadId]) else None;
      if meta.None? {
        return Err(Minis.NotAMiniThread);
      }
      var mini := GetRaffle(RaffleKeyOf(guildId, threadId));
      var d := Minis.MiniDraw(isMod, meta, mini, pick, mainThreadFound);
      if d.Err? {
        return Err(d.error);
      }
      reservations := Minis.GrantReservation(reservations, meta.value, d.value, minutes, now);
      var main := GetRaffle(RaffleKeyOf(guildId, SecondField(meta.value.mainKey)));
      var reserved := ReservedTotal(meta.value.mainKey, now);
      var claimed := CountClaimedSlots(main.claims);
      return Ok((d.value, Ledger.MainsLeft(main.max, claimed, reserved)));
    }

    /** `/giveaway start`: stores the new giveaway under its message id. */
    method StartGiveaway(isMod: bool, prize: string, duration: string, winners: int, guildId: string,
                         messageId: Option<(string, string)>, host: UserId, now: int)
      returns (err: Option<Giveaways.StartError>)
      modifies this`giveaways
      ensures var s := Giveaways.StartGiveaway(isMod, prize, duration, winners, guildId, messageId, host, now);
        && (s.Err? ==> err == Some(s.error) && giveaways == old(giveaways))
        && (s.Ok? ==> err == None && giveaways == old(giveaways)[s.value.0 := s.value.1])
    {
      var s := Giveaways.StartGiveaway(isMod, prize, duration, winners, guildId, messageId, host, now);
      if s.Err? {
        return Some(s.error);
      }
      giveaways := giveaways[s.value.0 := s.value.1];
      return None;
    }

    /** The join button of the giveaway `id`: appends the member's id. */
    method Join(id: string, u: UserId) returns (out: Result<nat, Giveaways.JoinError>)
      modifies this`giveaways
      ensures var j := Giveaways.Join(if id in old(giveaways) then Some(old(giveaways)[id]) else None, u);
        && (j.Err? ==> out == Err(j.error) && giveaways == old(giveaways))
        && (j.Ok? ==> out == Ok(|j.value.participants|) && giveaways == old(giveaways)[id := j.value])
    {
      var j := Giveaways.Join(if id in giveaways then Some(giveaways[id]) else None, u);
      if j.Err? {
        return Err(j.error);
      }
      giveaways := giveaways[id := j.value];
      return Ok(|j.value.participants|);
    }

    /** `/giveaway end` (reroll false) and `/giveaway reroll` (reroll true)
        on the giveaway `id`. */
    method End(id: string, reroll: bool, guildOk: bool, channelOk: bool, picks: seq<nat>, now: int)
      returns (out: Result<seq<UserId>, Giveaways.EndError>)
      requires id in giveaways ==>
        Giveaways.PicksFit(|Dedupe(giveaways[id].participants)|, Giveaways.WinnerCount(giveaways[id]), picks)
      modifies this`giveaways
      ensures var e := Giveaways.EndOutcome(if id in old(giveaways) then Some(old(giveaways)[id]) else None,
                                            reroll, guildOk, channelOk, picks, now);
        && (e.Err? ==> out == Err(e.error) && giveaways == old(giveaways))
        && (e.Ok? ==> out == Ok(e.value.1) && giveaways == old(giveaways)[id := e.value.0])
    {
      var e := Giveaways.EndGiveaway(if id in giveaways then Some(giveaways[id]) else None,
                                     reroll, guildOk, channelOk, picks, now);
      if e.Err? {
        return Err(e.error);
      }
      giveaways := giveaways[id := e.value.0];
      return Ok(e.value.1);
    }

    /** `giveawaySweep` over all stored giveaways. */
    method Sweep(now: int, reachable: set<string>, picks: map<string, seq<nat>>)
      requires forall id :: id in giveaways && Giveaways.IsDue(giveaways[id], now) ==>
        id in picks && Giveaways.PicksFit(|Dedupe(giveaways[id].participants)|,
                                          Giveaways.WinnerCount(giveaways[id]), picks[id])
      modifies this`giveaways
      ensures giveaways.Keys == old(giveaways).Keys
      ensures forall id :: id in giveaways ==>
        giveaways[id] == Giveaways.SweptOne(old(giveaways)[id], id, now, reachable, picks)
    {
      giveaways := Giveaways.Sweep(giveaways, now, reachable, picks);
    }
  }

  // ------------------------------------------------------------------ lemmas

  /** A claim keeps every stored raffle well formed and touches no raffle
      other than its own. */
  lemma ClaimStepKeepsValid(raffles: map<RaffleKey, Raffle>, rs: Reservations, key: RaffleKey,
                            author: UserId, nums: seq<int>, now: int)
    requires AllWellFormed(raffles)
    ensures var (_, raffles2, _) := ClaimStep(raffles, rs, key, author, nums, now);
      && AllWellFormed(raffles2)
      && raffles2.Keys == raffles.Keys + {key}
      && (forall k :: k in raffles && k != key ==> raffles2[k] == raffles[k])
  {
    var r := RaffleIn(raffles, key);
    if r.active && r.max > 0 && Slots.OutOfRangeIn(Dedupe(nums), r.max) == [] {
      var (got, rs1) := GetReservation(rs, key, author, now);
      GetReservationLive(rs, key, author, now);
      var allowance: Option<nat> := if got.Some? then Some(got.value.remaining) else None;
      if Slots.ClaimNumbers(r, nums, author, allowance).Ok? {
        Slots.ClaimKeepsWellFormed(r, nums, author, allowance);
      }
    }
  }

  /** A member's live reservation caps their claim: they get at most
      `remaining` slots, and the raffle's reserved total drops by exactly the
      number of slots they got. */
  lemma ClaimSpendsReservation(raffles: map<RaffleKey, Raffle>, rs: Reservations, key: RaffleKey,
                               author: UserId, nums: seq<int>, now: int)
    requires key in rs && author in rs[key] && IsLive(rs[key][author], now)
    requires ClaimStep(raffles, rs, key, author, nums, now).0.Ok?
    ensures var (out, _, rs2) := ClaimStep(raffles, rs, key, author, nums, now);
      && 0 < |out.value.claimed| <= rs[key][author].remaining
      && Ledger.ReservedTotal(rs2, key, now).0 == Ledger.ReservedTotal(rs, key, now).0 - |out.value.claimed|
  {
    var r := RaffleIn(raffles, key);
    var m: nat := rs[key][author].remaining;
    Slots.ClaimEffect(r, nums, author, Some(m));
    var w := Slots.ClaimNumbers(r, nums, author, Some(m)).value.1;
    UseLowersReservedTotal(rs, key, author, |w.claimed|, now);
  }

  /** Another member's reservation never blocks a claim: the outcome and the
      raffles afterwards depend on the ledger only through the claimant's own
      entry. */
  lemma ClaimIgnoresOthersReservations(raffles: map<RaffleKey, Raffle>, rs: Reservations, rs': Reservations,
                                       key: RaffleKey, author: UserId, nums: seq<int>, now: int)
    requires GetReservation(rs, key, author, now).0 == GetReservation(rs', key, author, now).0
    ensures ClaimStep(raffles, rs, key, author, nums, now).0 == ClaimStep(raffles, rs', key, author, nums, now).0
    ensures ClaimStep(raffles, rs, key, author, nums, now).1 == ClaimStep(raffles, rs', key, author, nums, now).1
  {
  }

  /** Creating a mini adds no reservation; only the draw's grant adds one,
      the winner's entry in the main raffle's bucket, and touches nothing
      else. */
  lemma MiniGrantAddsOnlyWinner(rs: Reservations, meta: Minis.MiniMeta, d: Minis.Drawn, minutes: int, now: int)
    ensures var rs2 := Minis.GrantReservation(rs, meta, d, minutes, now);
      && rs2.Keys == rs.Keys + {meta.mainKey}
      && (forall k :: k in rs && k != meta.mainKey ==> rs2[k] == rs[k])
      && (forall u :: meta.mainKey in rs && u in rs[meta.mainKey] && u != d.winner ==>
            rs2[meta.mainKey][u] == rs[meta.mainKey][u])
      && rs2[meta.mainKey][d.winner] == Reservation(d.tickets, now + minutes * MinuteMs)
  {
  }
}
