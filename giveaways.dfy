/** Giveaways (index.js:214-305, 971-988, 1051-1126): a prize announced in a
    channel, members entering with a button until it ends, and a random
    draw of distinct winners when it ends (by the periodic sweep, by a mod,
    or again on a reroll). Giveaways are kept by the id of their message. */
module Giveaways {

  import opened Common
  import opened Durations

  /** `data.giveaways[messageId]`. `lastWinners` is empty and `endedAt` is
      absent until the giveaway first ends. */
  datatype Giveaway = Giveaway(
    guildId: string,
    channelId: string,
    prize: string,
    winners: int,
    endsAt: int,
    startedAt: int,
    ended: bool,
    participants: seq<UserId>,
    hostId: UserId,
    lastWinners: seq<UserId>,
    endedAt: Option<int>)

  type Giveaways = map<string, Giveaway>

  /** `Number(g.winners) || 1`: a count of 0 draws one winner. */
  function WinnerCount(g: Giveaway): int {
    if g.winners == 0 then 1 else g.winners
  }

  // ------------------------------------------------------------------ draw

  /** The random indices a draw from `pool` may use: the j-th pick chooses
      among the `|pool| - j` entrants still in the pool (`randInt(0,
      pool.length - 1)`). */
  predicate PicksFit(pool: nat, count: int, picks: seq<nat>) {
    && |picks| >= Min(count, pool)
    && forall j :: 0 <= j < |picks| && j < pool ==> picks[j] < pool - j
  }

  /** The winners drawn from a pool without replacement: each pick takes an
      entrant out of the pool, until `count` are drawn or nobody is left. */
  function Sample(pool: seq<UserId>, count: int, picks: seq<nat>): seq<UserId>
    requires PicksFit(|pool|, count, picks)
    decreases |pool|
  {
    if pool == [] || count <= 0 then []
    else [pool[picks[0]]] + Sample(RemoveAt(pool, picks[0]), count - 1, picks[1..])
  }

  /** `pickWinnersFrom(array, count)` (index.js:233-241): the entrants are
      deduplicated into a pool, and winners are spliced out of it one at a
      time. */
  method PickWinnersFrom(entries: seq<UserId>, count: int, picks: seq<nat>) returns (winners: seq<UserId>)
    requires PicksFit(|Dedupe(entries)|, count, picks)
    ensures winners == Sample(Dedupe(entries), count, picks)
    ensures |winners| == (if count <= 0 then 0 else Min(count, |Dedupe(entries)|))
    ensures NoDuplicates(winners)
    ensures forall w :: w in winners ==> w in entries
  {
    var pool := Dedupe(entries);
    winners := Draw(pool, count, picks);
    SampleFacts(pool, count, picks);
  }

  /** The splice loop of `pickWinnersFrom`: each random index takes one
      entrant out of the pool, until `count` are drawn or the pool is empty. */
  method Draw(pool: seq<UserId>, count: int, picks: seq<nat>) returns (winners: seq<UserId>)
    requires PicksFit(|pool|, count, picks)
    ensures winners == Sample(pool, count, picks)
  {
    ghost var whole := Sample(pool, count, picks);
    var left := pool;
    var rest := picks;
    winners := [];
    while |left| > 0 && |winners| < count
      invariant PicksFit(|left|, count - |winners|, rest)
      invariant winners + Sample(left, count - |winners|, rest) == whole
      decreases |left|
    {
      SampleStep(winners, left, count - |winners|, rest);
      var idx := rest[0];
      winners := winners + [left[idx]];
      left := RemoveAt(left, idx);
      rest := rest[1..];
    }
  }

  /** One step of a draw: the first pick chooses the first winner, and the
      remaining picks fit the smaller pool. */
  lemma PicksFitStep(pool: seq<UserId>, count: int, picks: seq<nat>)
    requires PicksFit(|pool|, count, picks)
    requires pool != [] && count > 0
    ensures picks != [] && picks[0] < |pool|
    ensures PicksFit(|pool| - 1, count - 1, picks[1..])
    ensures Sample(pool, count, picks) == [pool[picks[0]]] + Sample(RemoveAt(pool, picks[0]), count - 1, picks[1..])
  {
    assert |picks| >= 1;
    forall i | 0 <= i < |picks[1..]| && i < |pool| - 1 ensures picks[1..][i] < |pool| - 1 - i {
      assert picks[1..][i] == picks[i + 1];
    }
  }

  /** The loop step of `PickWinnersFrom`: moving the first pick's entrant
      from the pool to the winners keeps the whole draw the same. */
  lemma SampleStep(winners: seq<UserId>, pool: seq<UserId>, count: int, picks: seq<nat>)
    requires PicksFit(|pool|, count, picks)
    requires pool != [] && count > 0
    ensures picks != [] && picks[0] < |pool|
    ensures PicksFit(|pool| - 1, count - 1, picks[1..])
    ensures winners + Sample(pool, count, picks)
            == (winners + [pool[picks[0]]]) + Sample(RemoveAt(pool, picks[0]), count - 1, picks[1..])
  {
    PicksFitStep(pool, count, picks);
    var tail := Sample(RemoveAt(pool, picks[0]), count - 1, picks[1..]);
    assert winners + ([pool[picks[0]]] + tail) == (winners + [pool[picks[0]]]) + tail;
  }

  /** A draw names `min(count, |pool|)` winners, all different, all from the
      pool. */
  lemma {:induction false} SampleFacts(pool: seq<UserId>, count: int, picks: seq<nat>)
    requires PicksFit(|pool|, count, picks)
    requires NoDuplicates(pool)
    ensures var w := Sample(pool, count, picks);
      && |w| == (if count <= 0 then 0 else Min(count, |pool|))
      && NoDuplicates(w)
      && (forall x :: x in w ==> x in pool)
    decreases |pool|
  {
    if pool != [] && count > 0 {
      var rest := RemoveAt(pool, picks[0]);
      SampleFacts(rest, count - 1, picks[1..]);
      var tail := Sample(rest, count - 1, picks[1..]);
      assert pool[picks[0]] !in tail;
    }
  }

  /** Asking for at least as many winners as there are distinct entrants
      makes every entrant a winner. */
  lemma EveryoneWinsWhenFew(entries: seq<UserId>, count: int, picks: seq<nat>)
    requires PicksFit(|Dedupe(entries)|, count, picks)
    requires count >= |Dedupe(entries)|
    ensures forall u :: u in Sample(Dedupe(entries), count, picks) <==> u in entries
  {
    var pool := Dedupe(entries);
    var w := Sample(pool, count, picks);
    SampleFacts(pool, count, picks);
    DistinctCardinality(w);
    DistinctCardinality(pool);
    var sw := set x | x in w;
    var sp := set x | x in pool;
    assert sw <= sp;
    assert |sw| == |sp|;
    assert sp - sw == {} by {
      assert |sp - sw| == |sp| - |sw|;
    }
    forall u | u in entries ensures u in w {
      assert u in sp;
    }
  }

  // -------------------------------------------------------------- lifecycle

  datatype StartError = GiveawayModsOnly | BadDuration | BadWinnerCount | GiveawayChannelMissing

  /** `/giveaway start` (index.js:1051-1107). `isMod` is the caller's
      privilege; `messageId` is the id of the announcement message, or None
      when the giveaway channel cannot be found. */
  function StartGiveaway(isMod: bool, prize: string, duration: string, winners: int,
                         guildId: string, messageId: Option<(string, string)>, host: UserId,
                         now: int): Result<(string, Giveaway), StartError>
  {
    var ms := ParseDurationToMs(duration);
    if !isMod then Err(GiveawayModsOnly)
    else if ms.None? then Err(BadDuration)
    else if winners < 1 || winners > 50 then Err(BadWinnerCount)
    else if messageId.None? then Err(GiveawayChannelMissing)
    else
      var (msgId, channelId) := messageId.value;
      Ok((msgId, Giveaway(guildId, channelId, prize, winners, now + ms.value, now, false, [], host, [], None)))
  }

  datatype JoinError = Gone | AlreadyOver | AlreadyEntered

  /** The join button (index.js:971-988). */
  function Join(g: Option<Giveaway>, u: UserId): Result<Giveaway, JoinError> {
    if g.None? then Err(Gone)
    else if g.value.ended then Err(AlreadyOver)
    else if u in g.value.participants then Err(AlreadyEntered)
    else Ok(g.value.(participants := g.value.participants + [u]))
  }

  datatype EndError = NotFound | AlreadyEnded | GuildUnavailable | ChannelMissing

  /** The state part of `endGiveawayByMessageId` (index.js:243-262): refused
      for an unknown giveaway, for an ended one unless rerolling, and when
      its guild or channel cannot be reached; otherwise winners are drawn
      and the giveaway is marked ended at `now` with those winners. */
  method EndGiveaway(g: Option<Giveaway>, reroll: bool, guildOk: bool, channelOk: bool,
                     picks: seq<nat>, now: int) returns (out: Result<(Giveaway, seq<UserId>), EndError>)
    requires g.Some? ==> PicksFit(|Dedupe(g.value.participants)|, WinnerCount(g.value), picks)
    ensures out == EndOutcome(g, reroll, guildOk, channelOk, picks, now)
  {
    if g.None? {
      return Err(NotFound);
    }
    var gv := g.value;
    if gv.ended && !reroll {
      return Err(AlreadyEnded);
    }
    if !guildOk {
      return Err(GuildUnavailable);
    }
    if !channelOk {
      return Err(ChannelMissing);
    }
    var winners := PickWinnersFrom(gv.participants, WinnerCount(gv), picks);
    return Ok((gv.(ended := true, endedAt := Some(now), lastWinners := winners), winners));
  }

  /** What ending a giveaway yields, as a value: the specification
      `EndGiveaway` is proved against, and what the lemmas below reason
      about. */
  function EndOutcome(g: Option<Giveaway>, reroll: bool, guildOk: bool, channelOk: bool,
                      picks: seq<nat>, now: int): Result<(Giveaway, seq<UserId>), EndError>
    requires g.Some? ==> PicksFit(|Dedupe(g.value.participants)|, WinnerCount(g.value), picks)
  {
    if g.None? then Err(NotFound)
    else if g.value.ended && !reroll then Err(AlreadyEnded)
    else if !guildOk then Err(GuildUnavailable)
    else if !channelOk then Err(ChannelMissing)
    else
      var w := Sample(Dedupe(g.value.participants), WinnerCount(g.value), picks);
      Ok((g.value.(ended := true, endedAt := Some(now), lastWinners := w), w))
  }

  /** The sweep's test (index.js:300-302): not ended, with an end time that
      is set and has been reached. */
  predicate IsDue(g: Giveaway, now: int) {
    !g.ended && g.endsAt != 0 && g.endsAt <= now
  }

  /** `giveawaySweep` (index.js:296-305): every due giveaway whose guild and
      channel can be reached (`reachable`) is ended with its own picks;
      the others are left as they are. */
  method Sweep(gs: Giveaways, now: int, reachable: set<string>, picks: map<string, seq<nat>>)
    returns (out: Giveaways)
    requires forall id :: id in gs && IsDue(gs[id], now) ==>
      id in picks && PicksFit(|Dedupe(gs[id].participants)|, WinnerCount(gs[id]), picks[id])
    ensures out.Keys == gs.Keys
    ensures forall id :: id in gs ==> out[id] == SweptOne(gs[id], id, now, reachable, picks)
  {
    out := gs;
    var todo := gs.Keys;
    while todo != {}
      invariant todo <= gs.Keys
      invariant out.Keys == gs.Keys
      invariant forall id :: id in gs && id !in todo ==> out[id] == SweptOne(gs[id], id, now, reachable, picks)
      invariant forall id :: id in todo ==> out[id] == gs[id]
      decreases |todo|
    {
      EmptyOrHasElement(todo);
      var id :| id in todo;
      var g := gs[id];
      if IsDue(g, now) {
        var r := EndGiveaway(Some(g), false, id in reachable, id in reachable, picks[id], now);
        if r.Ok? {
          out := out[id := r.value.0];
        }
      }
      todo := todo - {id};
    }
  }

  /** One giveaway after the sweep. */
  function SweptOne(g: Giveaway, id: string, now: int, reachable: set<string>, picks: map<string, seq<nat>>): Giveaway
    requires IsDue(g, now) ==> id in picks && PicksFit(|Dedupe(g.participants)|, WinnerCount(g), picks[id])
  {
    if IsDue(g, now) && id in reachable then
      var w := Sample(Dedupe(g.participants), WinnerCount(g), picks[id]);
      g.(ended := true, endedAt := Some(now), lastWinners := w)
    else g
  }

  // ------------------------------------------------------------------ lemmas

  /** A new giveaway has no entrants, is not due while its time runs, and
      is due from its end time on (the duration is positive). */
  lemma StartedGiveawayRuns(isMod: bool, prize: string, duration: string, winners: int,
                            guildId: string, messageId: Option<(string, string)>, host: UserId,
                            now: int, later: int)
    requires now >= 0
    ensures var out := StartGiveaway(isMod, prize, duration, winners, guildId, messageId, host, now);
      && (out.Ok? <==> isMod && ParseDurationToMs(duration).Some? && 1 <= winners <= 50 && messageId.Some?)
      && (out.Ok? ==>
            var g := out.value.1;
            && g.participants == [] && !g.ended && 1 <= WinnerCount(g) <= 50
            && !IsDue(g, now)
            && (IsDue(g, later) <==> later >= now + ParseDurationToMs(duration).value))
  {
  }

  /** Joining is refused once the giveaway has ended; a repeat join changes
      nothing; otherwise the member is appended, so the entrants stay
      distinct and nothing else about the giveaway changes. */
  lemma JoinEffect(g: Option<Giveaway>, u: UserId)
    ensures var out := Join(g, u);
      && (g.Some? && g.value.ended ==> out == Err(AlreadyOver))
      && (g.Some? && !g.value.ended && u in g.value.participants ==> out == Err(AlreadyEntered))
      && (out.Ok? <==> g.Some? && !g.value.ended && u !in g.value.participants)
      && (out.Ok? ==> out.value.participants == g.value.participants + [u]
                      && out.value.(participants := g.value.participants) == g.value)
  {
  }

  lemma JoinKeepsEntrantsDistinct(g: Giveaway, u: UserId)
    requires NoDuplicates(g.participants)
    ensures Join(Some(g), u).Ok? ==> NoDuplicates(Join(Some(g), u).value.participants)
  {
    if Join(Some(g), u).Ok? {
      var p := g.participants + [u];
      forall i, j | 0 <= i < j < |p| ensures p[i] != p[j] {
        if j == |p| - 1 { assert p[i] in g.participants; }
      }
    }
  }

  /** Ending fails, changing nothing, for an unknown giveaway and for an
      ended one without a reroll. A successful end or reroll marks the
      giveaway ended at `now`, records as `lastWinners` exactly the winners
      it reports (distinct entrants, as many as asked for or as there are),
      and leaves every other field as it was. */
  lemma EndEffect(g: Option<Giveaway>, reroll: bool, guildOk: bool, channelOk: bool, picks: seq<nat>, now: int)
    requires g.Some? ==> PicksFit(|Dedupe(g.value.participants)|, WinnerCount(g.value), picks)
    ensures var out := EndOutcome(g, reroll, guildOk, channelOk, picks, now);
      && (out == Err(NotFound) <==> g.None?)
      && (out == Err(AlreadyEnded) <==> g.Some? && g.value.ended && !reroll)
      && (out.Ok? <==> g.Some? && (!g.value.ended || reroll) && guildOk && channelOk)
      && (out.Ok? ==>
            var (g2, w) := out.value;
            && g2.ended && g2.endedAt == Some(now) && g2.lastWinners == w
            && NoDuplicates(w)
            && (forall x :: x in w ==> x in g.value.participants)
            && |w| == (if WinnerCount(g.value) <= 0 then 0
                       else Min(WinnerCount(g.value), |Dedupe(g.value.participants)|))
            && g2.(ended := g.value.ended, endedAt := g.value.endedAt, lastWinners := g.value.lastWinners) == g.value)
  {
    if g.Some? && (!g.value.ended || reroll) && guildOk && channelOk {
      SampleFacts(Dedupe(g.value.participants), WinnerCount(g.value), picks);
    }
  }

  /** Once ended, a giveaway can only be drawn again by a reroll, and nobody
      can join it any more. */
  lemma EndedStaysEnded(g: Giveaway, guildOk: bool, channelOk: bool, picks: seq<nat>, now: int, u: UserId,
                        picks2: seq<nat>, later: int)
    requires PicksFit(|Dedupe(g.participants)|, WinnerCount(g), picks)
    requires EndOutcome(Some(g), false, guildOk, channelOk, picks, now).Ok?
    ensures var g2 := EndOutcome(Some(g), false, guildOk, channelOk, picks, now).value.0;
      && PicksFit(|Dedupe(g2.participants)|, WinnerCount(g2), picks2) ==>
           EndOutcome(Some(g2), false, guildOk, channelOk, picks2, later) == Err(AlreadyEnded)
    ensures Join(Some(EndOutcome(Some(g), false, guildOk, channelOk, picks, now).value.0), u) == Err(AlreadyOver)
  {
  }

  /** The sweep touches only due giveaways: one that is ended, has no end
      time, or whose end time is still ahead stays exactly as it was, and a
      reachable due one ends with the winners drawn for it. */
  lemma SweepOnlyEndsDue(gs: Giveaways, now: int, reachable: set<string>, picks: map<string, seq<nat>>, id: string)
    requires id in gs
    requires IsDue(gs[id], now) ==> id in picks && PicksFit(|Dedupe(gs[id].participants)|, WinnerCount(gs[id]), picks[id])
    ensures SweptOne(gs[id], id, now, reachable, picks) != gs[id] ==> IsDue(gs[id], now) && id in reachable
    ensures IsDue(gs[id], now) && id in reachable ==>
      SweptOne(gs[id], id, now, reachable, picks)
        == EndOutcome(Some(gs[id]), false, true, true, picks[id], now).value.0
  {
  }
}
