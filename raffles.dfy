/** The raffle entity (index.js:318-375): a record per thread with its slot
    claims, and the queries the handlers ask of it: how many slots are
    claimed, how many a member holds, whether it is full, whether it is free,
    and what one slot costs. */
module Raffles {

  import opened Common
  import opened Text

  /** `guildId:channelId`, the key of a raffle and of its reservation bucket. */
  type RaffleKey = string

  /** Slot number to its holders: one owner, or an owner and a split partner. */
  type Claims = map<int, seq<UserId>>

  /** `data.raffles[key]`. The board message id, the last announced
      mains-left count and the creation time are display-only and not kept. */
  datatype Raffle = Raffle(active: bool, max: int, priceText: string, claims: Claims)

  /** What `getRaffle` stores for a thread seen for the first time. */
  const Unstarted := Raffle(false, 0, "", map[])

  /** `raffleKey(guildId, channelId)` (index.js:314-316). */
  function RaffleKeyOf(guildId: string, channelId: string): RaffleKey {
    guildId + ":" + channelId
  }

  /** `key.split(":")[1]`: the text between the first and second colon (or
      the end), or "" when there is no colon. */
  function SecondField(key: string): string {
    var after := AfterColon(key);
    if after.None? then "" else UpToColon(after.value)
  }

  function AfterColon(s: string): Option<string> {
    if s == [] then None else if s[0] == ':' then Some(s[1..]) else AfterColon(s[1..])
  }

  function UpToColon(s: string): string {
    if s == [] || s[0] == ':' then [] else [s[0]] + UpToColon(s[1..])
  }

  /** The mini draw finds the main thread again from the stored key: for
      colon-free ids, splitting the key gives back the channel id. */
  lemma {:induction false} SecondFieldOfKey(guildId: string, channelId: string)
    requires ':' !in guildId && ':' !in channelId
    ensures SecondField(RaffleKeyOf(guildId, channelId)) == channelId
  {
    AfterColonSkips(guildId, channelId);
    UpToColonWhole(channelId);
  }

  lemma {:induction false} AfterColonSkips(g: string, c: string)
    requires ':' !in g
    ensures AfterColon(g + ":" + c) == Some(c)
  {
    if g != [] {
      assert (g + ":" + c)[1..] == g[1..] + ":" + c;
      AfterColonSkips(g[1..], c);
    } else {
      assert g + ":" + c == [':'] + c;
    }
  }

  lemma {:induction false} UpToColonWhole(c: string)
    requires ':' !in c
    ensures UpToColon(c) == c
  {
    if c != [] {
      UpToColonWhole(c[1..]);
    }
  }

  // ---------------------------------------------------------------- invariant

  /** One owner, or two different ones. */
  predicate OwnersOk(owners: seq<UserId>) {
    (|owners| == 1 || |owners| == 2) && (|owners| == 2 ==> owners[0] != owners[1])
  }

  /** The invariant every handler keeps: each claimed key is a slot number
      of the raffle and holds one or two distinct members; no key maps to an
      empty list. */
  predicate WellFormed(r: Raffle) {
    forall k :: k in r.claims ==> 1 <= k <= r.max && OwnersOk(r.claims[k])
  }

  // ------------------------------------------------------------------ queries

  /** `!owners || owners.length === 0`: the slot is available. */
  predicate IsOpen(claims: Claims, n: int) {
    n !in claims || |claims[n]| == 0
  }

  /** Keys with at least one holder: what `countClaimedSlots` counts. */
  function ClaimedKeys(claims: Claims): set<int> {
    set k | k in claims && |claims[k]| > 0
  }

  /** Keys whose holders include `u`: what `countUserClaims` counts. */
  function UserSlots(claims: Claims, u: UserId): set<int> {
    set k | k in claims && u in claims[k]
  }

  /** The keys among `seen` with at least one holder. */
  function HeldAmong(claims: Claims, seen: set<int>): set<int> {
    set k | k in seen && k in claims && |claims[k]| > 0
  }

  /** The keys among `seen` whose holders include `u`. */
  function HeldByAmong(claims: Claims, u: UserId, seen: set<int>): set<int> {
    set k | k in seen && k in claims && u in claims[k]
  }

  /** Visiting one more key adds it to the held keys exactly when it has a
      holder. */
  lemma HeldAmongStep(claims: Claims, seen: set<int>, k: int)
    requires k !in seen && k in claims
    ensures |HeldAmong(claims, seen + {k})|
            == |HeldAmong(claims, seen)| + (if |claims[k]| > 0 then 1 else 0)
  {
    if |claims[k]| > 0 {
      assert HeldAmong(claims, seen + {k}) == HeldAmong(claims, seen) + {k};
    } else {
      assert HeldAmong(claims, seen + {k}) == HeldAmong(claims, seen);
    }
  }

  /** Visiting one more key adds it to `u`'s keys exactly when `u` holds it. */
  lemma HeldByAmongStep(claims: Claims, u: UserId, seen: set<int>, k: int)
    requires k !in seen && k in claims
    ensures |HeldByAmong(claims, u, seen + {k})|
            == |HeldByAmong(claims, u, seen)| + (if u in claims[k] then 1 else 0)
  {
    if u in claims[k] {
      assert HeldByAmong(claims, u, seen + {k}) == HeldByAmong(claims, u, seen) + {k};
    } else {
      assert HeldByAmong(claims, u, seen + {k}) == HeldByAmong(claims, u, seen);
    }
  }

  /** `countClaimedSlots` (index.js:357-363). */
  method CountClaimedSlots(claims: Claims) returns (n: nat)
    ensures n == |ClaimedKeys(claims)|
  {
    n := 0;
    var todo := claims.Keys;
    ghost var seen: set<int> := {};
    assert HeldAmong(claims, seen) == {};
    while todo != {}
      invariant todo !! seen && todo + seen == claims.Keys
      invariant n == |HeldAmong(claims, seen)|
      decreases |todo|
    {
      EmptyOrHasInt(todo);
      var k :| k in todo;
      HeldAmongStep(claims, seen, k);
      if |claims[k]| > 0 {
        n := n + 1;
      }
      todo := todo - {k};
      seen := seen + {k};
    }
    assert HeldAmong(claims, seen) == ClaimedKeys(claims);
  }

  /** `countUserClaims` (index.js:369-375). */
  method CountUserClaims(claims: Claims, u: UserId) returns (n: nat)
    ensures n == |UserSlots(claims, u)|
  {
    n := 0;
    var todo := claims.Keys;
    ghost var seen: set<int> := {};
    assert HeldByAmong(claims, u, seen) == {};
    while todo != {}
      invariant todo !! seen && todo + seen == claims.Keys
      invariant n == |HeldByAmong(claims, u, seen)|
      decreases |todo|
    {
      EmptyOrHasInt(todo);
      var k :| k in todo;
      HeldByAmongStep(claims, u, seen, k);
      if u in claims[k] {
        n := n + 1;
      }
      todo := todo - {k};
      seen := seen + {k};
    }
    assert HeldByAmong(claims, u, seen) == UserSlots(claims, u);
  }

  /** `isRaffleFull` (index.js:365-367). */
  predicate IsRaffleFull(r: Raffle) {
    r.max > 0 && |ClaimedKeys(r.claims)| >= r.max
  }

  /** The slot numbers 1..max in ascending order (`for (let n = 1; n <= max; n++)`). */
  function SlotList(max: int): (s: seq<int>)
    ensures forall k :: k in s <==> 1 <= k <= max
    ensures |s| == (if max < 0 then 0 else max)
    ensures forall i :: 0 <= i < |s| ==> s[i] == i + 1
  {
    var n := if max < 0 then 0 else max;
    var s := seq(n, i requires 0 <= i < n => i + 1);
    forall k | 1 <= k <= max ensures k in s { assert s[k - 1] == k; }
    s
  }

  /** The slot numbers 1..max, as a set. */
  function SlotNumbers(max: int): set<int> {
    set k | k in SlotList(max)
  }

  lemma SlotNumbersCount(max: nat)
    ensures |SlotNumbers(max)| == max
  {
    var s := SlotList(max);
    assert NoDuplicates(s);
    DistinctCardinality(s);
  }

  /** A well-formed raffle never counts more claimed slots than it has. */
  lemma ClaimedAtMostMax(r: Raffle)
    requires WellFormed(r)
    ensures 0 <= |ClaimedKeys(r.claims)| <= (if r.max < 0 then 0 else r.max)
  {
    var n := if r.max < 0 then 0 else r.max;
    assert ClaimedKeys(r.claims) <= SlotNumbers(n);
    SlotNumbersCount(n);
    SubsetCount(ClaimedKeys(r.claims), SlotNumbers(n));
  }

  lemma SubsetCount(a: set<int>, b: set<int>)
    requires a <= b
    ensures |a| <= |b|
    ensures |a| == |b| ==> a == b
  {
    assert b == a + (b - a);
    assert |b| == |a| + |b - a|;
    if |a| == |b| {
      assert b - a == {};
    }
  }

  /** `isRaffleFull` holds of a well-formed raffle exactly when it has slots
      and every one of them, 1 to max, is claimed. */
  lemma FullMeansEverySlotTaken(r: Raffle)
    requires WellFormed(r)
    ensures IsRaffleFull(r) <==> r.max > 0 && forall k :: 1 <= k <= r.max ==> k in r.claims
  {
    if r.max > 0 {
      var c := ClaimedKeys(r.claims);
      assert c <= SlotNumbers(r.max);
      SlotNumbersCount(r.max);
      SubsetCount(c, SlotNumbers(r.max));
      if forall k :: 1 <= k <= r.max ==> k in r.claims {
        assert c == SlotNumbers(r.max);
      }
      if IsRaffleFull(r) {
        assert c == SlotNumbers(r.max);
        forall k | 1 <= k <= r.max ensures k in r.claims {
          assert k in SlotNumbers(r.max);
        }
      }
    }
  }

  // ---------------------------------------------------------------- pricing

  /** `isFreeRaffle` (index.js:345-349): an empty price text, "free", "0",
      or any text that contains "0 coin" or "0coin" after trimming and
      lower-casing. */
  predicate IsFreeRaffle(priceText: string) {
    var t := ToLower(Trim(priceText));
    t == [] || t == "free" || t == "0" || Contains(t, "0 coin") || Contains(t, "0coin")
  }

  /** `parseCoinPrice` (index.js:351-355): the first run of digits. */
  function ParseCoinPrice(priceText: string): Option<nat> {
    FirstDigitRun(priceText)
  }

  /** A raffle started without price text, or with spaces only, is free. */
  lemma BlankPriceIsFree(spaces: string)
    requires AllSpace(spaces)
    ensures IsFreeRaffle(spaces)
  {
    TrimPadded(spaces, [], []);
    assert spaces + [] + [] == spaces;
  }

  /** "`n` coins" is already trimmed and lower-case. */
  lemma CoinsTextNormal(d: string)
    requires d != [] && AllDigits(d)
    ensures ToLower(Trim(d + " coins")) == d + " coins"
  {
    var t := d + " coins";
    assert t[0] == d[0] && IsDigit(d[0]);
    assert t[|t| - 1] == 's';
    TrimPadded([], t, []);
    assert [] + t + [] == t;
    forall i | 0 <= i < |t| ensures LowerChar(t[i]) == t[i] {
      if i < |d| { assert t[i] == d[i] && IsDigit(d[i]); } else { assert t[i] == " coins"[i - |d|]; }
    }
  }

  /** The shape of "`digits` coins": digits, then a space, then letters. */
  lemma CoinsTextShape(d: string)
    requires d != [] && AllDigits(d)
    ensures var t := d + " coins";
      && t[|d|..] == " coins"
      && (forall j :: 0 <= j < |d| ==> IsDigit(t[j]))
      && (forall j :: |d| < j < |t| ==> t[j] != ' ' && t[j] != '0')
  {
    var t := d + " coins";
    var L := |d|;
    assert t[L..] == " coins";
    forall j | 0 <= j < L ensures IsDigit(t[j]) { assert t[j] == d[j]; }
    forall j | L < j < |t| ensures t[j] != ' ' && t[j] != '0' { assert t[j] == " coins"[j - L]; }
  }

  /** "0 coin" occurs in "`digits` coins" exactly when the last digit is 0. */
  lemma CoinsTextMatches(d: string)
    requires d != [] && AllDigits(d)
    ensures Contains(d + " coins", "0 coin") <==> d[|d| - 1] == '0'
  {
    var t := d + " coins";
    var L := |d|;
    CoinsTextShape(d);
    if d[L - 1] == '0' {
      assert t[L - 1..] == [d[L - 1]] + " coins";
      assert t[L - 1..][..6] == "0 coin";
    }
    forall i | 0 <= i <= |t| - 6 && "0 coin" <= t[i..] ensures i == L - 1 {
      assert t[i..][0] == t[i] && t[i..][1] == t[i + 1];
    }
  }

  /** "0coin" never occurs in "`digits` coins". */
  lemma CoinsTextNoZeroCoin(d: string)
    requires d != [] && AllDigits(d)
    ensures !Contains(d + " coins", "0coin")
  {
    var t := d + " coins";
    var L := |d|;
    CoinsTextShape(d);
    forall i | 0 <= i <= |t| - 5 ensures !("0coin" <= t[i..]) {
      assert t[i..][0] == t[i] && t[i..][1] == t[i + 1];
      if t[i] == '0' {
        assert i < L;
        assert t[i + 1] != 'c';
      }
    }
  }

  /** A price of `n` coins, written "`n` coins", reads as free exactly when
      `n` ends in the digit 0: the test looks for the text "0 coin", so
      "50 coins" and "100 coins" count as free while "5 coins" does not. */
  lemma CoinsPriceFreeIff(n: nat)
    ensures IsFreeRaffle(NatToDigits(n) + " coins") <==> n % 10 == 0
  {
    var d := NatToDigits(n);
    var t := d + " coins";
    CoinsTextNormal(d);
    CoinsTextMatches(d);
    CoinsTextNoZeroCoin(d);
    assert |t| >= 7;
    assert t != "free" && t != "0";
    assert d[|d| - 1] == '0' <==> n % 10 == 0;
  }

  /** The price is read from the first number in the text, whatever follows. */
  lemma CoinPriceRead(pre: string, n: nat, rest: string)
    requires forall i :: 0 <= i < |pre| ==> !IsDigit(pre[i])
    requires rest != [] ==> !IsDigit(rest[0])
    ensures ParseCoinPrice(pre + NatToDigits(n) + rest) == Some(n)
  {
    DigitsRoundTrip(n);
    DigitRunsSplit(pre, NatToDigits(n), rest);
  }
}
