/** The chat commands that change which members hold which slots of a
    raffle: start, the number claim, `split`, `free`, `free N`, `rest`; the
    `/roll` lookup of a slot's owner; and the migration of legacy claims.
    Each is a function from the raffle before to the raffle after (or to the
    reason nothing changed); the store applies them in place. */
module Slots {

  import opened Common
  import opened Text
  import opened Raffles

  // -------------------------------------------------------- writing open slots

  /** What the write loop leaves behind: the new claims, the numbers it
      wrote and the numbers it found taken, each in the order tried. */
  datatype Written = Written(claims: Claims, claimed: seq<int>, taken: seq<int>)

  /** Try `nums` in order: an open slot gets `[author]`, an occupied one is
      reported as taken. The claim loop (index.js:867-875) and the `rest` loop
      (index.js:813-820) both do this. */
  function WriteOpen(claims: Claims, nums: seq<int>, author: UserId): Written {
    if nums == [] then Written(claims, [], [])
    else
      var w := WriteOpen(claims, nums[..|nums| - 1], author);
      var n := nums[|nums| - 1];
      if IsOpen(w.claims, n) then Written(w.claims[n := [author]], w.claimed + [n], w.taken)
      else Written(w.claims, w.claimed, w.taken + [n])
  }

  /** The write loop itself. */
  method WriteOpenSlots(claims: Claims, nums: seq<int>, author: UserId)
    returns (c: Claims, claimed: seq<int>, taken: seq<int>)
    ensures Written(c, claimed, taken) == WriteOpen(claims, nums, author)
  {
    c, claimed, taken := claims, [], [];
    for i := 0 to |nums|
      invariant Written(c, claimed, taken) == WriteOpen(claims, nums[..i], author)
    {
      assert nums[..i + 1][..i] == nums[..i];
      var n := nums[i];
      if IsOpen(c, n) {
        c := c[n := [author]];
        claimed := claimed + [n];
      } else {
        taken := taken + [n];
      }
    }
    assert nums[..|nums|] == nums;
  }

  /** For distinct numbers, the loop writes `[author]` into exactly the
      requested slots that were open, leaves every other slot as it was, and
      reports each requested number once: claimed if it was open, taken if
      not. */
  lemma {:induction false} WriteOpenEffect(claims: Claims, nums: seq<int>, author: UserId)
    requires NoDuplicates(nums)
    ensures var w := WriteOpen(claims, nums, author);
      && (forall k :: k in nums && IsOpen(claims, k) ==> k in w.claims && w.claims[k] == [author])
      && (forall k :: !(k in nums && IsOpen(claims, k)) ==>
            (k in w.claims <==> k in claims) && (k in claims ==> w.claims[k] == claims[k]))
      && (forall k :: k in w.claimed <==> k in nums && IsOpen(claims, k))
      && (forall k :: k in w.taken <==> k in nums && !IsOpen(claims, k))
      && NoDuplicates(w.claimed) && NoDuplicates(w.taken)
      && |w.claimed| + |w.taken| == |nums|
  {
    if nums != [] {
      var p := nums[..|nums| - 1];
      var n := nums[|nums| - 1];
      assert NoDuplicates(p);
      assert n !in p;
      assert forall k :: k in nums <==> k in p || k == n;
      WriteOpenEffect(claims, p, author);
    }
  }

  /** The numbers of `nums` whose slot is open in `claims`, in order. */
  function OpenIn(claims: Claims, nums: seq<int>): seq<int> {
    if nums == [] then []
    else OpenIn(claims, nums[..|nums| - 1]) + (if IsOpen(claims, nums[|nums| - 1]) then [nums[|nums| - 1]] else [])
  }

  /** The numbers of `nums` whose slot is occupied in `claims`, in order. */
  function TakenIn(claims: Claims, nums: seq<int>): seq<int> {
    if nums == [] then []
    else TakenIn(claims, nums[..|nums| - 1]) + (if IsOpen(claims, nums[|nums| - 1]) then [] else [nums[|nums| - 1]])
  }

  /** For distinct numbers, the loop reports the open ones as claimed and the
      occupied ones as taken, each in the order they were requested: writing
      one slot never closes another requested slot. */
  lemma {:induction false} WriteOpenOrder(claims: Claims, nums: seq<int>, author: UserId)
    requires NoDuplicates(nums)
    ensures WriteOpen(claims, nums, author).claimed == OpenIn(claims, nums)
    ensures WriteOpen(claims, nums, author).taken == TakenIn(claims, nums)
  {
    if nums != [] {
      var p := nums[..|nums| - 1];
      assert NoDuplicates(p);
      assert nums[|nums| - 1] !in p;
      WriteOpenOrder(claims, p, author);
      WriteOpenEffect(claims, p, author);
    }
  }

  /** Writing slots that lie in 1..max keeps the raffle well formed. */
  lemma {:induction false} WriteOpenKeepsWellFormed(r: Raffle, nums: seq<int>, author: UserId)
    requires WellFormed(r)
    requires forall n :: n in nums ==> 1 <= n <= r.max
    ensures WellFormed(r.(claims := WriteOpen(r.claims, nums, author).claims))
  {
    if nums != [] {
      var p := nums[..|nums| - 1];
      assert forall n :: n in p ==> 1 <= n <= r.max by {
        forall n | n in p ensures 1 <= n <= r.max { var i :| 0 <= i < |p| && p[i] == n; assert nums[i] == n; assert n in nums; }
      }
      WriteOpenKeepsWellFormed(r, p, author);
      assert nums[|nums| - 1] in nums;
    }
  }

  // ------------------------------------------------------------------- start

  datatype StartError = StartModsOnly | StartNotInThread | BadSlotCount

  /** `!<max> slots [price]` (index.js:542-564): mods only, inside a raffle
      thread, 1 to 500 slots. The raffle is reset whatever it held before:
      active, no claims, and the trimmed price text or "FREE". */
  function StartRaffle(max: int, priceArg: Option<string>, isMod: bool, inThread: bool): Result<Raffle, StartError> {
    if !isMod then Err(StartModsOnly)
    else if !inThread then Err(StartNotInThread)
    else if max < 1 || max > 500 then Err(BadSlotCount)
    else
      var arg := if priceArg.None? then "" else Trim(priceArg.value);
      Ok(Raffle(true, max, if arg == [] then "FREE" else arg, map[]))
  }

  /** The default price text "FREE" makes a free raffle. */
  lemma DefaultPriceIsFree()
    ensures IsFreeRaffle("FREE")
  {
    TrimPadded([], "FREE", []);
    assert [] + "FREE" + [] == "FREE";
    assert ToLower("FREE") == "free";
  }

  /** Starting succeeds exactly for a mod in a raffle thread asking for 1 to
      500 slots, and checks in that order. A started raffle is open, empty,
      well formed and not full, and without a price text it is free. */
  lemma StartRaffleEffect(max: int, priceArg: Option<string>, isMod: bool, inThread: bool)
    ensures var s := StartRaffle(max, priceArg, isMod, inThread);
      && (s.Ok? <==> isMod && inThread && 1 <= max <= 500)
      && (s.Err? ==> s.error == (if !isMod then StartModsOnly else if !inThread then StartNotInThread else BadSlotCount))
      && (s.Ok? ==> s.value.active && s.value.max == max && s.value.claims == map[] && s.value.priceText != []
                    && WellFormed(s.value) && !IsRaffleFull(s.value))
      && (s.Ok? && (priceArg.None? || AllSpace(priceArg.value)) ==> s.value.priceText == "FREE" && IsFreeRaffle(s.value.priceText))
  {
    var s := StartRaffle(max, priceArg, isMod, inThread);
    if s.Ok? {
      assert ClaimedKeys(s.value.claims) == {};
      if priceArg.None? || AllSpace(priceArg.value) {
        TrimBlank(if priceArg.None? then "" else priceArg.value);
        DefaultPriceIsFree();
      }
    }
  }

  // ------------------------------------------------------------- number claim

  /** Whether a trimmed message is a number claim: it has digits and nothing
      but digits, commas and whitespace (index.js:837-838). */
  predicate LooksLikeNumberClaim(content: string) {
    DigitRuns(content) != []
    && forall i :: 0 <= i < |content| ==> IsDigit(content[i]) || content[i] == ',' || IsSpace(content[i])
  }

  /** Numbers typed as `String(n)`, each followed by a space. */
  function ClaimText(ns: seq<nat>): string {
    if ns == [] then [] else NatToDigits(ns[0]) + " " + ClaimText(ns[1..])
  }

  /** Typed numbers read back as those numbers, in the order typed. */
  lemma {:induction false} ClaimTextReads(ns: seq<nat>)
    ensures DigitRuns(ClaimText(ns)) == ns
  {
    if ns != [] {
      var rest := ClaimText(ns[1..]);
      var tail := [' '] + rest;
      assert ClaimText(ns) == NatToDigits(ns[0]) + tail;
      DigitRunsOfNumber(ns[0], tail);
      DigitRunsSkip(' ', rest);
      ClaimTextReads(ns[1..]);
      assert ns == [ns[0]] + ns[1..];
    }
  }

  /** Typed numbers hold nothing but digits and spaces. */
  lemma {:induction false} ClaimTextChars(ns: seq<nat>)
    ensures forall i :: 0 <= i < |ClaimText(ns)| ==> IsDigit(ClaimText(ns)[i]) || ClaimText(ns)[i] == ' '
  {
    if ns != [] {
      var rest := ClaimText(ns[1..]);
      var d := NatToDigits(ns[0]);
      ClaimTextChars(ns[1..]);
      var t := ClaimText(ns);
      forall i | 0 <= i < |t| ensures IsDigit(t[i]) || t[i] == ' ' {
        if i < |d| { assert t[i] == d[i]; }
        else if i > |d| { assert t[i] == rest[i - |d| - 1]; }
      }
    }
  }

  /** Typing numbers gives a number claim exactly when there is at least one,
      and the claim reads back those numbers in the order typed. */
  lemma ClaimTextRoundTrip(ns: seq<nat>)
    ensures LooksLikeNumberClaim(ClaimText(ns)) <==> ns != []
    ensures DigitRuns(ClaimText(ns)) == ns
  {
    ClaimTextReads(ns);
    ClaimTextChars(ns);
  }

  /** The requested numbers outside 1..max, in request order. */
  function OutOfRangeIn(nums: seq<int>, max: int): (bad: seq<int>)
    ensures forall n :: n in bad <==> n in nums && (n < 1 || n > max)
    ensures bad == [] <==> forall n :: n in nums ==> 1 <= n <= max
  {
    if nums == [] then []
    else
      var bad := OutOfRangeIn(nums[..|nums| - 1], max);
      var n := nums[|nums| - 1];
      assert forall k :: k in nums <==> k in nums[..|nums| - 1] || k == n;
      assert n in nums;
      if n < 1 || n > max then bad + [n] else bad
  }

  datatype ClaimError =
    | NoActiveRaffle               // the message is not treated as a claim
    | OutOfRange(invalid: seq<int>)
    | FreeLimit
    | NoneClaimed(taken: seq<int>)

  /** The number claim (index.js:841-883, 898-901) on a raffle. `allowance`
      is the author's live reservation (`remaining`), or `None` when
      `getReservation` found none. On success the result carries the new
      raffle and what the write loop reported. */
  function ClaimNumbers(r: Raffle, nums: seq<int>, author: UserId, allowance: Option<nat>)
    : Result<(Raffle, Written), ClaimError>
  {
    if !(r.active && r.max > 0) then Err(NoActiveRaffle)
    else
      var unique := Dedupe(nums);
      var invalid := OutOfRangeIn(unique, r.max);
      if invalid != [] then Err(OutOfRange(invalid))
      else if IsFreeRaffle(r.priceText) && |UserSlots(r.claims, author)| >= 1 && allowance.None? then Err(FreeLimit)
      else
        var allowed := if allowance.Some? then allowance.value else |unique|;
        var w := WriteOpen(r.claims, unique[..Min(allowed, |unique|)], author);
        if w.claimed == [] then Err(NoneClaimed(w.taken))
        else
          var next := r.(claims := w.claims);
          Ok((next.(active := !IsRaffleFull(next)), w))
  }

  /** A request with any number outside 1..max on an open raffle is refused
      as a whole, naming exactly the offending numbers once each. */
  lemma ClaimOutOfRangeRejected(r: Raffle, nums: seq<int>, author: UserId, allowance: Option<nat>, bad: int)
    requires r.active && r.max > 0
    requires bad in nums && (bad < 1 || bad > r.max)
    ensures var c := ClaimNumbers(r, nums, author, allowance);
      c.Err? && c.error.OutOfRange? && bad in c.error.invalid
      && NoDuplicates(c.error.invalid)
      && forall n :: n in c.error.invalid ==> n in nums && (n < 1 || n > r.max)
  {
    OutOfRangeDistinct(Dedupe(nums), r.max);
  }

  lemma {:induction false} OutOfRangeDistinct(nums: seq<int>, max: int)
    requires NoDuplicates(nums)
    ensures NoDuplicates(OutOfRangeIn(nums, max))
  {
    if nums != [] {
      OutOfRangeDistinct(nums[..|nums| - 1], max);
      assert nums[|nums| - 1] !in nums[..|nums| - 1];
    }
  }

  /** Free mode: a member who already holds a slot and has no reservation is
      refused; with a reservation, or holding nothing yet, they may go on. */
  lemma ClaimFreeLimit(r: Raffle, nums: seq<int>, author: UserId, allowance: Option<nat>)
    requires r.active && r.max > 0
    requires forall n :: n in nums ==> 1 <= n <= r.max
    ensures ClaimNumbers(r, nums, author, allowance) == Err(FreeLimit)
            <==> IsFreeRaffle(r.priceText) && |UserSlots(r.claims, author)| >= 1 && allowance.None?
  {
    assert OutOfRangeIn(Dedupe(nums), r.max) == [];
  }

  /** A successful claim tries the first `remaining` (or all) of the
      distinct numbers in the order first given, writes `[author]` into
      exactly the tried slots that were open and reports them in that order,
      reports the tried occupied slots (the author's own included) as taken
      and leaves them and every other slot untouched, and closes the raffle
      exactly when it became full. */
  lemma ClaimEffect(r: Raffle, nums: seq<int>, author: UserId, allowance: Option<nat>)
    requires ClaimNumbers(r, nums, author, allowance).Ok?
    ensures var (r2, w) := ClaimNumbers(r, nums, author, allowance).value;
      && r2.max == r.max && r2.priceText == r.priceText
      && (forall n :: n in nums ==> 1 <= n <= r.max)
      && w.claimed != []
      && |w.claimed| + |w.taken| <= (if allowance.Some? then allowance.value else |nums|)
      && (forall k :: k in w.claimed ==> k in nums && IsOpen(r.claims, k) && k in r2.claims && r2.claims[k] == [author])
      && (forall k :: k in w.taken ==> k in nums && !IsOpen(r.claims, k))
      && (forall k :: k !in w.claimed ==> (k in r2.claims <==> k in r.claims) && (k in r.claims ==> r2.claims[k] == r.claims[k]))
      && (r2.active <==> !IsRaffleFull(r2))
      && var unique := Dedupe(nums);
         var toTry := unique[..Min(if allowance.Some? then allowance.value else |unique|, |unique|)];
         && w.claimed == OpenIn(r.claims, toTry) && w.taken == TakenIn(r.claims, toTry)
         && (forall k :: k in w.claimed <==> k in toTry && IsOpen(r.claims, k))
         && (forall k :: k in w.taken <==> k in toTry && !IsOpen(r.claims, k))
         && |w.claimed| + |w.taken| == |toTry|
  {
    var unique := Dedupe(nums);
    var allowed := if allowance.Some? then allowance.value else |unique|;
    var toTry := unique[..Min(allowed, |unique|)];
    assert NoDuplicates(toTry);
    assert forall k :: k in toTry ==> k in unique;
    WriteOpenEffect(r.claims, toTry, author);
    WriteOpenOrder(r.claims, toTry, author);
    assert OutOfRangeIn(unique, r.max) == [];
  }

  /** A claim keeps the raffle well formed. */
  lemma ClaimKeepsWellFormed(r: Raffle, nums: seq<int>, author: UserId, allowance: Option<nat>)
    requires WellFormed(r)
    requires ClaimNumbers(r, nums, author, allowance).Ok?
    ensures WellFormed(ClaimNumbers(r, nums, author, allowance).value.0)
  {
    var unique := Dedupe(nums);
    var allowed := if allowance.Some? then allowance.value else |unique|;
    var toTry := unique[..Min(allowed, |unique|)];
    assert OutOfRangeIn(unique, r.max) == [];
    assert forall k :: k in toTry ==> k in unique;
    WriteOpenKeepsWellFormed(r, toTry, author);
  }

  // -------------------------------------------------------------------- split

  datatype SplitError = SplitNoRaffle | SplitOutOfRange | PaidOnly | NotClaimed | AlreadySplit | NotOwner | AlreadyOnSlot

  /** `split N @friend` (index.js:703-725). */
  function Split(r: Raffle, n: int, friend: UserId, author: UserId, isMod: bool): Result<Raffle, SplitError> {
    if !r.active && r.max <= 0 then Err(SplitNoRaffle)
    else if n < 1 || n > r.max then Err(SplitOutOfRange)
    else if IsFreeRaffle(r.priceText) then Err(PaidOnly)
    else if IsOpen(r.claims, n) then Err(NotClaimed)
    else if |r.claims[n]| >= 2 then Err(AlreadySplit)
    else if r.claims[n][0] != author && !isMod then Err(NotOwner)
    else if r.claims[n][0] == friend then Err(AlreadyOnSlot)
    else Ok(r.(claims := r.claims[n := [r.claims[n][0], friend]]))
  }

  /** A split succeeds exactly on a paid raffle's slot held by one member,
      asked for by that member or a mod, naming someone else; it then holds
      the owner and the friend, and nothing else changes. */
  lemma SplitSucceedsIff(r: Raffle, n: int, friend: UserId, author: UserId, isMod: bool)
    requires WellFormed(r)
    ensures Split(r, n, friend, author, isMod).Ok? <==>
      && !IsFreeRaffle(r.priceText) && n in r.claims && |r.claims[n]| == 1
      && (r.claims[n][0] == author || isMod) && r.claims[n][0] != friend
    ensures Split(r, n, friend, author, isMod).Ok? ==>
      var r2 := Split(r, n, friend, author, isMod).value;
      && r2.active == r.active && r2.max == r.max && r2.priceText == r.priceText
      && r2.claims.Keys == r.claims.Keys
      && r2.claims[n] == [r.claims[n][0], friend]
      && (forall k :: k in r.claims && k != n ==> r2.claims[k] == r.claims[k])
      && WellFormed(r2)
  {
    if n in r.claims {
      assert 1 <= n <= r.max;
    }
  }

  // --------------------------------------------------------------------- free

  /** `owners.filter((uid) => uid !== u)`. */
  function Without(owners: seq<UserId>, u: UserId): (s: seq<UserId>)
    ensures forall x :: x in s <==> x in owners && x != u
    ensures |s| <= |owners|
    ensures u in owners ==> |s| < |owners|
  {
    if owners == [] then []
    else
      var s := Without(owners[..|owners| - 1], u);
      var x := owners[|owners| - 1];
      assert forall y :: y in owners <==> y in owners[..|owners| - 1] || y == x;
      if x == u then s else s + [x]
  }

  /** What `free` leaves: `u` is dropped from every slot holding them, and a
      slot left without holders is deleted. */
  function Released(claims: Claims, u: UserId): Claims {
    map k | k in claims && !(u in claims[k] && Without(claims[k], u) == [])
      :: if u in claims[k] then Without(claims[k], u) else claims[k]
  }

  /** The release loop (index.js:782-788). */
  method ReleaseHolder(claims: Claims, u: UserId) returns (c: Claims)
    ensures c == Released(claims, u)
  {
    c := claims;
    var todo := claims.Keys;
    while todo != {}
      invariant todo <= claims.Keys && c.Keys <= claims.Keys
      invariant forall k :: k in todo ==> k in c && c[k] == claims[k]
      invariant forall k :: k in claims && k !in todo ==>
        (k in c <==> k in Released(claims, u)) && (k in c ==> c[k] == Released(claims, u)[k])
      decreases |todo|
    {
      EmptyOrHasInt(todo);
      var k :| k in todo;
      var owners := c[k];
      if u in owners {
        var next := Without(owners, u);
        if next == [] {
          c := c - {k};
        } else {
          c := c[k := next];
        }
      }
      todo := todo - {k};
    }
    assert forall k :: k in c <==> k in Released(claims, u);
    assert forall k :: k in c ==> c[k] == Released(claims, u)[k];
  }

  datatype FreeError = FreeNoRaffle | NoClaims | FreeModsOnly | FreeOutOfRange | AlreadyAvailable

  /** `free` with no number (index.js:775-790): refused when there is no
      raffle or the author holds nothing; otherwise releases every slot. */
  function FreeMine(r: Raffle, author: UserId): Result<Raffle, FreeError> {
    if r.max == 0 then Err(FreeNoRaffle)
    else if |UserSlots(r.claims, author)| == 0 then Err(NoClaims)
    else Ok(r.(claims := Released(r.claims, author)))
  }

  /** After `free` the author holds no slot; a slot they shared keeps the
      partner alone, a slot they held alone is deleted, any other slot is
      untouched, and the raffle stays well formed. Freeing does not reopen a
      closed raffle. */
  lemma FreeMineEffect(r: Raffle, author: UserId)
    requires WellFormed(r)
    requires FreeMine(r, author).Ok?
    ensures var r2 := FreeMine(r, author).value;
      && r2.active == r.active && r2.max == r.max && r2.priceText == r.priceText
      && UserSlots(r2.claims, author) == {}
      && (forall k :: k in r.claims && author !in r.claims[k] ==> k in r2.claims && r2.claims[k] == r.claims[k])
      && (forall k :: k in r.claims && r.claims[k] == [author] ==> k !in r2.claims)
      && (forall k, o :: k in r.claims && (r.claims[k] == [author, o] || r.claims[k] == [o, author]) ==>
            k in r2.claims && r2.claims[k] == [o])
      && WellFormed(r2)
  {
    var c := Released(r.claims, author);
    forall k | k in r.claims && author in r.claims[k]
      ensures k !in c || author !in c[k]
    {
    }
    forall k, o | k in r.claims && (r.claims[k] == [author, o] || r.claims[k] == [o, author])
      ensures k in c && c[k] == [o]
    {
      var s := r.claims[k];
      assert o != author;
      if s == [author, o] {
        assert s[..1] == [author];
        assert Without(s[..1], author) == [];
      } else {
        assert s[..1] == [o];
        assert s[..1][..0] == [];
        assert Without(s[..1], author) == [o];
      }
    }
    forall k | k in c ensures 1 <= k <= r.max && OwnersOk(c[k]) {
      var s := r.claims[k];
      assert OwnersOk(s);
      assert Without([author], author) == [];
      if author in s {
        assert |s| == 1 ==> s == [author];
        assert Without(s, author) != [];
      }
    }
  }

  /** `free N` by a mod (index.js:792-801): refused when there is no raffle,
      for non-mods, out of range, or when the slot is already open. */
  function FreeSlot(r: Raffle, n: int, isMod: bool): Result<Raffle, FreeError> {
    if r.max == 0 then Err(FreeNoRaffle)
    else if !isMod then Err(FreeModsOnly)
    else if n < 1 || n > r.max then Err(FreeOutOfRange)
    else if IsOpen(r.claims, n) then Err(AlreadyAvailable)
    else Ok(r.(claims := r.claims - {n}))
  }

  /** `free N` succeeds exactly for a mod on a claimed slot of the raffle; it
      deletes that key alone and frees one slot of the count. */
  lemma FreeSlotEffect(r: Raffle, n: int, isMod: bool)
    requires WellFormed(r)
    ensures FreeSlot(r, n, isMod).Ok? <==> r.max != 0 && isMod && n in r.claims
    ensures FreeSlot(r, n, isMod).Ok? ==>
      var r2 := FreeSlot(r, n, isMod).value;
      && r2.active == r.active && r2.max == r.max && r2.priceText == r.priceText
      && n !in r2.claims && r2.claims.Keys == r.claims.Keys - {n}
      && (forall k :: k in r2.claims ==> r2.claims[k] == r.claims[k])
      && |ClaimedKeys(r2.claims)| == |ClaimedKeys(r.claims)| - 1
      && WellFormed(r2)
  {
    if n in r.claims {
      assert 1 <= n <= r.max && |r.claims[n]| > 0;
      var r2 := r.(claims := r.claims - {n});
      assert ClaimedKeys(r2.claims) == ClaimedKeys(r.claims) - {n};
    }
  }

  // --------------------------------------------------------------------- rest

  datatype RestError = RestNoActiveRaffle | NothingLeft

  /** `rest` (index.js:808-834): every open slot 1..max goes to the author,
      whatever the price mode or anyone's reservation. Reports how many slots
      were filled. */
  function Rest(r: Raffle, author: UserId): Result<(Raffle, nat), RestError> {
    if !r.active || r.max == 0 then Err(RestNoActiveRaffle)
    else
      var w := WriteOpen(r.claims, SlotList(r.max), author);
      if |w.claimed| == 0 then Err(NothingLeft)
      else
        var next := r.(claims := w.claims);
        Ok((next.(active := !IsRaffleFull(next)), |w.claimed|))
  }

  /** On a well-formed raffle, `rest` fills exactly the open slots: the
      number filled plus the number claimed before is max, every slot 1..max
      ends up held, slots already held are untouched, and the raffle is full
      and closed. */
  lemma RestFillsEverySlot(r: Raffle, author: UserId)
    requires WellFormed(r)
    requires Rest(r, author).Ok?
    ensures var (r2, filled) := Rest(r, author).value;
      && filled + |ClaimedKeys(r.claims)| == r.max
      && (forall k :: 1 <= k <= r.max ==> k in r2.claims)
      && (forall k :: k in r.claims ==> k in r2.claims && r2.claims[k] == r.claims[k])
      && (forall k :: k in r2.claims && k !in r.claims ==> r2.claims[k] == [author])
      && WellFormed(r2) && IsRaffleFull(r2) && !r2.active
  {
    var slots := SlotList(r.max);
    assert NoDuplicates(slots);
    WriteOpenEffect(r.claims, slots, author);
    WriteOpenKeepsWellFormed(r, slots, author);
    var w := WriteOpen(r.claims, slots, author);
    var next := r.(claims := w.claims);
    FullMeansEverySlotTaken(next);
    forall k ensures k in w.taken <==> k in ClaimedKeys(r.claims) {
      if k in r.claims { assert 1 <= k <= r.max; }
    }
    assert (set k | k in w.taken) == ClaimedKeys(r.claims);
    DistinctCardinality(w.taken);
  }

  /** When the author already holds a slot, `rest` still gives them every
      open slot, even in a free raffle where a number claim would be refused. */
  lemma RestIgnoresFreeMode(r: Raffle, author: UserId, held: int)
    requires WellFormed(r) && r.active && IsFreeRaffle(r.priceText)
    requires held in r.claims && author in r.claims[held]
    requires exists k :: 1 <= k <= r.max && k !in r.claims
    ensures Rest(r, author).Ok?
    ensures forall nums :: (forall n :: n in nums ==> 1 <= n <= r.max) ==>
              ClaimNumbers(r, nums, author, None) == Err(FreeLimit)
  {
    var k :| 1 <= k <= r.max && k !in r.claims;
    var slots := SlotList(r.max);
    assert NoDuplicates(slots);
    WriteOpenEffect(r.claims, slots, author);
    assert k in WriteOpen(r.claims, slots, author).claimed;
    assert held in UserSlots(r.claims, author);
    forall nums | forall n :: n in nums ==> 1 <= n <= r.max
      ensures ClaimNumbers(r, nums, author, None) == Err(FreeLimit)
    {
      ClaimFreeLimit(r, nums, author, None);
    }
  }

  // ---------------------------------------------------------------------- roll

  datatype RollOutcome = PlainRoll | Draw(winner: Option<UserId>)

  /** `/roll dN` in a raffle thread (index.js:1136-1139): when N equals the
      raffle's slot count the rolled number is a draw, won by the slot's first
      holder; `owners?.[0] || null` makes it unclaimed when the slot has no
      holder or its first holder is the empty id. Otherwise it is a plain
      roll. */
  function Roll(r: Raffle, sides: int, result: int): RollOutcome {
    if r.max == sides && r.max > 0 then
      Draw(if result in r.claims && |r.claims[result]| > 0 && r.claims[result][0] != ""
           then Some(r.claims[result][0]) else None)
    else PlainRoll
  }

  /** Rolling a full raffle's die always lands on a claimed slot, and names
      its first holder as the winner unless that holder is the empty id,
      which reads as unclaimed. */
  lemma FullRaffleRollHasWinner(r: Raffle, result: int)
    requires WellFormed(r) && IsRaffleFull(r)
    requires 1 <= result <= r.max
    ensures result in r.claims && |r.claims[result]| > 0
    ensures r.claims[result][0] != "" ==> Roll(r, r.max, result) == Draw(Some(r.claims[result][0]))
    ensures r.claims[result][0] == "" ==> Roll(r, r.max, result) == Draw(None)
  {
    FullMeansEverySlotTaken(r);
  }

  // ----------------------------------------------------------------- migration

  /** A stored slot value: a legacy bare user id, or a list of holders. */
  datatype StoredHolders = Legacy(id: UserId) | Holders(ids: seq<UserId>)

  /** The string-to-array migration `getRaffle` runs on every read
      (index.js:335-341). */
  function Migrate(stored: map<int, StoredHolders>): (c: Claims)
    ensures c.Keys == stored.Keys
    ensures forall k :: k in stored && stored[k].Legacy? ==> c[k] == [stored[k].id]
    ensures forall k :: k in stored && stored[k].Holders? ==> c[k] == stored[k].ids
  {
    map k | k in stored :: if stored[k].Legacy? then [stored[k].id] else stored[k].ids
  }

  /** Claims already in list form, written back and read again. */
  function Stored(c: Claims): map<int, StoredHolders> {
    map k | k in c :: Holders(c[k])
  }

  /** Migration changes nothing once every value is a list. */
  lemma MigrateRoundTrip(c: Claims)
    ensures Migrate(Stored(c)) == c
  {
    assert Migrate(Stored(c)).Keys == c.Keys;
  }

  /** Whatever was stored, legacy values included, reading a raffle twice
      gives the same claims as reading it once, and a legacy value becomes a
      single holder, which is a well-formed holder list. */
  lemma MigrateIdempotent(stored: map<int, StoredHolders>)
    ensures Migrate(Stored(Migrate(stored))) == Migrate(stored)
    ensures forall k :: k in stored && stored[k].Legacy? ==> OwnersOk(Migrate(stored)[k])
  {
    MigrateRoundTrip(Migrate(stored));
  }
}
