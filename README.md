# cherbot raffle, reservation and giveaway rules in Dafny

cherbot is a Discord bot that runs slot raffles in threads and giveaways in
a channel. All of its state lives in one in-memory document (`data`), which
is saved to disk after each change. This project models the rules that
change that document and proves properties of them.

- **Raffles.** A raffle belongs to a thread. It has a slot count `max`, a
  free-form price text and a claims map from slot number to one or two
  holders. Members claim slots by typing numbers. Other commands split a
  slot with a friend (`split`), give slots back (`free`, and `free N` for
  mods), take every open slot (`rest`) and report what each holder owes
  (`total`). `/roll` with a die the size of the raffle names the owner of
  the rolled slot. Claims stored in the legacy form, a single id string,
  are migrated to lists.
- **Reservations.** A reservation, kept per main raffle, lets one member
  claim a number of slots before a deadline. Reading the ledger prunes
  entries that have expired or are used up. The "mains left" count is
  the slot count minus the claimed slots minus the live reservations.
- **Mini raffles.** A mod creates a mini raffle from inside a main raffle's
  thread. Its slot price is the pot (tickets × main price) divided over the
  mini slots. Drawing a mini picks a random claimed mini slot and gives its
  first holder a reservation of `tickets` slots on the main raffle.
- **Giveaways.** A mod starts a giveaway with a duration such as `10m`,
  `2h` or `1d`. Members join with a button. When it ends — by the periodic
  sweep, by `/giveaway end`, or again by `/giveaway reroll` — distinct
  winners are sampled without replacement.
- **Levels.** XP carries over into levels, each level costing
  `100 + (level - 1) * 50` XP.

Modules, one file each: `Common` (ids, `Option`/`Result`, dedupe),
`Text` (trimming, case, digit runs), `Durations`, `Levels`, `Raffles`
(the raffle record and its queries), `Slots` (commands on one raffle),
`Ledger` (reservations), `Totals`, `Minis`, `Giveaways`, and `Store`.
`Store` holds the document as a class whose handlers update its maps in
place.

Every handler is written as a pure function from the state before to the
state after, or to the reason nothing changed. The loops of the source are
methods proved equal to those functions. The `Store.Document` methods apply
the functions to the stored maps. Time, random numbers and the outcome of
Discord look-ups are parameters. Privilege is the boolean parameter
`isMod`.

Behaviours kept as the code has them, where a cleaner design would differ:

- An empty price text counts as free.
- Any price text containing "0 coin" counts as free, so "50 coins" is free (`Raffles.CoinsPriceFreeIff`).
- `total` rounds each holder's sum to the nearest coin. It does not round up.
- A reservation caps only its own holder. Nobody else is blocked from claiming while it is live.
- `rest` ignores free mode and reservations.
- Creating a mini raffle reserves nothing on the main raffle. It only reports counts.
- The mini draw names the first holder of the drawn slot, even when the slot is split.
- The draw never skips to another slot. If the drawn slot's first holder is empty, the draw ends with "couldn't pick a winner".
- `/roll` likewise treats a slot whose first holder is the empty id as unclaimed.
- Ending and rerolling both set `ended`, `endedAt` and `lastWinners`.
- In free mode a member with no slot yet may claim several numbers in their first message. The one-slot rule only refuses later messages.
- `free` and `free N` do not reopen a full raffle.
- A mini raffle's price text begins with the ticket count. `total` reads that count as the slot price (`Minis.MiniPriceReadsTickets`), so a mini raffle is never free (`Minis.MiniNeverFree`).
- Configuration values are fixed at their defaults: 6 mini slots and a 10-minute claim window.

## Model

| member | source | states |
|---|---|---|
| Levels.XpToReachClosedForm | index.js:72-74 | the XP needed to reach level `L` from level 1 is `25·(L−1)·(L+2)` |
| Levels.XpToReachGrows | index.js:72-74 | reaching a higher level costs at least as much as finishing every lower one |
| Levels.CarryResultUnique | index.js:197-206 | a total amount of XP has one representation as (level, XP below that level's threshold) |
| Levels.UserRecord.constructor | index.js:76-79 | a new member starts at level 1 with 0 XP |
| Levels.UserRecord.ProcessLevelUps | index.js:197-206 | the carry loop leaves XP below the level's threshold, never lowers the level, keeps the total XP, and changes nothing when XP was already below the threshold |
| Levels.UserRecord.GiveXp | index.js:1204-1231 | an amount of 0 is refused and changes nothing; otherwise XP is clamped at 0 and carried, and the total XP equals the clamped sum |
| Durations.ParseDurationToMs | index.js:219-231 | an accepted duration is a positive whole number of minutes |
| Durations.DurationAccepted | index.js:219-231 | digits, optional spaces and `m`/`h`/`d` in either case, padded by whitespace, parse to the amount times 60 000, 3 600 000 or 86 400 000 ms |
| Durations.DurationRoundTrip | index.js:219-231 | for every `n > 0` and unit, the text `String(n)+unit` parses back to `n` times the unit |
| Durations.ZeroDurationRejected | index.js:219-231 | an amount of zero ("0m", "00 h") is refused whatever follows |
| Durations.MissingUnitRejected | index.js:219-231 | a bare number without a unit is refused |
| Durations.AmountShape | index.js:219-231 | a trimmed text the match accepts is a positive amount of digits, spaces and a unit letter in either case, and denotes the amount times the unit |
| Durations.DurationParsedShape | index.js:219-231 | conversely, every accepted text is whitespace, a positive amount, spaces, a unit letter in either case and whitespace, and parses to the amount times the unit; anything else gives `null` |
| Text.TrimParts | index.js:219-231 | a text is its leading whitespace, its trimmed text and its trailing whitespace, in that order |
| Common.DedupeKeepsOrder | index.js:843 | `[...new Set(nums)]` lists the distinct numbers in the order of their first occurrence |
| Raffles.SecondFieldOfKey | index.js:314-316 | the channel part of a raffle key `guild:channel` is read back by `split(":")[1]` |
| Raffles.CountClaimedSlots | index.js:357-363 | the loop counts exactly the slots with at least one holder |
| Raffles.CountUserClaims | index.js:369-375 | the loop counts exactly the slots whose holders include the member |
| Raffles.ClaimedAtMostMax | index.js:357-363 | in a well-formed raffle the claimed count lies between 0 and `max` |
| Raffles.FullMeansEverySlotTaken | index.js:365-367 | a raffle is full exactly when `max > 0` and every slot `1..max` is claimed |
| Raffles.BlankPriceIsFree | index.js:345-349 | an empty or all-blank price text is free |
| Raffles.CoinsPriceFreeIff | index.js:345-349 | the text "`n` coins" is free exactly when `n` ends in the digit 0 |
| Raffles.CoinPriceRead | index.js:351-355 | the price is the first run of digits, whatever text surrounds it |
| Slots.WriteOpenSlots | index.js:866-875 | the write loop computes the new claims, the numbers written and the numbers found taken, in order |
| Slots.WriteOpenEffect | index.js:866-875 | open requested slots become `[author]`, every other slot is unchanged, and each request is reported once as written or taken |
| Slots.WriteOpenOrder | index.js:866-875 | for distinct numbers, the written numbers are exactly the open ones and the taken numbers exactly the occupied ones, each in request order |
| Slots.WriteOpenKeepsWellFormed | index.js:866-875 | writing in-range open slots keeps each slot at 1–2 distinct holders |
| Slots.StartRaffleEffect | index.js:542-564 | start succeeds exactly for a mod in a raffle thread with 1–500 slots (errors in that order) and gives an open, empty, non-full raffle; with no price text the price is "FREE" and the raffle is free |
| Slots.ClaimTextRoundTrip | index.js:837-838 | numbers typed as `String(n)` make a number claim exactly when there is at least one, and `\d+` reads back those numbers in order |
| Slots.OutOfRangeIn | index.js:843-848 | the rejected numbers are exactly the requested ones outside `1..max` |
| Slots.ClaimOutOfRangeRejected | index.js:843-848 | one out-of-range number rejects the whole claim, listing each offending number once |
| Slots.ClaimFreeLimit | index.js:850-858 | an in-range claim is refused as over the free limit exactly when the raffle is free, the author already holds a slot and has no live reservation |
| Slots.ClaimEffect | index.js:860-901 | a successful claim tries the first `min(remaining, distinct)` distinct numbers in the order given (all of them without a reservation), writes `[author]` into exactly the tried open slots and reports them in order, reports exactly the tried occupied slots as taken, leaves every other slot alone and closes the raffle exactly when it becomes full |
| Slots.ClaimKeepsWellFormed | index.js:837-901 | a claim keeps each slot at 1–2 distinct holders within `1..max` |
| Slots.SplitSucceedsIff | index.js:703-725 | `split` succeeds exactly in paid mode on a singly held slot, for its owner or a mod, with a different friend; it then makes the slot `[owner, friend]` and changes nothing else |
| Slots.ReleaseHolder | index.js:782-788 | the `free` loop equals removing the author from every slot and dropping slots left empty |
| Slots.FreeMineEffect | index.js:771-790 | after `free` the author holds nothing, slots without the author are unchanged, sole-held slots are gone and split slots keep the other holder |
| Slots.FreeSlotEffect | index.js:792-801 | `free N` succeeds exactly for a mod on a claimed slot of a started raffle, and removes only slot N |
| Slots.RestFillsEverySlot | index.js:808-834 | `rest` gives every open slot to the author, keeps occupied slots, reports how many it filled, and leaves the raffle full and closed |
| Slots.RestIgnoresFreeMode | index.js:808-834 | in a free raffle where the author already holds a slot, `rest` still succeeds while a number claim is refused |
| Slots.FullRaffleRollHasWinner | index.js:1129-1153 | on a full raffle a roll equal in size to the raffle always lands on a claimed slot and names its first holder, except that an empty first holder id reads as unclaimed |
| Slots.Migrate | index.js:335-341 | a legacy single id becomes a one-holder list and lists are kept, with the same slot numbers |
| Slots.MigrateRoundTrip | index.js:335-341 | claims already in list form migrate to themselves |
| Slots.MigrateIdempotent | index.js:335-341 | reading any stored raffle twice migrates it as reading it once does, and a legacy id becomes a well-formed single-holder list |
| Ledger.SumOfLive | index.js:444-461 | the live reservations of a raffle total at least one slot each, and total 0 only when there are none |
| Ledger.PruneAndSum | index.js:444-461 | the pruning loop keeps exactly the live reservations and sums their `remaining` |
| Ledger.MainsLeft | index.js:463-467 | mains left is never negative, and is either 0 or `max − claimed − reserved` |
| Ledger.GetReservationPrunes | index.js:411-423 | a lookup returns the reservation exactly when it is live and then leaves the ledger as it was; a dead entry is deleted; no other entry changes |
| Ledger.SetThenGet | index.js:425-433 | a reservation just set is read back with its `remaining` and a deadline `minutes` later |
| Ledger.UseReservationEffect | index.js:435-442 | using a reservation lowers `remaining` by the amount used, deletes the entry when nothing remains, and leaves other members' entries alone |
| Ledger.UseLowersReservedTotal | index.js:435-461 | using part of a live reservation lowers the reserved total by exactly the amount used |
| Ledger.ReservedTotalEffect | index.js:444-461 | after the total is computed the raffle's bucket holds only live entries; the total is 0 exactly when the bucket is empty, and other raffles' buckets are untouched |
| Ledger.ReservedTotalIdempotent | index.js:444-461 | computing the reserved total again changes nothing and gives the same total |
| Totals.TallyClaims | index.js:733-756 | the slot loop counts the claimed slots, collects the holders and credits each holder `price/holders` per slot (in half coins) |
| Totals.SumRounded | index.js:757-763 | the rounding loop lists every holder in first-credit order with their amount rounded half up, and the grand total is the sum of the rounded amounts |
| Totals.Total | index.js:728-766 | `total` is refused for non-mods and unstarted raffles; otherwise it reports the claimed slots, `max` and the number of holders, and when a price can be read, each holder's rounded amount in first-credit order and the grand total (neither without a price) |
| Totals.TallyMembers | index.js:737-752 | the members credited by the slot loop are exactly the holders of the visited slots |
| Totals.LinesMatchParticipants | index.js:737-763 | `total` prints one amount line per participant it counts |
| Totals.ClaimedAmongAll | index.js:733-756 | the slots counted by `total` are exactly the claimed slots |
| Totals.TallyConserves | index.js:744-752 | before rounding the amounts owed sum to `price` times the number of claimed slots |
| Totals.GrandTotalBounds | index.js:744-763 | the rounded grand total lies between `price × claimed` and that plus half a coin per holder |
| Totals.SoloGrandTotal | index.js:744-763 | with only single-holder slots the grand total is exactly `claimed × price` |
| Minis.MiniSlotPriceRounds | index.js:593-595 | the per-slot price is `pot/slots` rounded to the nearest coin |
| Minis.CreateMiniEffect | index.js:578-654 | creation succeeds exactly for a mod in the main thread with 1–50 tickets, 2–100 slots (6 by default), a price up to 1 000 000 and a mini thread; it registers the main key and tickets and opens an empty mini raffle |
| Minis.MiniNeverFree | index.js:627 | the mini raffle's price text never counts as free |
| Minis.MiniPriceReadsTickets | index.js:627 | `parseCoinPrice` reads the mini raffle's price text as the ticket count |
| Minis.ClaimedInOrder | index.js:663 | the draw pool holds exactly the claimed slots among the keys visited |
| Minis.DrawPoolIsClaimedSlots | index.js:663 | the draw pool lists every claimed mini slot once, in ascending order |
| Minis.MiniDrawWinner | index.js:658-698 | a draw succeeds exactly for a mod in a registered mini with claims, a non-empty first holder and a found main thread; the winner is the first holder of a claimed slot and wins `tickets` (1 if unset) |
| Minis.DrawWinnerHoldsReservation | index.js:684 | after the draw the winner holds a live reservation of `tickets` slots for the claim window |
| Giveaways.PickWinnersFrom | index.js:233-241 | the splice loop draws `min(count, distinct entrants)` winners, all distinct, all entrants, following the random indices |
| Giveaways.Draw | index.js:236-239 | the splice loop equals sampling without replacement with the given indices |
| Giveaways.SampleFacts | index.js:233-241 | a draw without replacement from distinct entrants has `min(count, pool)` distinct winners from the pool |
| Giveaways.EveryoneWinsWhenFew | index.js:233-241 | asking for at least as many winners as distinct entrants makes every entrant a winner |
| Giveaways.StartedGiveawayRuns | index.js:1051-1107 | start succeeds exactly for a mod with a valid duration, 1–50 winners and a posted message; the new giveaway is open, has no entrants, and becomes due exactly when the duration has passed |
| Giveaways.JoinEffect | index.js:971-988 | a join is refused when the giveaway is missing, ended or already entered; otherwise it appends the member and changes nothing else |
| Giveaways.JoinKeepsEntrantsDistinct | index.js:976-985 | joining keeps the entrants duplicate-free |
| Giveaways.EndGiveaway | index.js:243-262 | the end handler, running the splice loop, yields exactly the outcome `EndOutcome` specifies: the checks in source order, then the giveaway marked ended with the drawn winners |
| Giveaways.EndEffect | index.js:243-262 | ending fails for a missing giveaway, and for an ended one unless rerolling; a success sets `ended`, `endedAt` and `lastWinners` to distinct entrants, `min(count, distinct entrants)` of them, and changes no other field |
| Giveaways.EndedStaysEnded | index.js:246-247 | once ended, a plain end is refused and joins are refused |
| Giveaways.Sweep | index.js:296-305 | the sweep keeps every giveaway id and replaces each giveaway by its swept form |
| Giveaways.SweepOnlyEndsDue | index.js:296-305 | the sweep changes only giveaways that are due (not ended, `endsAt` set and reached) and reachable, and ends exactly those |
| Store.ClaimStepKeepsValid | index.js:837-901 | a number claim keeps every stored raffle well formed and changes no other raffle |
| Store.ClaimSpendsReservation | index.js:850-883 | a claim by a reservation holder claims at most `remaining` slots and lowers the reserved total by exactly the number claimed |
| Store.ClaimIgnoresOthersReservations | index.js:850-861 | the claim's outcome depends only on the author's own reservation |
| Store.MiniGrantAddsOnlyWinner | index.js:684 | granting the draw's reservation changes only the winner's entry in the main raffle's bucket |
| Store.Document.constructor | index.js:45-59 | the document starts with no raffles, reservations, mini raffles or giveaways |
| Store.Document.GetRaffle | index.js:319-343 | a missing raffle is created unstarted and stored |
| Store.Document.StartRaffle | index.js:542-564 | the stored raffle is replaced by the started one, or nothing changes on error |
| Store.Document.Message | index.js:837-840 | a message is a number claim exactly when it has digits and only digits, commas and whitespace; then its digit runs are claimed, and any other message changes nothing |
| Store.Document.Claim | index.js:837-906 | raffles and ledger become those of the claim step, and every raffle stays well formed |
| Store.Document.Split | index.js:703-725 | the stored raffle becomes the split one, or is only fetched on error |
| Store.Document.FreeMine | index.js:771-790 | the stored raffle becomes the released one, or is only fetched on error |
| Store.Document.FreeSlot | index.js:792-801 | the stored raffle loses slot N, or is only fetched on error |
| Store.Document.Rest | index.js:808-834 | the stored raffle becomes the filled one and the count filled is returned |
| Store.Document.Total | index.js:728-766 | a non-mod is refused with nothing changed; for a mod the stored raffle is fetched, not changed; the report gives its claimed slots, `max`, holder count, and with a price the rounded amounts in order and the grand total |
| Store.Document.Roll | index.js:1129-1153 | the stored raffle is fetched, not changed, and the roll outcome is that of the fetched raffle: a draw for a die of its size, won by the rolled slot's first non-empty holder or unclaimed |
| Store.Document.ReservedTotal | index.js:444-461 | the ledger is pruned to live entries and their total returned |
| Store.Document.MainsLeft | index.js:463-467 | mains left for the stored raffle after pruning the ledger, never negative |
| Store.Document.CreateMini | index.js:578-654 | on success the mini thread is registered, its raffle stored, the main raffle fetched, the main raffle's ledger pruned, and the mains left returned; on error nothing changes |
| Store.Document.MiniDraw | index.js:658-698 | the mini raffle is fetched once the mod and registry checks pass; on success the winner's reservation is set, the main raffle (named by the key's second field) fetched, its ledger pruned and its mains left returned; on error the ledger is unchanged |
| Store.Document.StartGiveaway | index.js:1051-1107 | the new giveaway is stored under its message id, or nothing changes on error |
| Store.Document.Join | index.js:971-988 | the joined giveaway is stored and the entry count returned, or nothing changes |
| Store.Document.End | index.js:1112-1126 | the ended or rerolled giveaway is stored and its winners returned, or nothing changes |
| Store.Document.Sweep | index.js:296-305 | every stored giveaway is replaced by its swept form |

## Left out

- Discord I/O is not modelled: replies, embeds, buttons, board posts, thread creation, channel and member fetches, and the mains-left announcement. Where a fetch decides the outcome, its result is a parameter (`inThread`, `mainThreadFound`, `guildOk`, `channelOk`, `reachable`, `miniThread`, `messageId`).
- `loadData` and `saveData` are file I/O. Every change is taken as committed at once.
- `Date.now()` and `Math.random()` are parameters: `now`, and the random indices `picks`, `pick` and `result`. One `now` stands for the several clock reads of one handler.
- The `setInterval` timing of the giveaway sweep is not modelled; one sweep at a given `now` is.
- XP for chat messages is not modelled (the cooldown, the random gain, shouldAwardXp), nor are level-up announcements, level roles, `/xpreset`, `/stats`, `/level`, `/leaderboard`, `/rolemenu`, self-role buttons, `!code` and `makeToyCode`. These are cosmetic, random or role-API calls.
- `formatBoardText` and `postOrUpdateBoard` only render text.
- deploy-commands.js is not part of this model. It only registers slash-command schemas.
- The raffle fields `lastBoardMessageId`, `lastMainsLeftAnnounced` and `createdAt`, the giveaway's `createdAt` in the mini registry, and the message texts are not modelled. Nothing in the rules reads them.
- Store.Document.Claim: the second reservation lookup after a claim only feeds the reply text. It would prune the author's entry once more, and the model does not perform it.
- Claims keys are integers. The source keys `String(n)` cover only canonical numerals, and JavaScript lists integer keys in ascending order, which the mini draw relies on.
- Numbers are unbounded. A digit run long enough to become `Infinity` or lose precision in `Number(...)` is not modelled.
- Privilege is the boolean `isMod`. The interaction handler reads an undeclared `isMod` (index.js:1045), and `isThreadInRaffleCreate` is declared twice (index.js:491, 533). Neither defect is replicated.
- Each handler is one atomic step in the model. In the source an `await` can separate a check from the write it guards. `endGiveawayByMessageId` tests `ended` (index.js:247) before awaiting the channel fetch (index.js:252) and writes afterwards (index.js:258-260), so a `/giveaway end` overlapping the sweep can draw winners twice; `Giveaways.EndedStaysEnded` holds for calls that do not overlap. The number claim and `rest` likewise re-test fullness after awaits (index.js:885-898, 825-828). These interleavings are not modelled.
- Levels.UserRecord.GiveXp: the mods-only check of `/givexp` is not modelled, since it reads the undeclared `isMod`.
