# Wackamole: a verified model

Wackamole keeps a set of virtual IP addresses up on a cluster. Its daemons agree, over
Spread's totally ordered messages, on who owns which address; each daemon brings its own
addresses up and takes the others down. This project models that protocol and the
algorithms around it in Dafny, and proves what they are for.

## The protocol (`wackamole.c`)

Every daemon runs the same automaton (BOOT, GATHER, RUN, BALANCE) over an agreed sequence of
membership notices, STATE messages, maturity notices and BALANCE messages.

- `Process.Node` is one daemon: the C file's global variables as fields, its tables as arrays,
  its handlers as methods with the same loops. A ghost set `held` records the entries that are
  up on the machine; only `BringUp` (Acquire) and `TakeDown` (Release) change it, apart from
  the reconnect, which takes everything down. Every handler is proved to compute the function
  of the same name in `Protocol`, which splits a daemon's state into what all members compute alike
  (`Shared`: owners, priorities, counts) and what it alone knows (`Local`: old table, `held`,
  its own count).
- `Gather` to `Regimes` follow one table entry through a gather, whatever is claimed and in
  whatever order; count the entries of a member; and settle who counts right afterwards.
- `View` sets up one board per view, and shows that every member's state follows the board.
- `World`, `Runs`, `Safety` and `Progress` are about whole runs: views open, nodes enter them
  and leave them in the middle of a gather, handle events at their own pace, plan and replay
  balancing, lose their connection and come back, in any interleaving. The main results are
  `Safety.ExactCover`, `Safety.Agreement`, `Safety.SendStateAssertion`,
  `Progress.ContestInRun` and `Progress.CompleteGatherCovers`.
- `History` shows that the runs of a single component need no hypothesis on gathers;
  `Agreeing` says when two members end a gather alike in general; `Wishes` says whose
  preference is granted, from what the members are configured to prefer and what they held.
- `Moves`, `Balancing`, `Picking`, `Leveling` and `Fair` are about the two greedy algorithms:
  the replayed rebalancing plan and the handing out of unclaimed entries.
- `Limits` follows freshly started daemons into situations in which the hypotheses below
  fail, and the guarantees with them.

Assumptions, all stated in `World`: real addresses are distinct and not 0, so are virtual
ones; all members list the same virtual interfaces in the same order; Spread delivers each
view's events to its members in one order and a member's own messages to itself. The
hypotheses on runs are these:

- A gather that completes among mature members either installs no new preference (regime A),
  or all members that were in service before bring equal owners in their old tables, which
  name no newcomer (regime B). Each regime is enough for agreement and for exact cover, and
  neither is necessary. Two members end a gather with the same owners, priorities and counts if and only if they
  blame every member for as many preferred entries (`Agreeing.AgreeIff`). Agreement is not
  yet cover: a member whose claim on an entry comes after the preference, and after two other
  claims, goes on holding it without owning it. All members end with one table, each with
  exactly its own entries up and counted, if and only if they blame alike and none came to
  harm in that way (`Agreeing.AllEndWellIff`; entry by entry `Agreeing.CoveredIff`).
  `Limits.TwoHolders` is a merge in which the members do not blame alike, and two of them
  bring up the same entry; in `Limits.HeldTwice` they all agree, and two of them hold it. The
  condition on newcomers is there because a member that loses its connection and returns
  before the others have finished a gather is still named by their old tables:
  `Limits.RejoinBreaksCounts`.
- A node that leaves a gather before it is complete has come to no harm: for each entry it
  held when it entered, its own claim took effect or at most one other did. This is exactly
  what the assertion in `Send_state_message` needs (`Safety.EarlyAssertionIff`). Given the
  first hypothesis, it holds at every step if no node ever leaves a gather in which more than
  two members claim an entry it held (`Safety.TwoClaimantsSuffice`); three can do harm:
  `Limits.ThreeClaimants`.
- At most one BALANCE message is in flight (`Balancing.TwiceIsTooMuch` shows two), and its
  header counts its moves. `Balancing.HeaderIff` says when a header does, from the counts and
  priorities the message was planned on: levelling the counts must leave every member with at
  least its PREFER_CLAIMED entries. Otherwise the richest member has nothing to give, the
  branch that should notice it (`wackamole.c:1034`) sits inside `for (j < Num_pseudo)` and is
  never taken, and the message announces moves that it does not carry:
  `Balancing.HeaderWithoutMoves`.

The first two hypotheses hold by themselves as long as the members form one component: those
of the next view come straight from service on one table, or out of an interrupted gather of
a view that had the same table behind it, or are newcomers that it does not name. However
often the view changes before a gather is complete, such a run satisfies both hypotheses at
every step: `History.HistoryLasts`.

The README of the program says that it "has the ability to balance all the IP addresses at
once"; the code allows half as many moves as there are addresses. That is enough for two
members (`Leveling.TwoMembersOneRound`) but not for three (`Leveling.ThreeMembersOneRound`);
how many rounds are enough is `Leveling.LeveledIff`.

## Around the protocol

- `Bytes`, `Messages`, `Sending`: the layout of STATE and BALANCE messages, written and read.
- `Rotation`, `Getopt`, `CommandLines` (`getopt_long.c`): the block exchange by gcd-many
  cycles, the scanner that moves options to the front of the argument vector, and a round trip:
  a command line written from a list of items is scanned as those items.
- `Spoof` (`spoofmanager.c`): intersections of address blocks and the throttled, resumable
  notification sweeps.
- `Checksum` (`ife-icmp-support.c`): the Internet checksum of RFC 1071 and the ping packet
  that carries it twice.
- `ArpTable` (`abt.c`): the sorted array searched by bisection. `add_abt` reads the element
  before the array when a key is below the least key stored; `ArpTable.Abt.Locate` says that
  this is the only way to get there, and `ArpTable.SafeRunIff` which runs of insertions avoid it.
- `Control`, `Dialog` (`control.c`, `wackatrl.c`): serializer, partial writer and reader, and
  whole conversations of commands and replies over one connection.

`Tables` and `Arithmetic` hold what the others share.

## Model

| member | source | states |
|---|---|---|
| `Process.Node.constructor` | wackamole.c:74-98 | a daemon starts in BOOT, immature, with empty tables over the configured addresses |
| `Process.Node.BringUp` | wackamole.c:904-926 | Acquire adds the entry to what is held and one to the count, and changes nothing else |
| `Process.Node.TakeDown` | wackamole.c:944-968 | Release removes the entry, takes one off the count, and is counted as one taking down |
| `Process.Node.FindEntry` | wackamole.c:854-861 | the result is the first entry with the address, or the length of the table |
| `Process.Node.ResolveClaim` | wackamole.c:580-617 | a claim on an entry is granted, refused, wins over a plain claim, or is ignored; tables, counts and held entries change as the protocol functions say |
| `Process.Node.ResolveClaims` | wackamole.c:565-621 | the claim loop over a whole STATE message |
| `Process.Node.InstallPreferences` | wackamole.c:630-646 | the sender takes each preferred entry whose priority is below PREFER |
| `Process.Node.GrantPreference` | wackamole.c:785-811 | one preferred entry: held entries, the counts of old and new owner, and the priority |
| `Process.Node.RecountAll` | wackamole.c:817-828 | every count becomes the number of entries the member owns |
| `Process.Node.PriorityClaims` | wackamole.c:774-829 | Priority_claim computes its protocol function |
| `Process.Node.FindPoorest` | wackamole.c:841-844 | the first member with the smallest count |
| `Process.Node.ClaimUnclaimedEntries` | wackamole.c:833-851 | Claim_unclaimed computes its protocol function |
| `Process.Node.HandleMaturing` | wackamole.c:354-371 | a maturity notice, in and out of a gather |
| `Process.Node.HandleStateMessage` | wackamole.c:510-675 | a STATE message from its group id check to the end of the gather |
| `Process.Node.SendState` | wackamole.c:700-732 | the message lists the own old-table entries; its requirement is the assertion at line 724 |
| `Process.Node.HandleMembershipNotice` | wackamole.c:464-506 | a membership notice: the table that was in service is kept, the new one cleared, the STATE message sent |
| `Process.Node.ReplayMove` | wackamole.c:430-448 | one move of a BALANCE message |
| `Process.Node.HandleBalanceMessage` | wackamole.c:394-460 | a whole BALANCE message, ignored outside RUN |
| `Process.Node.TakeFromRichest` | wackamole.c:1020-1045 | the first movable entry of the richest member goes to the poorest; nothing changes if there is none |
| `Process.Node.DrawPlan` | wackamole.c:1009-1059 | the planning loop, with its two indices that persist from round to round |
| `Process.Node.Balance` | wackamole.c:979-1071 | only the first member in RUN plans, on copies; the daemon's own state is as before |
| `Process.Node.CleanUp` | wackamole.c:1241-1252 | everything is taken down and no entry has an owner in either table |
| `Process.Node.SpreadReconnect` | wackamole.c:1262-1309 | after a successful reconnect the daemon is in BOOT and immature, holds nothing, counts nothing, and names no owner in either table |
| `Gather.ClaimsPerEntry` | wackamole.c:565-621 | the loops over messages, claims and table act on each entry alone, as if its claims were the only ones |
| `Gather.ClaimsPerCell` | wackamole.c:586-617 | the same for the old table, the held entries and the takings down of one node |
| `Gather.PrefsPerEntry` | wackamole.c:630-646 | the same for preferences |
| `Gather.MsgPerEntry` | wackamole.c:510-646 | the same for a whole STATE message |
| `Contest.SpeaksOnce` | wackamole.c:653-654 | the sender of the latest STATE message was not heard before, and those heard are the senders |
| `Contest.EntryFacts` | wackamole.c:576-646 | an entry without an owner has had no claimant; one with an owner belongs to a member that was heard and, unless it is only preferred, claimed it |
| `Contest.ContestGoesTo` | wackamole.c:587-617 | without a preference, the entry goes to the first PREFER_CLAIMED claimant in delivery order, else to the first claimant |
| `Wishes.RowIs` | wackamole.c:574-646 | every row after any STATE messages: the first member to prefer the entry has it, if no PREFER_CLAIMED claim was heard before or with the wish; otherwise the contest decides |
| `Wishes.WishLaw` | wackamole.c:630-646 | an entry ends with a preference exactly if some speaker is configured to prefer it, is the first such, and neither it nor a speaker before it held the entry by preference; then the entry is that member's |
| `Wishes.ContestLaw` | wackamole.c:574-621 | where no wish is granted the entry goes to the first speaker whose old table gives it to itself as PREFER_CLAIMED, else to the first whose old table gives it to itself, else it stays vacant |
| `Wishes.WishInRun` | wackamole.c:630-664 | in every run, when a gather is complete for a node, an entry whose wish is granted belongs to the member with the wish as PREFER_CLAIMED, and the node has it up exactly if it is that member |
| `Contest.CellFacts` | wackamole.c:585-617 | until a node hears itself it keeps what it held; afterwards it holds an entry without preference exactly if it won it, and took each lost one down exactly once |
| `Contest.PriorFacts` | wackamole.c:574-646 | with or without preferences: whether a node holds an entry and what its old table says of it, from whether its own claim took effect and how many did; claims on a preferred entry are ignored |
| `Contest.OverwrittenIff` | wackamole.c:596-597 | a node that held an entry when the view began has it up, while its old table names another owner, exactly when its own claim has not taken effect and at least two others have |
| `Tally.CountedForOwner` | wackamole.c:556-617 | an entry without preference is counted for its owner and for nobody else |
| `Tally.CountedForClaimant` | wackamole.c:588-590 | an entry that at most one member claims is counted for exactly that member, whatever preferences are installed |
| `Tally.TallyStep` | wackamole.c:588-611 | resolving one claim keeps every member's count equal to the number of entries counted for it |
| `Roster.GatheredFacts` | wackamole.c:556-621 | after any STATE messages, table and counts are what they say entry by entry and member by member |
| `Roster.OwnClaimsPrio` | wackamole.c:713-723 | the claims of a STATE message are the sender's own old-table entries with their priorities |
| `Roster.OwnClaimsInOrder` | wackamole.c:713-723 | they are listed in table order |
| `Roster.SendsWellFormed` | wackamole.c:700-732 | a node that enters a view sends a proper STATE message, and as many claims as it counts |
| `Roster.LocalFacts` | wackamole.c:586-617 | during a gather a node's count is the number of entries it holds, and its old table keeps its shape |
| `Settle.PriorityShared` | wackamole.c:783-813 | the preference loop promotes every preferred entry and moves one unit per entry between counts |
| `Settle.CorrectionIsExactIff` | wackamole.c:797-810 | the incremental correction of a count is right exactly if the old table blames the member for as many preferred entries as were counted for it |
| `Settle.PriorityAgreesIff` | wackamole.c:774-829 | Priority_claim gives a node the common table and the right counts if and only if it recounts or its incremental counts are right |
| `Settle.CorrectionError` | wackamole.c:797-810 | the incremental correction of a count is off by the preferred entries counted for the member less those its old table blames it for |
| `Agreeing.SameAfterPriorityIff` | wackamole.c:774-829 | after Priority_claim two members have the same table and counts if and only if they blame each member for as many preferred entries |
| `Agreeing.SameEndSameStart` | wackamole.c:833-851 | members that end Claim_unclaimed with the same table and counts, from the same table, began it with the same counts |
| `Agreeing.HandedOutInTurn` | wackamole.c:833-851 | each vacant entry, in table order, goes as CLAIMED to the first member with the least load, where loads are the counts at the start and what was handed out before |
| `Agreeing.AgreeIff` | wackamole.c:774-851 | two members of a complete gather end with the same owners, priorities and counts if and only if they blame every member for as many preferred entries, whatever their old tables and whether either counts anew |
| `Agreeing.OutcomeHolds` | wackamole.c:774-851 | at the end of a gather a member has up what its own table gives it, and besides that exactly the preferred entries on which it came to harm; it counts them all |
| `Agreeing.OutcomeHoldsIff` | wackamole.c:774-851 | so it holds exactly its own if and only if, for each preferred entry it held on entering, its own claim took effect or at most one other did |
| `Agreeing.AllEndWellIff` | README:43-48 | all members end with one table, each with exactly its own entries up and counted, if and only if they blame alike and none came to harm, in or out of the regimes |
| `Agreeing.CoveredIff` | README:43-48 | an entry that was claimed or preferred is up at exactly one member if and only if none came to harm on it; where the members blame alike, so is every entry |
| `Handout.HandoutFacts` | wackamole.c:833-851 | Claim_unclaimed places every vacant entry and keeps every count equal to the entries owned |
| `Handout.HandoutLocal` | wackamole.c:845-846 | and whatever the counts are, a node that held its own entries and some others goes on holding exactly its own and those, taking none down |
| `Handout.SettledServes` | wackamole.c:660-663 | after a complete gather the common table is in service: every entry managed by a member, every count right |
| `Handout.HoldsWhatItWon` | wackamole.c:585-617 | once it was heard, a node holds an entry without preference exactly if it owns it, and one with a preference exactly if its old table says so, unless it came to harm on it: then it holds the entry, and neither table names it; what it lost it took down once |
| `Handout.HoldsAfterPriority` | wackamole.c:787-796 | after the preference loop a node holds what the table gives it, and besides that exactly the preferred entries on which it came to harm |
| `Regimes.QuietCountsRight` | wackamole.c:797-810 | in regime A the incremental counts are right |
| `Regimes.HistoryCountsRight` | wackamole.c:797-828 | in regime B they are right for every member that does not recount |
| `Regimes.RegimesSettle` | wackamole.c:774-829 | in either regime every member settles on the common table and counts |
| `View.EveryoneSpoke` | wackamole.c:477-479 | as many STATE messages as members means that everyone was heard |
| `View.PlayHeeds` | wackamole.c:354-675 | proper events keep a view in order, and a completed gather serves every entry |
| `View.SettlesInService` | wackamole.c:657-664 | Priority_claim and then Claim_unclaimed put a member in service on the common table, holding exactly its own |
| `View.FollowsEvent` | wackamole.c:354-675 | every event takes every member from the view's old common state to its new one |
| `Runs.LeavesRested` | wackamole.c:492-500 | whenever a node leaves a view, its old table owns exactly what the node holds |
| `Runs.EnterKeeps` | wackamole.c:464-506 | entering a view keeps the invariant of runs |
| `Runs.OrderKeeps` | wackamole.c:327-336 | so does giving an event its place |
| `Runs.DeliverKeeps` | wackamole.c:354-675 | so does handling an event |
| `Runs.PlanKeeps` | wackamole.c:979-1071 | so does planning a BALANCE message |
| `Runs.DropKeeps` | wackamole.c:1262-1309 | so does losing the connection and coming back |
| `Runs.NextKeeps` | wackamole.c:296-336 | every step of a run keeps the invariant |
| `Runs.RunKeeps` | wackamole.c:296-336 | every world of every run satisfies it |
| `Safety.Agreement` | README:43-48 | in every run, members of a view that handled the same events have identical owners, priorities and counts, and are in the same state of the automaton |
| `Safety.ExactCover` | README:43-48 | in every run, when all members of a view are in RUN after the same events, each holds exactly the entries that are its own, every entry is held by exactly one, and each count is the number held |
| `Safety.CountsWhatItHolds` | wackamole.c:925-967 | in every world of every run a node counts exactly what it holds |
| `Safety.SendStateAssertion` | wackamole.c:711-724 | in every run, whenever a STATE message is sent, the old-table entries owned are as many as counted, and are the entries held |
| `Safety.ContestSettled` | wackamole.c:574-621 | when a gather without preferences is complete, each claimed entry belongs to the winner, who holds it, and each loser took it down exactly once |
| `Safety.EarlyAssertionIff` | wackamole.c:596-724 | for a node that leaves a gather early, preferences or not, the next assertion holds if and only if, for each entry it held on entering, its own claim took effect or at most one other did |
| `Safety.TwoDoNoHarm` | wackamole.c:596-724 | where at most two members claim each entry it held, it does |
| `Safety.TwoClaimantsSuffice` | wackamole.c:711-724 | any steps in which no node leaves an unfinished gather with more than two claimants of an entry it held, and complete gathers are in one of the regimes, are a run; the assertion holds each time a STATE message is sent |
| `History.HeirUnharmed` | wackamole.c:585-617 | among members with one history an interrupted gather harms nobody and leaves the owners in every old table as they were |
| `History.ArrivesAsHeir` | wackamole.c:464-506 | whoever comes from service on that table, out of an interrupted gather of a view with the same history, or as a newcomer it does not name, enters the next view with that history |
| `History.HistoryCompletes` | wackamole.c:657-664 | a gather that completes among such members does so in regime B |
| `History.HistoryLasts` | wackamole.c:338-675 | any sequence of steps in which each view is entered only in these three ways is a run: both hypotheses on gathers hold at every step, through any number of interrupted gathers |
| `Progress.GatherEnds` | wackamole.c:653-673 | a member that has seen every STATE message of its view and a sign of maturity is in RUN |
| `Progress.CompleteGatherCovers` | README:43-48 | and when all members have, every entry is held by exactly one of them |
| `Progress.ContestInRun` | wackamole.c:574-621 | in every run, when a gather without preferences is complete for a node, each claimed entry belongs to the first PREFER_CLAIMED claimant, else the first claimant; the node holds it exactly if that is itself, and took it down exactly once if it held it and lost |
| `Progress.SomeRun` | wackamole.c:338-675 | there is a run, under all hypotheses, that puts a view in service |
| `Limits.GoesOn` | wackamole.c:338-675 | the members of a first view, freshly started, go on to the next one with the table their view settled on, holding their own entries in it |
| `Limits.TwoHolders` | wackamole.c:797-846 | two components of freshly started daemons meet, correct their counts from different old tables, and two members bring up the same entry |
| `Limits.RejoinBreaksCounts` | wackamole.c:799-808 | a member that was in service, lost its connection and came back while the other's gather was interrupted, and the one that stayed, leave Priority_claim with different counts |
| `Limits.ThreeClaimants` | wackamole.c:596-724 | three members that each served alone claim the same entry, the gather is interrupted, and the assertion at line 724 fails at the third |
| `Limits.HeldTwice` | wackamole.c:585-646 | three members that served alone claim an entry and a fourth prefers it before the last claim: all four agree on owners, priorities and counts, and two of them have the entry up |
| `Moves.MoveServes` | wackamole.c:430-448 | a good move keeps the table in service, counts included; its entry goes to the target with the priority it has, and no other entry changes |
| `Moves.MoveKeepsHoldsIff` | wackamole.c:432-439 | replaying a move keeps held entries equal to owned ones unless it moves an entry to the owner it has |
| `Moves.MovesKeepHolds` | wackamole.c:413-451 | a whole replay keeps them equal, even if an entry moves twice |
| `Balancing.CanMoveIff` | wackamole.c:1020-1024 | the richest member has an entry to give exactly if it counts more than the preferred ones it owns |
| `Balancing.HeaderIff` | wackamole.c:1018-1059 | the header counts the moves if and only if levelling the counts, as if every entry could be moved, leaves each member with at least its PREFER_CLAIMED entries |
| `Balancing.HeaderWithoutMoves` | wackamole.c:1034-1043 | a table in service with only preferred entries to move: the message announces a move and carries none |
| `Balancing.ReplayIsPlan` | wackamole.c:413-451 | replaying the message on the table it was planned for gives the planner's final copies of owners and counts |
| `Balancing.RichCanMove` | wackamole.c:1020-1024 | with every entry movable the richest member has one to give |
| `Balancing.MessageIsGood` | wackamole.c:1001-1059 | every move names a known entry and a member that does not own it; with every entry movable the header is the number of moves |
| `Balancing.TwiceIsTooMuch` | wackamole.c:432-439 | replaying a move onto the present owner takes the entry down |
| `Picking.ScanFindsFirst` | wackamole.c:1010-1016 | the poorest member is the one picked in the round before unless someone has less, and then the first of those with the least; the richest in the same way |
| `Picking.MessageTargets` | wackamole.c:1009-1059 | every BALANCE message move by move: the first entry of the richest member that may be moved goes to the poorest, on the table and counts that the moves before leave, with ties broken as above; it ends at the rate, when the counts are level, or when the richest has nothing to give |
| `Picking.NoMessageIff` | wackamole.c:1046-1056 | no message is sent exactly if there was a round to make and no two counts differ by more than one |
| `Leveling.GreedyMove` | wackamole.c:1018-1030 | a move from a fullest to an emptiest member that differ by more than one lowers the unevenness by exactly one |
| `Leveling.NoMoveDoesBetter` | wackamole.c:1018-1030 | no move of one entry lowers it by more |
| `Leveling.PathsAreLong` | wackamole.c:1009-1056 | whatever moves are made, it takes at least as many as the unevenness that disappears |
| `Leveling.LevelIff` | README:50-55 | nothing is uneven exactly when no two loads differ by more than one |
| `Leveling.LoopLevels` | wackamole.c:1009-1056 | the planning loop makes the smaller of the rate and the unevenness many moves, each worth one |
| `Leveling.RoundsLevel` | wackamole.c:1009-1059 | after n rounds the unevenness has gone down by n times the rate, or is gone |
| `Leveling.LeveledIff` | README:50-55 | rounds at a rate end with loads that differ by at most one if and only if they allow as many moves as the loads were uneven |
| `Leveling.FewestMoves` | wackamole.c:1009-1056 | no sequence of moves levels the loads with fewer |
| `Leveling.EveryEntryIsALoad` | wackamole.c:820-828 | the counts of a table in service add up to the number of entries |
| `Leveling.TwoMembersOneRound` | wackamole.c:1104-1108 | with two members one round at half the number of entries is enough |
| `Leveling.ThreeMembersOneRound` | wackamole.c:1104-1108 | with three it need not be: over any six addresses, all of them owned by the member that was there first, the loads still differ by more than one after the round |
| `Fair.ClaimingIsFair` | wackamole.c:833-851 | exactly the unclaimed entries change owner, and whoever gains one ends within one of the least loaded member |
| `Fair.ClaimingIsBest` | wackamole.c:841-848 | no assignment of the same entries gives a smaller largest load |
| `Bytes.GetPut` | wackamole.c:700-709 | a word read back from memory is the word stored, in either byte order |
| `Bytes.BytesOfWord` | wackamole.c:700-709 | which byte of a word is the most significant, in each order |
| `Bytes.WordsOfLayout` | wackamole.c:527-543 | words laid out in a buffer are read back in place |
| `Messages.ComposeState` | wackamole.c:700-732 | the buffer holds the layout of the STATE message, within MAX_MESS_LEN |
| `Messages.FetchState` | wackamole.c:527-640 | the fields are read from where they lie, and nothing beyond the message |
| `Messages.StateLayout` | wackamole.c:682-732 | where each field of a STATE message lies, word by word |
| `Messages.ReadsAny` | wackamole.c:527-640 | what is read out of any buffer that is long enough, with negative numbers of claims or preferences taken as none |
| `Messages.BalanceLayout` | wackamole.c:996-1059 | where the header, the targets and the entries of a BALANCE message lie |
| `Messages.ReadsAnyMoves` | wackamole.c:408-420 | what is read out of any buffer that is long enough, a negative header taken as none |
| `Messages.StateRoundTrip` | wackamole.c:527-732 | the receiver gets back group id, address, index, maturity, claims and preferences |
| `Messages.StateRoundTripIff` | wackamole.c:708-724 | it gets message and count back exactly if the asserted equality holds |
| `Messages.BalanceRoundTripIff` | wackamole.c:408-420 | the moves are read back exactly if the header is their number |
| `Messages.BalanceWellFormed` | wackamole.c:1001-1059 | with every entry below PREFER the message has 4 + 8 bytes per move and is read back as planned |
| `Sending.RunsRoundTrip` | wackamole.c:679-741 | in every run the bytes of every STATE message sent, with the sender's own count in them, are read back as the message the protocol model delivers |
| `Sending.WishesStay` | wackamole.c:725-730 | in every run a daemon's preferences are those it was started with |
| `Sending.WhatIsRead` | wackamole.c:679-741 | in every run the receivers read out of the bytes the view, the sender, its index and maturity, a claim for each entry it holds with the old table's priority and no other, and the preferences it was started with |
| `Rotation.GcdDivides` | getopt_long.c:103-118 | the result divides both arguments |
| `Rotation.GcdIsGreatest` | getopt_long.c:103-118 | no common divisor is larger |
| `Rotation.ComputeGcd` | getopt_long.c:103-118 | the loop computes the recursive function |
| `Rotation.StepCell` | getopt_long.c:147-150 | a step stays in its residue class, inside the segment, and takes one turn of the cycle |
| `Rotation.OneTurnEach` | getopt_long.c:144-157 | a cycle visits no position twice, so that the cycles are disjoint and cover the segment |
| `Rotation.SwapAdvances` | getopt_long.c:151-155 | what each position holds after each swap of each cycle |
| `Rotation.PermuteArgs` | getopt_long.c:125-158 | the two blocks change places, each in its order, and nothing else moves |
| `Getopt.ParsePartitions` | getopt_long.c:165-303 | up to the stop the arguments are the options with what they consumed and the skipped ones, merged: each kind keeps its order and nothing is lost |
| `Getopt.MatchLongAnswers` | getopt_long.c:379-402 | an exact match is found only before the second abbreviation; the answer is ambiguous exactly if two abbreviations come before any exact match, and none exactly if no option starts with the name |
| `Getopt.ExactMatchTooLate` | getopt_long.c:379-402 | "foo" behind foobar and foobaz is reported as ambiguous although it matches exactly, and is found in front of the second |
| `Getopt.SkippedAreNoOptions` | getopt_long.c:207-236 | no skipped argument is an option, and only "--" stops before the end |
| `CommandLines.KindIs` | getopt_long.c:246-300 | a letter is unknown, without argument, with one or with an optional one, by the colons behind its first place in the option string |
| `CommandLines.ItemScanned` | getopt_long.c:207-465 | a group of letters with whatever its last one takes, a long option in each of its forms, or another argument, lying anywhere in the vector, is reported and consumed as what it is |
| `CommandLines.LineScanned` | getopt_long.c:337-467 | a command line written from any list of such items is scanned as they were meant: reports, options with their arguments, and the others, each in order |
| `CommandLines.DashesScanned` | getopt_long.c:358-371 | and what follows two dashes is not looked at |
| `CommandLines.ArgumentMissing` | getopt_long.c:281-290 | a letter that wants an argument at the end of the line is reported as ':' or '?' by the start of the option string |
| `CommandLines.LongArgumentMissing` | getopt_long.c:427-452 | the same for a long option |
| `CommandLines.ScanLine` | getopt_long.c:337-467 | calling getopt_long until -1 on a command line gives these reports, and leaves the options in front of the others |
| `Getopt.Scanner.Exchange` | getopt_long.c:191-196 | the options found behind skipped arguments come before them |
| `Getopt.Scanner.Skip` | getopt_long.c:207-236 | a non-option joins the skipped ones, after a regrouping if options came between |
| `Getopt.Scanner.AtEnd` | getopt_long.c:189-205 | the end of the vector: final exchange and optind |
| `Getopt.Scanner.NextElement` | getopt_long.c:186-245 | the search for the next element ends at the end, at two dashes or at a letter |
| `Getopt.Scanner.TakeLetter` | getopt_long.c:246-300 | one letter: what it reports, what it consumes, and where the scan goes on |
| `Getopt.Scanner.FindLong` | getopt_long.c:379-402 | the option found is the first exact match, unless two abbreviations come before it, or the only one the name abbreviates; ambiguous exactly if two abbreviations come before any exact match; none exactly if nothing starts with the name |
| `Getopt.Scanner.TakeLong` | getopt_long.c:356-465 | one long option, with a missing argument at the end of the vector |
| `Getopt.Scanner.Stop` | getopt_long.c:358-371 | "--" ends the scan behind itself |
| `Getopt.Scanner.GetoptLong` | getopt_long.c:337-467 | one call reports the next option and keeps the scanner's invariant, or completes the scan |
| `Getopt.Scanner.ScanAll` | getopt_long.c:337-467 | calls until -1: the reports are those specified; the arguments before the stop were an order-keeping merge of the options, with what they consumed, and the others; now the options come first and then the others, nothing is lost, and optind points at the first non-option |
| `Spoof.AndClears` | spoofmanager.c:178-180 | masking with a contiguous mask clears the low bits |
| `Spoof.OrSets` | spoofmanager.c:179-181 | or-ing with its complement sets them |
| `Spoof.BlocksNest` | spoofmanager.c:192-193 | two blocks are disjoint or one lies in the other |
| `Spoof.CommonIsSmaller` | spoofmanager.c:174-200 | the intersection is empty or equals the smaller block |
| `Spoof.CalcNewCidr` | spoofmanager.c:174-200 | size, as an unsigned 32-bit integer, and start of the intersection; the output is untouched if it is empty |
| `Spoof.InBlockIff` | spoofmanager.c:178-181 | a block holds exactly the addresses with the same network part |
| `Spoof.CommonIs` | spoofmanager.c:192-199 | an address has the network part of both blocks exactly if it is one of so many from the later first address on |
| `Spoof.UnlimitedRounds` | spoofmanager.c:248-249 | without a limit one round is enough |
| `Spoof.RoundsAreCeiling` | spoofmanager.c:248-249 | sending n requests under a limit takes the quotient rounded up many rounds |
| `Spoof.BlockSweep.Round` | spoofmanager.c:234-258 | a round sends the next addresses and remembers what is left: the smaller of the limit and what is left, and without a limit all of it |
| `Spoof.BlockSweep.Notify` | spoofmanager.c:134-154 | over all rounds each address of the intersection is notified exactly once, ascending; in one round without a limit, otherwise in the quotient rounded up many |
| `Spoof.CacheSweep.CountEntries` | spoofmanager.c:208-211 | the entries before the zero terminator |
| `Spoof.CacheSweep.Delivers` | spoofmanager.c:214-219 | an entry is delivered exactly if it lies in the virtual address's network, and to its own address |
| `Spoof.MatchingIs` | spoofmanager.c:214-219 | the entries to notify are those in use with the network part of the virtual address, in their order |
| `Spoof.CacheSweep.Round` | spoofmanager.c:216-232 | a round sends the next matching entries, the smaller of the limit and what is left, or all of them without a limit; it zeroes exactly those and changes nothing else |
| `Spoof.CacheSweep.Notify` | spoofmanager.c:134-154 | over all rounds every matching entry before the terminator is sent exactly once, in order, and no other; in one round without a limit, otherwise in the quotient rounded up many |
| `Checksum.OnesSumIsCanon` | ife-icmp-support.c:13-16 | summing with end-around carry gives the representative of the plain sum |
| `Checksum.TwoFoldsSuffice` | ife-icmp-support.c:21-22 | two folds of any 32-bit sum give its one's-complement sum |
| `Checksum.AddHalves` | ife-icmp-support.c:14-20 | for up to 65535 bytes, an odd last one included, the long holds the sum and stays below 2 to the 31 |
| `Checksum.PaddedBehind` | ife-icmp-support.c:16-19 | an odd last byte counts as if a zero byte stood behind it |
| `Checksum.InChecksum` | ife-icmp-support.c:13-25 | the result is the complement of the one's-complement sum |
| `Checksum.StoredChecksumVerifies` | ife-icmp-support.c:46-47 | stored in its zeroed field the checksum makes the sum 0xffff |
| `Checksum.PingFields` | ife-icmp-support.c:29-51 | what the fields of the ping say: addresses, types, identifiers, and a total length that is that of the IP header and the ICMP message together |
| `Checksum.SameBytesInEitherOrder` | ife-icmp-support.c:13-25 | machines of either byte order store the same two bytes |
| `Checksum.Pinger.ComposePing` | ife-icmp-support.c:27-51 | whatever earlier calls left in the static packet, both checksums verify and all fields are right |
| `ArpTable.InsertSorted` | abt.c:45-70 | insertion keeps the keys strictly ascending |
| `ArpTable.InsertUpdates` | abt.c:45-70 | insertion is map update |
| `ArpTable.BuildIsMap` | abt.c:45-70 | after any insertions the array stands for the same map as the updates |
| `ArpTable.SafeRunIff` | abt.c:63-66 | the runs of insertions that never read before the array are those whose first key is their least |
| `ArpTable.Abt.constructor` | abt.c:36-43 | a new table is empty and has room for 128 entries |
| `ArpTable.Abt.Locate` | abt.c:46-57 | the search finds the key or its place; it ends at -1 exactly if the key is below every key stored |
| `ArpTable.Abt.Add` | abt.c:45-70 | the new contents are the old with the entry inserted, within the space, which doubles when full |
| `ArpTable.Abt.Check` | abt.c:72-83 | 1 exactly for the keys stored |
| `Control.FillState` | control.c:128-157 | exactly the computed size is filled, with the image of the table |
| `Control.ControlSession.HandleControlSession` | control.c:176-249 | one run of the session handler, with every error and retry |
| `Control.StillSending` | control.c:198-211 | before the end the client has got exactly the bytes accepted, whatever the schedule |
| `Control.SendsAllOnce` | control.c:198-216 | the client gets all bytes once and in order, and the session waits for the next command |
| `Control.StateTransfer` | control.c:159-216 | from the command byte to the last write the client gets the image of the table |
| `Control.ImageLayout` | control.c:128-157 | where everything lies in the reply: its length less four, and per row the claim priority in network order and the four fields of each interface |
| `Dialog.ClosesIff` | control.c:176-249 | exactly an end or an error other than "try again", an unknown command, or a partly written answer closes a live session; a closed one sends nothing |
| `Dialog.Exchanged` | control.c:176-233 | any early reads, a command and its writes with any retries: the client gets the image for command 0 and the four-byte answer for 1 and 2, whole and once, and the session waits for the next command |
| `Dialog.Conversation` | control.c:176-233 | over one connection the client gets the reply to each of its commands, in their order, and nothing else |
| `Control.TakeInvertsCopy` | wackatrl.c:110-120 | one interface is read back as it was written |
| `Control.ReadAll` | wackatrl.c:96-100 | whatever pieces arrive, the reader ends with all the bytes |
| `Control.GetState` | wackatrl.c:86-132 | the reader rebuilds every interface of every row and stops at the last |

## Left out

- Spread: the toolkit, its clocks and its timers; agreed order, membership events and self-delivery are assumptions, and the maturity and balance timers become steps that may happen at any time.
- Process.Node.SpreadReconnect: does not model failed connects and retries, because they are foreign calls; failed multicasts and exit paths are left out as well.
- The contents of messages and their handling are joined by the parsed message: `Process.Node` and `World` pass `StateMsg` values, and `Sending.RunsRoundTrip` says that their bytes carry them. A reader that runs past the received bytes would see stale buffer contents; `Messages` gives no result there.
- Byte swapping between members of different byte order; the byte order is a parameter that sender and receiver share.
- A group id as three words: the protocol compares one number, which `Messages` splits into the three.
- `if_up`, `if_down` and packet sending: the held set and the logs of requests stand for their effects; the user scripts and dynamic libraries they trigger are not part of this model.
- ARP sampling, `alarm.c`, `apue.c`, `perl.c`, `userloader.c`, `win32.c` and the configuration grammar: input and output, wrappers and generated parsers.
- Threads: a sweep is a sequence of rounds without cancellation.
- Sweeps with several virtual addresses per entry, or reinvoked without resetting `ifcount`: `left_todo` is shared between the addresses there, and exactly-once does not hold.
- Netmasks that are not contiguous.
- Spoof.BlockSweep.Notify: does not model an intersection of 2 to the 31 addresses or more, whose size overflows the `int` of the source.
- Getopt.Scanner.ScanAll: does not model `optreset`, an `optind` of 0, `optopt`, error texts, the `-W` long form, the leading `-` and `+` of the option string, and POSIXLY_CORRECT.
- A long option whose value is -1: the model reports it apart from the end of the scan, the C function does not.
- Control.ControlSession.HandleControlSession: does not model the actions of the service commands; their four-byte answer is a parameter.
- Control.GetState: does not model a table without rows, for which the source reads past an empty buffer.
- IFNAMSIZ is 16, its value on the Unix systems; on Windows it is 256.
- Sizes of arrays and counts are mathematical integers where the source's bounds keep them far below 2 to the 31.
