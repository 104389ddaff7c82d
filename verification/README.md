# Verified models of flagfish

flagfish runs capture-the-flag events on Postgres. Its correctness rests on short multi-statement
transactions under READ COMMITTED, advisory and row locks, an append-only ledger of solves and
awards, and a config table parsed into one snapshot. This project models those parts in Dafny and
proves what each of them keeps.

`dafny verify dfyconfig.toml` checks the whole project.

## How the code is modelled

**Protocols** (`AdminRoster`, `Issuance`, `Submit` with `FirstBlood`) are step machines. A transaction is a program
counter over its SQL statements. A statement sees the committed rows plus its own transaction's
writes; locks are held to commit or rollback. `Run` executes an arbitrary schedule of starts, steps
and rollbacks, so a property of every `Run` is a property of every interleaving. Each machine has a
switch that takes its lock away (or, for issuance, folds it into the assigning statement), used only
by the lemma that exhibits the run the lock prevents.

**Services that change state** (`RosterService.Service`, `ConfigManager.Manager`, `Pool.PoolService`,
`Sessions.Accounts`, `RateLimit.Limiter`) are classes whose methods state their exact verdict and
their exact new state, and keep `Valid()`.

**Queries** (`Standings`, `History`, `Catalog`, `SolvePages`, `Detector`, `Decay`) are functions;
where Go loops over their rows the loop is a method proved against a function.

| file | what it models |
|---|---|
| `Roster`, `AdminRoster`, `RosterService` | the last-admin protocol, and team rosters with their captain's seat |
| `Issuance`, `Pool`, `Detector` | handing out unique-flag instances, pool generations and attribution, flag authoring and the unissued-solve detector |
| `Decay`, `Submit`, `FirstBlood`, `Catalog`, `Prereq` | the decay curve in SQL and in Go, correct submissions, first blood by commit and by date, the board live and frozen, prerequisites |
| `Standings`, `History`, `Scoring`, `Sorting` | the three standings queries, the score history, the Go ranking, ORDER BY |
| `SolvePages` | keyset pages of a solve list |
| `ConfigSnapshot`, `ConfigManager` | parsing the config table, the nine cross-key rules, boot, refresh and write |
| `Phc`, `Sessions`, `RateLimit` | the Argon2id string, sessions and tokens across password changes, the fixed-window limiter |

## Where the code and its own words differ

The model follows the code, and a lemma holds the concrete case.

- The decay curve's Go comment says its product fits int64 for every curve `Validate` admits. It does
  not: `Decay.ValidCurveOverflows` shows a valid curve whose shown price lands above its initial value
  while the UPDATE raises. `Decay.GoIsThePriceIff`, `Decay.SqlRaisesIff` and `Decay.LogNeverRaisesIff`
  say exactly when.
- The self-serve join reads the team's ban outside the roster lock, so a team ban that counted an admin
  outside the team can be overtaken by that admin joining it (`AdminRoster.JoiningAdminDefeatsTheCount`).
  `AdminRoster.BanMeetsJoin` says exactly when that leaves nobody; without such a late join it never happens
  (`AdminRoster.UsableAdminInEveryRun`).
- A solve's date is its transaction's start. Dates need not follow the order of commits, so first blood,
  which is decided by commits, can carry the later date of two solves, although the schema comment
  derives it by date (`Submit.FirstBloodCanCarryTheLaterDate`). `FirstBlood.AnnouncedIsDerivedIff` says
  exactly when the two agree, and `FirstBlood.NobodyOlderOpen` what to check at the commit. For the same
  reason a solve can land behind a reader's page cursor (`SolvePages.LandingBehindIsMissed`), and then the
  walk misses it (`SolvePages.LandingBehindSpoilsTheWalk`). `SolvePages.WalkIsComplete` says exactly what a
  walk misses: the shown solves before the cutoff that land so, and nothing else.
- An upload may repeat an old hash beside a new one. If the repeated instance is then issued to someone
  else, the first holder's own flag is attributed to the second
  (`Pool.OwnFlagCanBeMisattributed`; `Pool.AttributedToHolderIff` says exactly when).
- `IssueInstance`'s comment speaks of SKIP LOCKED; the assigning statement has none, and is modelled
  without it.

## Model

| member | source | states |
|---|---|---|
| AdminRoster.UsableAdminInEveryRun | internal/adminops/users.go:140-229 | in every interleaving of demotions, bans, team bans, moves, promotions, unbans, removals and joins, every committed state has an admin who is not banned and not on a banned team, as long as no admin's self-serve join commits to a team that is banned by then or that an open ban has already counted |
| AdminRoster.BanMeetsJoin | internal/adminops/teams.go:157-194 | from any state such runs reach, when a team ban that has counted and a join that has read the team as open both finish, in any order of their statements, a usable admin is left exactly when one other than the joiner was off the team |
| AdminRoster.StatementSound | internal/adminops/team_roster.go:85-160 | whatever statement a transaction has executed, its count or its target check still covers the writes it has pending |
| AdminRoster.CommitKeepsInv | internal/adminops/teams.go:157-194 | a commit never leaves the instance without a usable admin, and never spoils what another open transaction has counted |
| AdminRoster.SparingCommit | internal/adminops/users.go:204-229 | a transaction that took the lock and counted leaves a usable admin behind when it commits |
| AdminRoster.HarmlessCommit | internal/adminops/team_roster.go:71-83 | the paths that skip the lock can only add usable admins, or move people to where they stay usable |
| AdminRoster.StableUnderHarmless | internal/adminops/users.go:186-200 | a count taken under the lock stays true while unlocked transactions commit around it |
| AdminRoster.TimelyJoin | internal/accounts/teams.go:141-209 | a join that is not late commits harmlessly: its user is no usable admin, or stands on an open team that no open ban has counted |
| AdminRoster.WithoutLockNobodyIsLeft | internal/adminops/users.go:186-200 | without the shared lock a demotion and a ban, each counting the other's target, both commit and nobody is left |
| AdminRoster.JoiningAdminDefeatsTheCount | internal/accounts/teams.go:141-209 | with the lock, a team ban and the self-serve join of the counted admin commit to a state with no usable admin |
| Roster.OthersWitness | internal/db/admin.sql.gen.go:95-115 | the count of other admins is zero exactly when no other usable admin exists |
| Roster.OutsideWitness | internal/db/admin.sql.gen.go:62-80 | the count of admins outside a team is zero exactly when every usable admin is on it |
| Roster.MinId | internal/db/teams.sql.gen.go:380-395 | the heir of a captain's seat is the lowest id among those left, or none when nobody is |
| RosterService.Service.SetRole | internal/adminops/users.go:204-229 | demotion is refused exactly when no other usable admin exists; otherwise only that role changes |
| RosterService.Service.SetBanned | internal/adminops/users.go:140-183 | a ban is refused on oneself and exactly when it would disable the last usable admin; otherwise only that flag changes, and a ban deletes the user's sessions and no others |
| RosterService.Service.SetTeamBanned | internal/adminops/teams.go:157-194 | a team ban is refused for the actor's own team and exactly when no usable admin is off the team; otherwise only that flag changes, and a ban deletes the members' sessions and no others |
| RosterService.Service.RemoveTeamMember | internal/adminops/team_roster.go:71-83 | a removal detaches the member and passes their seat to the lowest id left, or empties it |
| RosterService.Service.MoveTeamMember | internal/adminops/team_roster.go:85-160 | a move detaches, reseats, enrols and adopts as one; a refusal changes nothing; a usable admin survives it |
| RosterService.Service.CreateTeam | internal/accounts/teams.go:99-137 | the creator of a team is its captain and only member, and its secret is stored |
| RosterService.Service.JoinTeam | internal/accounts/teams.go:141-193 | the right secret of an unbanned team enrols a teamless user while the team has room, fills an empty seat and leaves a filled one alone; an outdated secret hash is replaced once it opened the team |
| RosterService.Service.LeaveTeam | internal/accounts/teams.go:371-405 | a member leaves only while the team has no solve, and the seat follows the heir rule |
| RosterService.Service.KickMember | internal/accounts/teams.go:469-491 | only the captain removes, only another member, only while nothing was scored; each refusal names the rule that failed |
| RosterService.Service.RosterRefusal | internal/accounts/teams.go:548-580 | after a statement that found no row, the rule named is one that is broken and every rule asked before it holds, so the fallback at the end is never reached |
| RosterService.Service.TransferCaptaincy | internal/accounts/teams.go:493-515 | the seat goes from its holder to a teammate and nothing else changes |
| RosterService.Service.DisbandTeam | internal/accounts/teams.go:518-546 | a team with no ledger row disappears and frees exactly its members |
| RosterService.DetachAndReseat | internal/adminops/team_roster.go:163-178 | after detaching and reseating, every team's seat is empty exactly when it has no members and otherwise holds one |
| RosterService.EnrolAndAdopt | internal/accounts/teams.go:196-209 | after enrolling and adopting, every seat still holds a member or is rightly empty |
| RosterService.MoveSparesAnAdmin | internal/adminops/team_roster.go:130-160 | a move the guard lets through leaves a usable admin |
| Issuance.EveryIssueIsExclusive | internal/gameplay/issuer.go:49-91 | in every interleaving no instance is held twice, the UNIQUE error is never raised, a fresh issue is the best instance free, and exhaustion is reported only when the account held nothing and nothing was free |
| Issuance.ZeroRowsIff | internal/gameplay/issuer.go:60-91 | of the calls that reached the assigning statement, one got a row exactly when its account had none and an instance was free on the statement's snapshot; zero rows mean already issued or exhausted, and the caller is told which |
| Issuance.Picked | internal/db/flags.sql.gen.go:15-26 | the picked row is a free instance of the newest generation with the lowest id, or none exactly when none is free |
| Issuance.PickedIsFree | internal/db/flags.sql.gen.go:114-128 | under the lock, what the assigning snapshot saw free is free when it writes |
| Issuance.CommitKeepsInv | internal/db/flags.sql.gen.go:15-26 | committing an assignment keeps every issue exclusive and every answer already given true |
| Issuance.FoldedLockViolates | internal/db/flags.sql.gen.go:114-133 | with the lock taken inside the assigning statement, two first views reach the UNIQUE error |
| Decay.SqlIsThePrice | internal/db/gameplay.sql.gen.go:434-465 | whenever the UPDATE does not raise it stores the curve's price, whatever the columns hold |
| Decay.SqlRaisesIff | internal/db/gameplay.sql.gen.go:434-465 | on a valid curve the UPDATE raises exactly when its product leaves int64 |
| Decay.LogNeverRaisesIff | internal/db/gameplay.sql.gen.go:480-491 | a logarithmic curve never raises at any count exactly when (initial - minimum) * decay * decay fits int64 |
| Decay.SqlAndGoAgree | internal/domain/scoring/decay.go:111-160 | wherever Postgres stores a value Go computes the same, also for zero or negative decay and inverted bounds |
| Decay.GoIsThePriceIff | internal/domain/scoring/decay.go:127-150 | the Go value of a valid logarithmic curve is right exactly when the count is past the knee or the product fits int64 |
| Decay.GoLinearIsThePrice | internal/domain/scoring/decay.go:122-125 | the Go value of a valid linear curve is right exactly when the decrement fits int64 or wraps to where it still takes the value to the floor |
| Decay.ValidCurveOverflows | internal/domain/scoring/decay.go:147-150 | a curve Validate admits where Go shows more than the initial value and the UPDATE raises |
| Decay.PriceInBounds | internal/adminops/challenges.go:573-575 | a decaying price stays between minimum and initial |
| Decay.PriceFalls | internal/db/gameplay.sql.gen.go:470-491 | more solves never raise the price |
| Decay.LinearFallsIff | internal/domain/scoring/decay.go:122-125 | the next solve lowers a linear price exactly after the first one and above the floor |
| Decay.LogFallsIff | internal/db/gameplay.sql.gen.go:476-491 | the next solve lowers a logarithmic price exactly before the floor and when the parabola's step overflows the remainder; a step as wide as decay squared is enough |
| Decay.FirstSolverPaysInitial | internal/db/gameplay.sql.gen.go:470-474 | unsolved and once solved, a challenge costs its initial value |
| Decay.FloorExactlyAtDecay | internal/domain/scoring/decay.go:24-26 | the logarithmic price is the minimum exactly from `decay` solves beyond the first |
| Decay.GreatestIsRedundant | internal/db/gameplay.sql.gen.go:484-491 | the outer GREATEST never acts on a valid logarithmic curve |
| Decay.CeilingOfTheParabola | internal/db/gameplay.sql.gen.go:476-480 | the logarithmic price is the parabola rounded up |
| Submit.EveryRunKeepsTheLedger | internal/gameplay/submit.go:131-252 | in every interleaving: one solve per user and team, each stamped with the price just before it, the stored price equal to the curve at the visible count, first blood announced and paid to the first visible solver to commit and to nobody else, and every player told what the tables say |
| Submit.AppendKeepsLedger | internal/db/gameplay.sql.gen.go:285-326 | one committed solve, its award and its recalculated price keep all of that |
| Submit.CommitKeepsAnswer | internal/gameplay/submit.go:159-174 | a solver keeps the row and value they were told and has first blood exactly if told so; one told "already solved" has a row of their account |
| Submit.PayKeepsInv | internal/db/migrations/00003_gameplay.sql:96-98 | a second first-blood award is never even attempted |
| Submit.RecalcKeepsInv | internal/db/gameplay.sql.gen.go:434-465 | the price computed before commit is the curve at the count after it |
| Submit.RowsAreNeverRewritten | internal/db/migrations/00003_gameplay.sql:52-63 | no schedule changes or removes a committed solve, award or announcement |
| Submit.KthVisibleStamp | internal/db/gameplay.sql.gen.go:306-326 | in every run the k-th visible solver is stamped with the curve at k - 1, the first with the initial value |
| Submit.StampsFall | internal/db/gameplay.sql.gen.go:306-326 | in every run stamps never rise in commit order, and the asking price is not above any of them |
| Submit.FirstBloodWinner | internal/db/gameplay.sql.gen.go:76-102 | the winner is visible and every earlier solver is hidden or banned |
| Submit.WithoutTheLockTwoFirstBloods | internal/db/gameplay.sql.gen.go:389-402 | without the row lock two players are announced as first blood |
| Submit.FirstBloodCanCarryTheLaterDate | internal/db/migrations/00003_gameplay.sql:56-68 | with the lock, the first to commit can carry the later date |
| FirstBlood.AnnouncedIsDerivedIff | internal/db/migrations/00003_gameplay.sql:67-68 | in every run whose clock never goes back, an announced first blood comes from one commit, and is the visible solve first by date and id exactly when no visible account's submission of the challenge then open with an earlier date commits a solve afterwards |
| FirstBlood.NobodyOlderOpen | internal/gameplay/submit.go:182-234 | with no older visible submission open on the challenge when the winner commits, the announced solve is the derived one in every continuation |
| FirstBlood.DerivedIsEarliest | internal/db/migrations/00003_gameplay.sql:67-68 | the derived winner is the visible solve with no earlier date, and first in commit order among equals |
| FirstBlood.EarlySolvesWereOpen | internal/db/gameplay.sql.gen.go:285-326 | from an instant on, a visible solve dated before it can come only from a transaction already open |
| Prereq.PrereqsMet | internal/gameplay/prereq.go:14-28 | counting distinct solved ids against the deduplicated list decides whether every prerequisite is solved |
| Prereq.Dedupe | internal/gameplay/prereq.go:47-64 | deduplication keeps exactly the ids, each once |
| Prereq.FindCycle | internal/domain/prereq/serialize.go:63-87 | a cycle is found exactly when the challenge is on one, and the one found passes through nothing twice |
| Prereq.Walk | internal/domain/prereq/serialize.go:69-85 | a fruitless walk has explored everything reachable and met the start nowhere |
| Prereq.CycleNeverUnlocks | internal/domain/prereq/serialize.go:63-66 | no attempt in any order solves a challenge on a cycle that is wholly unsolved |
| Prereq.BoardIsSolvableIff | internal/adminops/requirements.go:23-57 | over existing challenges the whole board can be solved from nothing exactly when no challenge is on a cycle |
| Catalog.List | internal/catalog/catalog.go:137-179 | the board loop yields the listed rows in order, gated and masked, or the first unreadable one |
| Catalog.ListAnnotations | internal/catalog/catalog.go:182-197 | the grouped annotations of a challenge are its rows folded by key |
| Catalog.View | internal/catalog/catalog.go:199-287 | the page is found, gated, masked and annotated exactly as its definition by the tables says |
| Catalog.BoardAndDetailAgree | internal/catalog/catalog.go:199-287 | an entry is on the board exactly when its page exists with the same name, price, count, solved flag, lock and annotations; locked pages carry no content |
| Catalog.SubmitGate | internal/gameplay/submit.go:65-79 | a submission is let through, locked out or not found as the page is open, locked or not found |
| Catalog.FreezeHidesLaterSolves | internal/db/catalog.sql.gen.go:405-472 | solves by others dated from the cutoff on, each repricing its challenge, change nothing on a frozen viewer's board or pages |
| Catalog.LivePriceMoves | internal/db/gameplay.sql.gen.go:434-465 | while a frozen viewer's price stays, a visible account's late solve moves the live one from the curve at the old count to the curve at the new: down on a linear curve exactly after the first solve and above the floor, and on a logarithmic one exactly when the parabola's step overflows the rounding |
| Catalog.OwnSolveShows | internal/db/catalog.sql.gen.go:54-62 | the viewer's own solve shows at once, frozen or not |
| Catalog.FrozenPriceIsTheTruncatedLedgers | internal/db/catalog.sql.gen.go:425-442 | a frozen price is what the write path would store over the solves dated before the cutoff |
| Catalog.FrozenMeetsLive | internal/db/catalog.sql.gen.go:15-50 | while every solve is before the cutoff the frozen price is the stored one |
| Standings.AsOfIgnoresLater | internal/db/scoreboard.sql.gen.go:14-53 | nothing appended at or after an instant changes the board as of it |
| Standings.AsOfMeetsTop | internal/board/board.go:54-108 | past every date, the board as of an instant is the live board in both modes, bracket names aside |
| Standings.BoardsAreStrictlyOrdered | internal/db/scoreboard.sql.gen.go:51-52 | both boards are strictly ordered by score, last event and account |
| Standings.EveryBoardIsAPrefixOfAFilter | internal/board/board.go:29-54 | hiding, brackets and limits take the first rows of the kept rows of one ranking |
| Standings.EveryPastBoardIsAPrefixOfAFilter | internal/board/board.go:90-108 | the same of time travel |
| Standings.TopRowMeans | internal/db/scoreboard.sql.gen.go:115-143 | a row's score sums its account's stamped non-zero events and its instant is the latest of them |
| History.ReplayAgrees | internal/db/score_history.sql.gen.go:26-45 | at every instant the running total on the last row before it, ties included, is the score as of it; no such row exactly when the account is not scoring |
| History.ReplayAgreesWithTheBoard | internal/db/scoreboard.sql.gen.go:14-53 | the replayed total is the score on the board's own row |
| History.FrozenHistoryIsAPrefix | internal/db/score_history.sql.gen.go:54-69 | a frozen history is the first rows of the live one, totals included |
| Scoring.Aggregate | internal/domain/scoring/standings.go:53-78 | one entry per account with a counting event, with its sum and latest instant |
| Scoring.Board | internal/domain/scoring/standings.go:107-116 | the board holds those entries strictly ranked, placed from 1 |
| Scoring.BoardIsAFunctionOfTheBag | internal/domain/scoring/standings.go:102-106 | any order of the same events, and any order of walking the map, gives the same board |
| Scoring.GoBoardIsTheSqlBoard | internal/db/scoreboard.sql.gen.go:115-143 | on the events the live query admits, the Go board is the query's board |
| SolvePages.Solves | internal/catalog/catalog.go:294-332 | a page shows the shown rows read and carries a cursor exactly when it is full of solves; not found exactly when unlisted |
| SolvePages.Walk | internal/catalog/catalog.go:289-332 | on a still table following cursors ends and shows every shown solve before the cutoff once, oldest first, for every limit |
| SolvePages.WalkEnds | internal/db/catalog.sql.gen.go:293-318 | whatever lands in between, the walk is over once its pages have asked for more rows than were left or have landed before the cutoff |
| SolvePages.LaterSolvesDoNotDelay | internal/db/catalog.sql.gen.go:293-318 | solves from the cutoff on never delay the end: it comes exactly when the pages have asked for more than was left |
| SolvePages.WalkEndsWithTheListing | internal/catalog/catalog.go:289-332 | whatever lands, once its pages have asked for more than there was the walk has ended so, and with the listing exactly when no shown solve landed behind it |
| SolvePages.FrozenWalk | internal/db/catalog.sql.gen.go:293-318 | with only solves from the cutoff on landing, it ends with the listing it started from |
| SolvePages.WalkIsComplete | internal/db/catalog.sql.gen.go:293-318 | a walk from the top that ends is ended by one fetch; what it got, with the shown solves before the cutoff that landed behind its cursor, is the listing of the table that fetch found, and it got that listing exactly when no such solve landed |
| SolvePages.LandingBehindIsMissed | internal/db/catalog.sql.gen.go:293-318 | a solve that lands behind the cursor is on no later page; a shown one before the cutoff is among the missed |
| SolvePages.LandingBehindSpoilsTheWalk | internal/catalog/catalog.go:294-332 | one shown solve landing behind an open reader, whatever comes before and after, and the walk does not end with the listing |
| SolvePages.CursorMoves | internal/db/catalog.sql.gen.go:303-308 | a full page's cursor splits the list right after the page |
| ConfigSnapshot.BuildParsed | internal/config/snapshot.go:523-553 | in whatever order rows are walked, the result is the table's one snapshot, or exactly its problems each once |
| ConfigSnapshot.SnapshotUnique | internal/config/snapshot.go:517-523 | a table has one snapshot |
| ConfigSnapshot.PutField | internal/config/snapshot.go:296-350 | distinct keys write disjoint fields |
| ConfigManager.BootableIff | internal/config/snapshot.go:585-654 | over any sane value parsers, a table boots exactly when every row parses and the stored strings satisfy each of the nine rules, read off the rows without loading them |
| ConfigManager.SourceBootableIff | internal/config/snapshot.go:585-654 | so it does under the parsers the code uses |
| ConfigManager.VerdictReadsItsKeys | internal/config/snapshot.go:577-654 | a rule's verdict depends on nothing but its declared keys and the instance mode |
| ConfigManager.BackstopUnreachable | internal/config/manager.go:245-256 | while the stored table parses the under-declared backstop is unreachable |
| ConfigManager.BackstopDecidesNothing | internal/config/manager.go:245-256 | while the stored table parses, judging with the backstop and without it is the same |
| ConfigManager.IncoherentIff | internal/config/manager.go:222-261 | coherence refuses a write exactly when a rule it touches would be broken |
| ConfigManager.StoredBreaksNothing | internal/config/manager.go:165-199 | even judged without the under-declared backstop, a stored write breaks no rule it did not find broken, and touches none it leaves broken |
| ConfigManager.WritesKeepBootable | internal/config/manager.go:64-85 | every run of writes from a table that boots leaves a table that boots |
| ConfigManager.RepairIsAccepted | internal/config/manager.go:156-164 | a write that mends the rules it touches is stored, whatever else stays broken |
| ConfigManager.InstantKeepsOrderIff | internal/config/snapshot.go:441-453 | the stored seconds are compared in their own order exactly below where the shift to year 1 overflows |
| ConfigManager.WrittenRegistrationNeedsNoRepair | internal/config/snapshot.go:484-497 | the withdrawn visibility cannot be written: after a run of writes a table needs the repair exactly when it did before and no stored write named the key |
| ConfigManager.CheckCoherence | internal/config/manager.go:224-261 | the loop's verdict is the order-independent one |
| ConfigManager.Manager.New | internal/config/manager.go:73-85 | boots exactly on the tables that parse and break no rule |
| ConfigManager.Manager.Refresh | internal/config/manager.go:115-141 | swaps in the table's snapshot with its violations, or keeps both on a parse error |
| ConfigManager.Manager.Set | internal/config/manager.go:165-199 | stores exactly the writes judged sound, read back exactly with other keys untouched; a refusal changes neither table nor snapshot |
| Pool.SameHashSet | internal/adminops/instances.go:179-198 | equal lengths, full-width rows, and every uploaded hash among them |
| Pool.SameHashSetIsSetEquality | internal/adminops/instances.go:176-198 | for an upload without repeats that is equality of the two sets |
| Pool.PoolService.ReplacePool | internal/adminops/instances.go:54-133 | an accepted upload makes the newest generation exactly its hashes, one past the newest or unchanged if it already was; refusals and repeats write nothing; issues survive |
| Pool.PoolService.PushTwice | internal/adminops/instances.go:48-53 | pushing the same pool again in any order is accepted exactly when the first push was, and is a no-op reporting the same generation |
| Pool.PoolService.ValidateArtifacts | internal/adminops/instances.go:145-173 | an upload passes exactly when each artifact is a file of the challenge |
| Pool.UploadKeepsContiguous | internal/db/admin.sql.gen.go:1150-1166 | generations stay 1 to the newest with none empty |
| Pool.IssuedIsAttributed | internal/db/flags.sql.gen.go:135-143 | an issued hash is never found unattributed |
| Pool.AttributedToHolderIff | internal/db/flags.sql.gen.go:135-143 | it is attributed to its holder exactly when the hash was not issued again from a newer generation |
| Pool.OwnFlagCanBeMisattributed | internal/adminops/instances.go:48-53 | two uploads and two issues, the second upload repeating the issued flag beside a new one, after which the first holder's own flag is attributed to the second |
| Detector.NothingToReport | internal/adminops/challenges.go:225-278 | in serial runs where unique-flag solvers were issued first the detector reports nothing |
| Detector.RunsKeepUniqueIssuable | internal/adminops/challenges.go:376-391 | however challenges are authored and switched, a unique-flag one never has a pattern among its flags or combines them |
| Detector.ReportsExactly | internal/db/anticheat.sql.gen.go:473-493 | over a run from a table with no solves, its list holds exactly the solves recorded in unique mode by accounts holding no issue |
| Detector.SolvedModeIsFrozen | internal/adminops/challenges.go:242-250 | a challenge keeps the mode its solves were recorded under |
| Detector.WithoutTheGuardHonestSolversAreReported | internal/adminops/challenges.go:242-250 | without the no-solves guard an honest static solve is reported |
| Phc.ParseInvertsPrint | internal/accounts/password.go:149-178 | parsing inverts printing for all uint32 memory and time, uint8 lanes, and non-empty salt and key |
| Phc.SixParts | internal/accounts/password.go:62-67 | a printed hash always splits into its six parts |
| Phc.DecodeInvertsEncode | internal/accounts/password.go:62-67 | unpadded base64 (sections 3.2 and 4 of RFC 4648) decodes to what was encoded and never contains the separator |
| Phc.HashThenVerify | internal/accounts/password.go:100-142 | a minted hash verifies its password with no rehash at unchanged parameters (section 4 of RFC 9106), asks for one exactly when lanes differ, and any other password only if Argon2id maps it to the same key |
| Phc.TrailingIsIgnored | internal/accounts/password.go:164-167 | the scanner ignores what follows the last parameter |
| Sessions.Accounts.AuthenticateSession | internal/accounts/authenticator.go:131-161 | a session authenticates exactly while it is unexpired and its password hash was not rewritten since it was minted |
| Sessions.Accounts.CreateUser | internal/accounts/register.go:27-75 | a registered user is stored with the hash given and logged in by a session that authenticates, and every other user, session and token is as before |
| Sessions.Accounts.Login | internal/accounts/login.go:54-109 | logs in exactly on a right password of an unbanned user; the session authenticates also after a rehash, which logs the user's other sessions out |
| Sessions.Accounts.ChangePassword | internal/accounts/login.go:167-212 | kills every session and token of the user and nobody else's, and returns a session that authenticates |
| Sessions.Accounts.ResetPassword | internal/accounts/emailflows.go:211-249 | spends an unspent reset token once, and leaves no session or token of the user alive |
| Sessions.Accounts.Logout | internal/accounts/login.go:143-148 | removes that session and no other |
| Sessions.Accounts.DeleteTokens | internal/db/auth.sql.gen.go:305-317 | removes exactly the user's tokens and reports how many |
| RateLimit.Limiter.Allow | internal/accounts/limiter.go:75-90 | bumps the window's row and allows exactly while the count is within the limit |
| RateLimit.Limiter.GiveBack | internal/accounts/limiter.go:96-106 | gives one bump back on an existing row, and does nothing without one |
| RateLimit.GrantsAreBounded | internal/db/auth.sql.gen.go:14-19 | allowed requests of a window number at most the limit plus the refunds landed there |
| RateLimit.WithoutRefundsExactlyTheLimit | internal/db/auth.sql.gen.go:14-19 | with no refund exactly the first `limit` attempts are allowed |
| RateLimit.CounterIsTheLargestSuffix | internal/db/auth.sql.gen.go:624-627 | the counter is the largest excess of bumps over refunds of any suffix, floored at zero |

## Left out

- AdminRoster.UsableAdminInEveryRun: runs with a late join are outside it; `AdminRoster.BanMeetsJoin` says exactly what one such join against one ban costs, and several at once are not characterised.
- AdminRoster.StatementSound: the heir of a seat is chosen when the reseating UPDATE writes; a subquery evaluated before a wait for a row lock is not modelled.
- Roster: a role is a boolean, since its CHECK admits two values; deletion of users is not modelled.
- RosterService.Service.CreateTeam: the refusals of a new team's row (its name, its secret, the number of teams) arrive as one verdict.
- RosterService.Service.JoinTeam: the team is named by its id; the password hash is a parameter; two joins racing for the last place are arbitrated by the caps trigger's lock, which a serial model does not show.
- RosterService.Service.LeaveTeam: two members leaving one team at once are taken one after the other, since the code takes no lock there.
- Issuance.EveryIssueIsExclusive: the hash of the lock key is arbitrary, so unrelated challenges may queue on each other; deadlock and lock timeouts appear only as rollbacks.
- Submit.EveryRunKeepsTheLedger: visibility of accounts and parameters of challenges are fixed for a run, since the stored price follows an edit only at the next recalculation; flag comparison, the attempt cap, wrong answers, hints and announcements' delivery are not part of this model.
- Submit.RowsAreNeverRewritten: imports, which write the ledger directly, and deletion of a challenge are outside the machine.
- Catalog.BoardAndDetailAgree: tags, files, hints, category and attribution are not carried; a malformed requirements value is one `prereq.Parse` refuses.
- Catalog.FreezeHidesLaterSolves: the clamp that decides which cutoff a viewer gets is not part of this model.
- Standings.AsOfMeetsTop: sums are unbounded integers; a score beyond int64 is not modelled.
- Scoring.GoBoardIsTheSqlBoard: dates are not before the zero time, which the Go fold starts from.
- SolvePages.Solves: a limit below 1 is refused by the route and not modelled.
- ConfigSnapshot.BuildParsed: the email, URL and JSON parsers are parameters; error texts are not modelled.
- ConfigManager.Manager.Set: writes are serial, as the code does not lock them, and the store's own failures are not modelled; the snapshot and its problems are two stores, so they agree at method boundaries only.
- Pool.PoolService.ReplacePool: uploads are serial; a race of two is arbitrated by a UNIQUE constraint and is not modelled. Warnings are not carried.
- Detector.RunsKeepUniqueIssuable: imports, which may store any row, are outside the runs; flag contents are not carried.
- Detector.ReportsExactly: switches, solves and issues are serial; paging and the joined names are not carried.
- Phc.HashThenVerify: Argon2id and bcrypt are functions; drawing a salt and constant-time comparison are not modelled.
- Sessions.Accounts.Login: a rehash racing a password change is not modelled, and digests are collision-free.
- Sessions.Accounts.CreateUser: the unique email, the user cap, custom fields and the verification mail are refused or written elsewhere and not modelled; the id is new.
- RateLimit.Limiter.Allow: the counter does not overflow int4; a database error, which denies, is not modelled.
- The importer and exporter, mail, webhooks, notifications, the audit triggers, the HTTP layer, the policy gate and object storage would add members of a different kind and are left out.
- The attempt cap's advisory lock is the lock-then-count of issuance again, per account, and is left out.
