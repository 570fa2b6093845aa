# Verification of OurNeZt core

A Dafny model of three parts of the service, with proofs.

**The shared housing checklist** (`ChecklistTable`, `ChecklistDomain`, `ChecklistOps`, `IdSlices`,
`ChecklistRepository`, `ChecklistProtocol`, `Evaluation`). Each family keeps one ordered list of criteria;
members insert, move, retire and reorder them and answer them per home. `ChecklistOps` says what one operation
does when it runs alone. `ChecklistRepository` holds the repository's methods in imperative form, with the
in-place slice edits of `IdSlices`, each proved equal to that. `ChecklistProtocol` lets any number of sessions
take these operations' statements as separate, freely interleaved steps under the row locks the code takes, and
proves every interleaving equal to a serial run. `Evaluation` covers the weighted score and its two routes.

**The authentication limiter** (`AuthLimit`, `LimiterRuns`, `LimiterNames`, `PasswordWork`). The limiter is a class
whose methods are proved against a step function; `LimiterRuns` proves facts about every run of calls and
`LimiterNames` says the same by address and account, from the calls' times alone. `PasswordWork` adds the
four operations that hash or verify passwords and the slots they hold, one at a time and interleaved.

**The planning arithmetic** (`Money`, `Annuity`, `Affordability`, `Cpf`, `Income`, `TakeHome`, `HousingGrant`,
`Dashboard`).

How things are represented:

- A UUID with value v is the number v + 1; the empty id string is 0. Ids order as the database orders UUIDs.
- Tables are maps. PostgreSQL runs at READ COMMITTED: a statement sees what was committed when it began, plus its
  own transaction's writes. A row lock that is not free makes the step wait.
- A bucket's key stands for its SHA-256, taken to be injective. The limiter's clock never goes back; times are
  integers and a new limiter's zero time is 0.
- Random ids and what repositories, hashing and contexts answer are arguments of the operations.
- `float64` is idealised as `real` in the score and in the mortgage, and `math.Round` as rounding half away from
  zero. Division of integers truncates toward zero. Integers are unbounded; `Affordability.IntermediatesFit` gives
  the range in which 64 bits are enough.

Findings:

- The limiter's sliding bound is 2 * limit - 1, one less than two full windows, because the admission that opens a
  window always falls at its very start; for windows of a single tick it is the limit itself
  (`LimiterRuns.SlidingWindowBound`). For every key, limit and window some run meets it
  (`LimiterRuns.SlidingWindowBoundIsMet`).
- Take-home pay can fall when the wage rises, because contributions are whole dollars and the phase-in rate ignores
  age (`TakeHome.TakeHomeCanFall`). Between any two wages it does exactly when the raise is smaller than the whole
  dollars of contribution it adds (`TakeHome.RaiseLosesExactly`). One cent more is a loss exactly when it completes
  another dollar of contribution (`TakeHome.CentLosesExactly`); among whole-dollar wages a dollar more is a loss only
  from 750 to 751 dollars, up to age 70 (`TakeHome.DollarLosesExactly`), made up again at a wage given per age
  (`TakeHome.LossAtEdgeExactly`).
- A delay given because the limiter's table is full runs to the next cleanup. The first call then, if its key has no
  running window, is admitted exactly when some stored window has ended (`LimiterRuns.FullAtCleanup`); none need have
  (`LimiterRuns.StillFullAfterDelay`).
- The request handler's duplicate check before a reorder turns away only lists the repository would turn away too
  (`ChecklistRepository.HandlerRejectsOnlyRejected`), but the errors differ for someone who may not write to the
  family: the repository would answer Forbidden (`ChecklistRepository.HandlerHidesForbidden`).

## Model

| member | source | states |
|---|---|---|
| ChecklistTable.ListingSorted | internal/repository/postgres/housing_checklist.go:54-69 | the listing query returns each active id of the family once, by position then id |
| ChecklistTable.ListingOrder | internal/repository/postgres/housing_checklist.go:54-69 | two listed ids are in order of their rows' positions, ids breaking ties, and neither row is retired |
| ChecklistTable.ContiguousIffPositionsExact | internal/repository/postgres/housing_checklist.go:36-37 | the listed order carries its own indices exactly when positions are 0..n-1 with none missing or repeated |
| ChecklistTable.WriteOrderReadsBack | internal/repository/postgres/housing_checklist.go:71-78 | writing a list of all active ids makes that list the one read back, contiguous, changing nothing but those rows' positions |
| ChecklistOps.InsertUnique | internal/repository/postgres/housing_checklist.go:119-122 | the spliced list is the only one with the id at the requested place that is the old list without it |
| ChecklistOps.CriterionOpReadsBack | internal/repository/postgres/housing_checklist.go:80-184 | after any successful criterion operation the list reads back as planned and contiguous; retired rows, other families and answers are untouched |
| ChecklistOps.OtherFamiliesUntouched | internal/repository/postgres/housing_checklist.go:80-184 | other families keep their list and contiguity |
| ChecklistOps.SaveReadsBack | internal/repository/postgres/housing_checklist.go:96-127 | a saved criterion reads back at the requested place with the requested fields; without it the list is as before and other rows differ at most in position |
| ChecklistOps.SaveKeepsRelativeOrder | internal/repository/postgres/housing_checklist.go:96-127 | no two other criteria swap when one is saved |
| ChecklistOps.SaveInPlaceKeepsOrder | internal/repository/postgres/housing_checklist.go:96-127 | saving a criterion at its own place succeeds and changes only its own fields |
| ChecklistOps.DeleteReadsBack | internal/repository/postgres/housing_checklist.go:138-152 | retirement takes exactly that id out of the list and keeps its row |
| ChecklistOps.InsertThenDeleteRestores | internal/repository/postgres/housing_checklist.go:80-153 | retiring what was just inserted restores every earlier row exactly |
| ChecklistOps.ApplyKeepsWellFormed | db/migrations/000006_housing_checklist.up.sql:2-29 | every operation keeps every family contiguous and every answer valid and inside its family |
| ChecklistOps.ApplyKeepsRetired | internal/repository/postgres/housing_checklist.go:130-153 | no operation changes a retired row or an answer about one, or drops an answer |
| ChecklistOps.SaveOutcome | internal/repository/postgres/housing_checklist.go:96-118 | a valid save by a writer succeeds exactly when, for an insert, the position is at most the number of active criteria and the id is new, and for an update, the criterion is active and the position below that number; each error exactly by its own cause |
| ChecklistOps.DeleteOutcome | internal/repository/postgres/housing_checklist.go:138-144 | a writer's retirement succeeds exactly for an active criterion of the family; an empty id is malformed, any other not found |
| ChecklistOps.ReorderOutcome | internal/repository/postgres/housing_checklist.go:163-184 | a writer's reorder succeeds exactly for the active ids, each once; that list then reads back and only positions change |
| ChecklistOps.AnswerOutcome | internal/repository/postgres/housing_checklist.go:210-232 | an answer is saved exactly when it is valid, its criterion is active in the home's family and the actor writes there; it is then the one answer that changes |
| ChecklistOps.OnlyWriters | internal/repository/postgres/housing_checklist.go:36-42 | a well-formed criterion operation is forbidden exactly to those who may not write to the family |
| ChecklistOps.Malformed | internal/repository/postgres/housing_checklist.go:80-84 | a request without actor or family, or with an invalid criterion, is malformed whoever makes it |
| IdSlices.IdSlice.RemoveAt | internal/repository/postgres/housing_checklist.go:98-104 | the in-place left shift leaves the list without that place |
| IdSlices.IdSlice.CopyRight | internal/repository/postgres/housing_checklist.go:121 | the overlapping right shift repeats one element and drops the last |
| IdSlices.IdSlice.InsertAt | internal/repository/postgres/housing_checklist.go:119-122 | append, overlapping copy and store together are the functional splice |
| ChecklistRepository.ChecklistTx.ChecklistIDs | internal/repository/postgres/housing_checklist.go:54-69 | scanning the rows gives the listing |
| ChecklistRepository.ChecklistTx.WriteChecklistOrder | internal/repository/postgres/housing_checklist.go:71-78 | the position loop is the functional write-back |
| ChecklistRepository.Repository.SaveHousingCriterion | internal/repository/postgres/housing_checklist.go:80-128 | the method does to the store, and answers, what the operation alone does, which `ChecklistOps.SaveOutcome` and `SaveReadsBack` describe; on an error the store is as before |
| ChecklistRepository.Repository.DeleteHousingCriterion | internal/repository/postgres/housing_checklist.go:130-153 | likewise for retirement |
| ChecklistRepository.Repository.ReorderHousingCriteria | internal/repository/postgres/housing_checklist.go:155-184 | likewise for reordering |
| ChecklistRepository.Repository.SaveHousingAnswer | internal/repository/postgres/housing_checklist.go:210-232 | likewise for answers |
| ChecklistRepository.AcceptsOrder | internal/repository/postgres/housing_checklist.go:163-180 | a list is accepted exactly when it is a permutation of the current ids, and then the remaining map is empty |
| ChecklistRepository.DistinctIDs | internal/server/housing_checklist.go:105-114 | the handler accepts exactly the lists without an empty or repeated id |
| ChecklistRepository.HandlerRejectsOnlyRejected | internal/server/housing_checklist.go:105-117 | whatever list the handler turns away the repository would turn away, with the same error exactly when an id is missing or the actor may write to the family |
| ChecklistRepository.HandlerHidesForbidden | internal/repository/postgres/common.go:63-65 | a repeated id from someone outside the family: the repository's own answer is Forbidden |
| ChecklistProtocol.Serialisable | internal/repository/postgres/housing_checklist.go:36-52 | in every interleaving the committed tables are those of the finished operations run one by one in finishing order, each with the outcome its caller got |
| ChecklistProtocol.AlwaysContiguous | internal/repository/postgres/housing_checklist.go:36-37 | at every moment of every interleaving each family's positions are exactly 0..n-1 and no answer crosses families |
| ChecklistProtocol.ForeignCommit | internal/repository/postgres/housing_checklist.go:38-52 | another session's commit leaves a session's progress valid against the new tables |
| ChecklistProtocol.CommitTakesEffect | internal/repository/postgres/housing_checklist.go:124-127 | a commit makes the tables what the operation alone makes of them at that moment |
| ChecklistProtocol.RolledBackLeavesNoTrace | internal/repository/postgres/housing_checklist.go:89-91 | erasing a session that only rolled back leaves a run to the same state |
| ChecklistProtocol.RetirementIsPermanent | internal/repository/postgres/housing_checklist.go:138-144 | once a retirement has committed, nothing under way or later changes that criterion or any answer about it |
| ChecklistProtocol.AnswersAreKept | internal/repository/postgres/housing_checklist.go:221-231 | no answer is ever dropped |
| ChecklistProtocol.EveryoneCanFinish | internal/repository/postgres/housing_checklist.go:36-52 | from every reachable state all operations under way can be brought to their end without new ones and without rolling any back |
| ChecklistProtocol.RunsEnd | internal/repository/postgres/housing_checklist.go:80-232 | no run without new operations is longer than the work left |
| ChecklistProtocol.NoDeadlock | internal/repository/postgres/housing_checklist.go:36-52 | whenever sessions are under way one of them can go on |
| ChecklistProtocol.StartsUnlessFamilyTaken | internal/repository/postgres/housing_checklist.go:36-52 | an operation can start exactly when it fails its first checks, saves an answer, or no other session edits that family's criteria |
| ChecklistProtocol.AnswersWaitOnlyFor | internal/repository/postgres/housing_checklist.go:219-225 | saving an answer waits exactly for a session writing its criterion's row or one that has written the same answer |
| ChecklistProtocol.OperationCanRun | internal/repository/postgres/housing_checklist.go:80-232 | after every run that has ended any operation can be started and brought to its end, leaving one more entry with the outcome and tables of the operation alone |
| ChecklistDomain.ValidateHousingCriterion | internal/domain/housing_checklist.go:37-45 | accepts exactly a family, a name of 1 to 120, a description up to 2000, a position from 0 and no weight or one above 0 up to 1000 |
| ChecklistDomain.ValidateHousingAnswer | internal/domain/housing_checklist.go:47-61 | accepts exactly pending answers with or without a rating from 1 to 5, completed ones with one, and not-applicable ones without |
| Evaluation.SummarizeHousingEvaluation | internal/domain/housing_checklist.go:63-97 | for distinct criteria the two loops compute the summary defined on sets: sums over rated ids, sizes of sets |
| Evaluation.OrderDoesNotMatter | internal/domain/housing_checklist.go:65-97 | neither the order of criteria nor that of answers changes the summary |
| Evaluation.WeightedMean | internal/domain/housing_checklist.go:71-95 | the score is the sum of rating times weight over the sum of weights, over the rated criteria that apply in any order, a missing weight counting 1 |
| Evaluation.CountsMean | internal/domain/housing_checklist.go:66-88 | the counts are those of all criteria, of complete and of not-applicable answers, and whether any weight is given |
| Evaluation.LaterAnswerWins | internal/domain/housing_checklist.go:67-70 | of several answers to one criterion the last is used |
| Evaluation.ScoreInRange | internal/domain/housing_checklist.go:63-97 | a score exists exactly when something is rated, and lies in [1, 5] |
| Evaluation.HigherRatingHigherScore | internal/domain/housing_checklist.go:87-95 | raising one rating raises the score |
| Evaluation.CountsFit | internal/domain/housing_checklist.go:66-91 | completed is at most rated, and rated plus not applicable at most the total |
| Evaluation.AttachHousingEvaluations | internal/repository/postgres/housing_checklist.go:234-255 | grouping answers by home gives each home the summary the stored tables define, whatever order the rows come in |
| Evaluation.GetHousingEvaluation | internal/server/housing_checklist.go:142-156 | filtering by home and active criterion gives that same summary |
| AuthLimit.WithDefaults | internal/authlimit/limiter.go:42-59 | each positive field is kept and every other becomes 30 per address, 5 per account, a minute, 2 slots or 20000 entries |
| AuthLimit.KeySpacesDisjoint | internal/authlimit/limiter.go:63-69 | addresses and accounts never share a bucket |
| AuthLimit.KeysAreNames | internal/authlimit/limiter.go:63-69 | two addresses share a bucket only if they are the same, and so for two accounts |
| AuthLimit.Limiter.Allow | internal/authlimit/limiter.go:71-98 | the method with its cleanup loop is one step of the limiter |
| AuthLimit.Limiter.Acquire | internal/authlimit/limiter.go:103-113 | a slot is taken exactly when the context is live and one is free |
| LimiterRuns.TableAlwaysOk | internal/authlimit/limiter.go:71-98 | at most the capped number of entries, each counting from 1 to its limit in a window begun less than two windows ago |
| LimiterRuns.ZeroIffAdmitted | internal/authlimit/limiter.go:84-97 | the delay is 0 exactly when the call was counted; refusals give a positive delay and store nothing |
| LimiterRuns.SlidingWindowBound | internal/authlimit/limiter.go:61-98 | in every run any interval one window long holds at most 2 * limit - 1 admissions of a key, at most the limit if a window is one tick |
| LimiterRuns.SlidingWindowBoundIsMet | internal/authlimit/limiter.go:61-98 | for every key, limit and window some run meets that bound |
| LimiterRuns.RefinesForgetless | internal/authlimit/limiter.go:76-97 | a call the cap does not turn away is answered as by a limiter that never forgets and has seen only that key's own such calls; the others change no bucket |
| LimiterRuns.RefusedToSameDeadline | internal/authlimit/limiter.go:61-62 | until a count refusal's delay has passed every call for the key is refused to the same deadline |
| LimiterRuns.AdmittedAfterDeadline | internal/authlimit/limiter.go:84-97 | the first call after it is admitted unless the storage cap turns it away |
| LimiterRuns.FullUntilCleanup | internal/authlimit/limiter.go:76-89 | when the table is full the delay runs to the next cleanup: until then no stored key is lost and every key not stored is refused to that moment |
| LimiterRuns.FullAtCleanup | internal/authlimit/limiter.go:76-91 | the first call once a full table's cleanup is due, for a key without a running window, is admitted exactly when some stored window has ended |
| LimiterRuns.StillFullAfterDelay | internal/authlimit/limiter.go:86-89 | a run in which a key refused for lack of room is so refused again when its delay has passed |
| LimiterNames.SameBucketIffSameName | internal/authlimit/limiter.go:63-72 | two calls share a bucket exactly when they are for the same address or the same account |
| LimiterNames.AnsweredByOwnCalls | internal/authlimit/limiter.go:71-98 | in every run a call the cap does not turn away is answered from the times of the earlier such calls of the same address or account: refused exactly when their latest window runs and holds the limit's number, and then to its end |
| LimiterNames.NotCappedWhileFewNames | internal/authlimit/limiter.go:84-89 | the cap turns no call away while fewer addresses and accounts have called than the table holds |
| LimiterNames.AdmittedPerName | internal/authlimit/limiter.go:61-98 | of one address's or account's calls at most 2 * limit - 1 are admitted in any interval one window long |
| PasswordWork.AuthService.Login | internal/service/auth.go:91-116 | a login is Ok exactly when its work began, the user was found, is not disabled and the password verified, and is then that user; disabled and unauthenticated exactly by their causes; refused logins make no call and the slot is free on return |
| PasswordWork.AuthService.CreateUser | internal/service/auth.go:55-85 | what creating a user answers in each case, with its number of calls; the slot is free on return |
| PasswordWork.AuthService.ChangePassword | internal/service/auth.go:118-151 | Ok exactly when the request is well formed, its work began, the user was found, is not disabled, the current password verified, and hashing and update succeeded; each other case with its error and its number of calls |
| PasswordWork.AuthService.EnsureBootstrapAdmin | internal/service/auth.go:229-282 | what the bootstrap answers in each case, with its number of calls; only the semaphore guards it |
| PasswordWork.WorkBegins | internal/service/auth.go:45-53 | work begins exactly for a live context, an admitted account and a free slot; each refusal is the first that applies |
| PasswordWork.AccountsAreSeparate | internal/service/auth.go:67-145 | each operation counts each email or user apart from every other |
| PasswordWork.StepsBeginAsAlone | internal/service/auth.go:45-53 | a request's steps taken without others in between get the slot exactly when the operation alone would |
| PasswordWork.ReturnsAfterItsCalls | internal/service/auth.go:71-150 | a holder returns at its first failure or after its last call: two for a login or a creation, four for a change, three for a bootstrap |
| PasswordWork.SlotsAreHolders | internal/authlimit/limiter.go:100-113 | in every interleaving the occupied slots are exactly the requests between acquire and return, at most the limit |
| PasswordWork.OnlyReturnsFreeSlots | internal/service/auth.go:67-85 | a slot is freed by its holder's return and by nothing else; cancellation frees none |
| PasswordWork.HolderCanReturn | internal/service/auth.go:71 | a request holding a slot can always return it |
| PasswordWork.PasswordWorkPerAccount | internal/service/auth.go:45-53 | of the requests of one account admitted within a window's length at most 2 * limit - 1 begin password work, however requests interleave |
| Annuity.ExactInstalmentClears | internal/calculation/housing.go:100-103 | paying the exact instalment clears the loan after the tenure |
| Annuity.RoundedInstalmentNearlyClears | internal/calculation/housing.go:92-104 | with the rounded instalment the final balance is within ((1+r)^n - 1) / (2r) cents of nothing |
| Annuity.PaymentRepays | internal/calculation/housing.go:92-104 | the payment is the nearest cent to a sum that repays the loan when each month adds a twelfth of the yearly rate |
| Annuity.PaymentWithoutInterest | internal/calculation/housing.go:92-98 | no loan or tenure has no payment; without interest it is the principal over the months, cut down |
| Annuity.InstalmentBounds | internal/calculation/housing.go:100-102 | the instalment exceeds the interest and the equal share, and is at most their sum |
| Annuity.LongerIsSmaller | internal/calculation/housing.go:100-102 | the instalment falls as the tenure grows |
| Annuity.NotBelowInterestFree | internal/calculation/housing.go:92-104 | the rounded instalment is never below the interest-free one |
| Annuity.PaymentMonotone | internal/calculation/housing.go:92-104 | a larger loan never has a smaller payment, and no payment is negative |
| Affordability.DearerIsNeverBetter | internal/calculation/housing.go:34-69 | a higher price or smaller grant never lowers downpayment, loan or mortgage, never leaves more surplus or cash, never improves the rating |
| Affordability.RatingMeans | internal/calculation/housing.go:106-124 | each rating as a bound on the cost without the truncating division |
| Affordability.InitialIsLargestWithinShare | internal/calculation/housing.go:71-90 | the first instalment of a financed downpayment is the most within both the downpayment and its share of the price |
| Affordability.MoneyAddsUp | internal/calculation/housing.go:34-90 | the parts of the downpayment, the upfront cost and its sources, the monthly pay, the household's money and the price add up |
| Affordability.CalculationMeans | internal/calculation/housing.go:34-69 | each figure from the option and the assets: net price, downpayment as the largest amount within its share, a given loan or what the downpayment leaves, its payment, the most CPF within balance and downpayment, cash, costs and surplus |
| Affordability.RatingBands | internal/calculation/housing.go:106-124 | the five ratings as bands of cost against take-home pay |
| Affordability.IntermediatesFit | internal/calculation/housing.go:34-68 | with money to 10^13 cents, rates to 10000 bps and 1 to 420 months every integer formed fits 64 bits |
| Cpf.ContributionMonotone | internal/calculation/cpf.go:22-57 | at a fixed age employee and total contributions never fall as the wage rises, across bands and ceiling |
| Cpf.ContributionBalances | internal/calculation/cpf.go:22-57 | shares add up to the total without the clamp, the accounts are non-negative and add up to it, the employee pays at most a fifth |
| Cpf.ContributionMeans | internal/calculation/cpf.go:22-107 | contributions, rates by age and band, and account shares by age in figures, with the ceiling and both roundings |
| Income.CalculateHouseholdIncomeSummary | internal/calculation/income.go:52-71 | the loop sums each person's figures |
| Income.SummaryAdds | internal/calculation/income.go:32-88 | an empty household has nothing; each person adds their wage, expectation, contributions, expenses and balances |
| Income.HouseholdBalances | internal/calculation/income.go:32-71 | gross is take-home plus employee contributions, take-home is expenses plus surplus, at least four fifths is taken home |
| TakeHome.RaiseLosesExactly | internal/calculation/cpf.go:30-43 | for any two wages the higher pays less exactly when the raise is smaller than the whole dollars of contribution it adds, counted by one division per band |
| TakeHome.CentLosesExactly | internal/calculation/cpf.go:30-43 | one cent more of gross pay lowers take-home pay exactly when a full-time contribution reaches another whole dollar, given in closed form per band |
| TakeHome.DollarLosesExactly | internal/calculation/income.go:32-50 | on whole-dollar wages one dollar more is a loss exactly from 750 to 751 dollars, full-time, up to age 70 |
| TakeHome.RaiseOffTheEdge | internal/calculation/income.go:32-50 | no whole-dollar raise that does not cross that edge lowers take-home pay |
| TakeHome.LossAtEdgeExactly | internal/calculation/cpf.go:35-41 | a raise across the edge from 750 dollars is a loss exactly until a wage given per age |
| TakeHome.LossUnderADollar | internal/calculation/cpf.go:43 | away from the edge a higher wage never costs a whole dollar |
| TakeHome.TakeHomeCanFall | internal/calculation/cpf.go:35-43 | two raises, of a dollar and of a cent, that cost a thirty-year-old money |
| HousingGrant.EstimateFromGrossMonthlyIncome | internal/calculation/housing_grant.go:30-71 | an eligible income has a bracket exactly up to the last limit, the grant is that of the one bracket it falls in, and 0 above the last or for other home types |
| HousingGrant.AddingAPersonNeverRaises | internal/calculation/housing_grant.go:17-71 | one more person never raises a non-empty household's grant |
| HousingGrant.ValidateHousingOption | internal/server/housing.go:347-375 | accepts exactly non-HDB homes without HDB loan or grant and, unless paid in cash, tenures up to 360 months, 420 for other types |
| HousingGrant.ApplyGrantEstimate | internal/server/housing.go:402-421 | the handler's steps change nothing but the grant, to what `HousingGrant.GrantStepMeans` says |
| HousingGrant.GrantStepMeans | internal/server/housing.go:402-421 | the grant left on a home: unchanged without a repository or family, none for other home types and the four deferred shapes, otherwise the table's amount for what the members earn |
| HousingGrant.DeferredShapes | internal/calculation/housing_grant.go:73-97 | a home is deferred exactly in one of four shapes of its fields |
| HousingGrant.EstimateMeans | internal/calculation/housing_grant.go:17-36 | an estimate is eligible for two home types, counts each wage but no negative one, and reads the table |
| HousingGrant.GrantTable | internal/calculation/housing_grant.go:41-71 | the sixteen brackets in figures |
| HousingGrant.ApplyingTwiceIsOnce | internal/server/housing.go:402-421 | applying the estimate twice is applying it once although the deferral test reads the grant |
| HousingGrant.GrantStepKeepsValidity | internal/server/housing.go:347-421 | a valid option stays valid |
| Dashboard.BuildHouseholdDashboard | internal/service/dashboard.go:15-44 | the dashboard holds the figures of exactly the visible homes in order, from the household's totals |
| Dashboard.CashAdds | internal/service/dashboard.go:18-21 | the cash shown is the members' savings together |
| Dashboard.VisibleKeepsOrder | internal/service/dashboard.go:30-36 | dropping hidden homes moves none |
| Dashboard.VisibleMembers | internal/service/dashboard.go:30-36 | a home is shown exactly when it is visible |
| Dashboard.DashboardConservesWealth | internal/service/dashboard.go:15-44 | for every shown home, what is kept plus what is paid up front is what the members have, person by person |

## Left out

- ChecklistRepository.Repository.SaveHousingCriterion: takes the name already trimmed, does not model `updated_at`, and has no failing statement; failures of the database are the `Abort` steps of `ChecklistProtocol`.
- ChecklistRepository.Repository.DeleteHousingCriterion: ids other than the empty one are UUIDs in canonical form; other strings are not represented.
- ChecklistProtocol.NoDeadlock: covers the locks these four operations take on families, criteria and answers, not those of other transactions on homes, members or families.
- ChecklistProtocol.AlwaysContiguous: homes, memberships and families do not change during a run, so deleting a home with its answers is not covered.
- Evaluation.AttachHousingEvaluations: criteria and answers are read from one state of the store; the code reads them in two statements. Counters are unbounded, not 32-bit.
- AuthLimit.Limiter.Allow: the account name arrives trimmed and in lower case; the mutex is the atomicity of the method.
- PasswordWork.PasswordWorkPerAccount: states the bound by the clock readings that admitted the work; no clock is read when a slot is taken, so that moment carries no time.
- Affordability.IntermediatesFit: outside the stated range 64-bit wrap-around is not modelled.
- Annuity.RoundedInstalmentNearlyClears: rounding inside `float64` arithmetic and `math.Pow` is idealised away.
- Housing groups: the update checks the group against the request's family, so no invariant about groups is claimed.
- gRPC servers, conversions, configuration, migrations, sessions, admin access keys, invites, notes; who may write to a family is given as a set of pairs.
- Argon2, SHA-256, random tokens and stored password formats are library calls.
