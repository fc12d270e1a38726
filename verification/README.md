# Operations platform: a verified model

The repository is a multi-company operations platform: every record (an answer, an article, an
approval, a workflow, a subscription, a campaign, an invoice line) is changed by small service
functions over a database. This project models the parts of it that carry real logic and proves
what those functions keep over every run:

- the CSV parser and printer, and the import engine built on them;
- currency rounding, base conversion, the balancing tolerance and document-line tax;
- the workflow engine: specs and their validator, versioned definitions, bound instances, the
  transition log and SLA escalation;
- the draft / approve / supersede lifecycles of answers and knowledge articles, and sequential
  approvals;
- the attendance clock;
- stores that must agree with something simpler: the recent list, the reminder ledgers of
  subscriptions and documents, notification dedup and grouping, derived campaign spend.

## How it is built

There is one module per source file, plus `Common` (options, results, trimming), `History`
(numbered version histories, shared by answers, knowledge and workflows), `Calendar` (the
Gregorian arithmetic behind `Date`), `Reminders` (the ledger shared by two jobs),
`WorkflowRuns` (whole-run theorems about `Workflows`), `WorkflowEffects` (what each of its
operations does) and `WorkflowOutcomes` (which records can be completed).

A service function appears twice. Its imperative form is a method of a class whose fields are the
stored record or table, with the source's order of checks and writes. Its specification is a
function from the old state to the new one, or to the error thrown; the method's `ensures` says
that it computes exactly that, state and error both. Whole-run theorems (`Run`, over an arbitrary
list of operations with arbitrary arguments) are proved about the specification functions by
invariants, so they hold of the methods. Beside them stand, for each operation, the laws named
`...Exactly`, `...Effect` and the like: when it is accepted, and what it changes and leaves alone,
told without naming the function that computes it.

Standing assumptions:

- Each service function is one atomic step. Several of them read before their transaction opens;
  interleavings of concurrent requests are not modelled.
- Permission and scope checks are parameters (`allowed`, `hasRight`, `rights`), so every theorem
  holds whatever they answer.
- Times are integers in milliseconds and are passed in. Database ids are row positions, or, for
  campaign metrics, a counter.
- decimal.js values are exact reals, and a rounded amount is the integer number of minor units it
  holds; the library's limit on significant digits is not modelled.
- JSON columns hold values: a workflow definition is a spec or corrupt text, a reminder ledger is a
  set of thresholds, form data is a map.

## Where code and documentation disagree

The model follows the code.

- `balancingTolerance` is one minor unit; its comment says half of one (src/lib/money.ts:52-56).
- The workflow validator only asks that the start stage reaches a terminal one; its comment asks
  that of every reachable stage (src/lib/workflow/spec.ts:176-193). `FinishesExactly` says when a
  spec does meet it, `ValidSpecWithTrap` shows an accepted one that does not, and
  `CompletesExactly` what that means for records.
- The campaign backfill speaks of legacy figures that are not zero, but migrates only positive ones
  (src/domain/campaigns.ts:237-262). `BackfillEstablishes` gives the exact condition.
- An article in review can still be edited, so what is published need not be what was submitted
  (src/domain/knowledge.ts:107-125). `ReviewTextChangesExactly` and `SubmittedIsPublished` say when
  it is, `ReviewDoesNotFreeze` shows that it may not be.
- An answer's question is not versioned: a draft edit changes it under an approved answer
  (src/domain/answers.ts:115-129). `ApprovedQuestionCanChange` says when.
- Marking archived notifications read brings them back, which can leave two live rows for one group
  although the write path avoids duplicates (src/domain/notifications.ts:97-102).
  `MarkReadKeepsInvExactly` says exactly when.

## Model

| member | source | states |
|---|---|---|
| Csv.ParseCsv | src/lib/csv.ts:9-36 | the character loop terminates on every text and computes the recursive scanner `Parse` |
| Csv.RoundTrip | src/lib/csv.ts:58-65 | for any headers and rows, array or keyed, parsing the printed text gives back exactly the non-blank rows of the cells given, if and only if the text does not begin with a byte order mark |
| Csv.LeadingBomIsLost | src/lib/csv.ts:14 | a header beginning with a byte order mark comes back without it |
| Csv.NormalForm | src/lib/csv.ts:15-34 | no parse contains a blank row; printing any parse with any line ends and parsing again gives the same matrix, if and only if no unquoted byte order mark leads it |
| Csv.LineEndingsIrrelevant | src/lib/csv.ts:26-31 | the same rows joined by any mix of LF, CR and CRLF, with or without a last one, parse alike |
| Csv.QuotedStretch | src/lib/csv.ts:17-23 | quotes may open in the middle of a field, and the quoted text, quotes doubled, continues it |
| Csv.ToCsvIsRender | src/lib/csv.ts:52-65 | the printed text is the rows of the cells given, each ended by CRLF but the last |
| Csv.KeyedRowsPrintByHeader | src/lib/csv.ts:60-63 | a keyed row prints as the array row with, in each column, the value stored under its header, and nothing where there is none |
| Csv.KeyedRowComesBack | src/lib/csv.ts:58-65 | parsing the printed table brings back each keyed row, every value in its header's column |
| Csv.QuotedExactly | src/lib/csv.ts:52-55 | a cell is quoted if and only if it holds a quote, a comma or a line break; a missing one prints as nothing |
| Csv.UnclosedQuoteCloses | src/lib/csv.ts:16-35 | a quote left open at the end of the text is as good as closed there |
| Csv.ParseRender | src/lib/csv.ts:14-35 | what the parse of rows printed with any terminators is, the stripped byte order mark included |
| Money.RoundIsTheOne | src/lib/money.ts:22-33 | each of the four policies determines a unique integer (nearest with its tie rule, toward zero, away from zero), and rounding returns it |
| Money.RoundMonotone | src/lib/money.ts:31-33 | rounding preserves order in every mode |
| Money.RoundAtFixed | src/lib/money.ts:31-33 | rounding an amount already whole in minor units changes nothing |
| Money.MinorUnitsTable | src/lib/money.ts:13-20 | which currencies have three decimal places, which none, and two for all others, with the scale that goes with each |
| Money.CaseIsIgnored | src/lib/money.ts:18-20 | the case in which a currency is written does not matter |
| Money.RoundedAmount | src/lib/money.ts:31-33 | a rounded amount is what its policy promises of the amount in minor units |
| Money.ConvertedAmount | src/lib/money.ts:48-50 | a conversion is what the policy promises of amount times rate |
| Money.BalancesInUnits | src/lib/money.ts:53-61 | whole totals balance exactly when they differ by at most one minor unit, in every currency |
| Money.ConversionDrift | src/lib/money.ts:48-61 | a journal of n non-negative lines that balances before conversion drifts by at most floor(n/2) units at one rate under the nearest modes; up to 3 lines, or 4 under half-up, always balance |
| Money.FourLinesFailHalfEven | src/lib/money.ts:48-61 | four lines can fail under half-even: the bound of three is sharp |
| Money.FiveLinesFailHalfUp | src/lib/money.ts:48-61 | five lines can fail under half-up: the bound of four is sharp |
| AccountingMath.TaxInversion | src/lib/accounting-math.ts:27-42 | feeding an exclusive line's net + tax back as one tax-inclusive unit returns the same net and tax, if and only if the mode is nearest or the tax needed no rounding |
| AccountingMath.DirectedModesLoseTax | src/lib/accounting-math.ts:27-42 | in every currency a line of one minor unit at 50% fed back comes out with net 0 under down and net 2 under up |
| AccountingMath.InclusiveConserves | src/lib/accounting-math.ts:34-38 | net + tax is the rounded gross in every mode, and both parts are non-negative for a non-negative gross and rate |
| AccountingMath.GrossIsNonNegative | src/lib/accounting-math.ts:30-31 | non-negative quantity and price with a discount of 0 to 100 give a non-negative gross |
| AccountingMath.LineAmountsPromise | src/lib/accounting-math.ts:27-42 | every line amounts to what its policy promises: exclusive, the net of quantity, price and discount and the rate's share of it; inclusive, net and tax together that amount; without a rate no tax; half-up unless another policy is named |
| AccountingMath.DiscountLowers | src/lib/accounting-math.ts:30-31 | with non-negative quantity and price a larger discount never charges more |
| AccountingMath.FullDiscountIsFree | src/lib/accounting-math.ts:30-41 | a full discount leaves nothing to pay and nothing to tax |
| AccountingMath.RetaxBound | src/lib/accounting-math.ts:34-41 | taxing an inclusive line's net again misses the stored tax by at most 1 + rate/2 units under the nearest modes: one unit up to and including 200% |
| AccountingMath.RetaxThresholdSharp | src/lib/accounting-math.ts:34-41 | for every rate above 200%, in every currency, some inclusive line misses by two units or more under half-up: 200% is the exact threshold |
| AccountingMath.FxResidual | src/lib/accounting-math.ts:49-53 | the plug is non-negative, none exactly when zero, and added on its side makes the two bases equal |
| WorkflowSpec.ReachableFrom | src/lib/workflow/spec.ts:160-171 | the breadth-first search returns exactly the stages joined to the start by a path of transitions |
| WorkflowSpec.OffersExactly | src/lib/workflow/spec.ts:84-93 | a stage offers exactly the transitions of the spec that leave it by name or from anywhere, unless it is terminal or unknown |
| WorkflowSpec.HopExactly | src/lib/workflow/spec.ts:89-93 | one stage leads to another exactly when a transition so offered does |
| WorkflowSpec.CanReachTerminal | src/lib/workflow/spec.ts:177-192 | the early-exit search answers yes exactly when some path leads to a terminal stage |
| WorkflowSpec.ValidateSpec | src/lib/workflow/spec.ts:100-197 | an error is reported if and only if it holds of the spec (each kind by its own condition, the path errors only in an otherwise clean spec), a warning likewise, and there is no error exactly in the valid specs |
| WorkflowSpec.ValidIsUnbroken | src/lib/workflow/spec.ts:100-197 | valid, that is unique keys, one start, an end, sound transitions, known references, no dead end and a way from start to end, is the same as having nothing to report |
| WorkflowSpec.ParseAndValidate | src/lib/workflow/spec.ts:200-209 | corrupt text is reported as unreadable, any other as the validator reports it |
| WorkflowSpec.ValidStart | src/lib/workflow/spec.ts:76-86 | in a valid spec the initial stage exists, is found by its key and can reach a terminal stage |
| WorkflowSpec.ValidNeverStrands | src/lib/workflow/spec.ts:89-93 | in a valid spec every non-terminal stage has a transition, and every transition offered arrives at a stage |
| WorkflowSpec.ValidOffers | src/lib/workflow/spec.ts:133-175 | in a valid spec every stage that is not terminal offers a transition, and every transition arrives at a stage |
| WorkflowSpec.InitialsCount | src/lib/workflow/spec.ts:110-113 | the validator counts as many starts as stages are marked |
| WorkflowSpec.ValidSpecWithTrap | src/lib/workflow/spec.ts:176-193 | a spec that the validator accepts and that holds a trap |
| WorkflowSpec.FinishesExactly | src/lib/workflow/spec.ts:176-193 | every stage reachable from the start can finish, as the comment asks, if and only if no set of non-terminal stages can be entered and has no transition out of it |
| WorkflowSpec.TrappedNeverFinishes | src/lib/workflow/spec.ts:177-192 | from inside such a set no terminal stage is reachable |
| Workflows.Engine.CreateWorkflow | src/domain/workflows.ts:119-139 | a new definition with version 1 as draft of the starter spec, refused without the right or for a used key |
| Workflows.Engine.SaveDraft | src/domain/workflows.ts:166-179 | only the latest draft's text changes, valid or not, and the validator's report on the text is returned; without a draft it is refused |
| Workflows.Engine.OpenRevision | src/domain/workflows.ts:186-197 | one more version, a draft numbered above all others, seeded from the latest version |
| Workflows.Engine.ActivateVersion | src/domain/workflows.ts:214-229 | a valid draft becomes the active version and the one before it is retired; active is idempotent, retired and invalid are refused |
| Workflows.Engine.ArchiveWorkflow | src/domain/workflows.ts:231-237 | archives unless an instance is live |
| Workflows.Engine.StartInstance | src/domain/workflows.ts:261-295 | idempotent per record; binds the active version, enters its initial stage and logs it |
| Workflows.Engine.PerformTransition | src/domain/workflows.ts:343-405 | every check in order, then stage, status, data, deadline and log move together |
| Workflows.Engine.EscalateInstance | src/domain/workflows.ts:496-511 | one overdue row is escalated exactly when its spec parses and its stage escalates |
| Workflows.Engine.EscalateOverdue | src/domain/workflows.ts:484-516 | the loop escalates exactly the due rows of the batch whose stage escalates, and counts the scanned and the escalated |
| WorkflowRuns.StepKeepsInv | src/domain/workflows.ts:119-513 | every service function keeps the engine's invariant: dense versions, valid text in force, unique keys and records, bound instances on a route |
| WorkflowRuns.LogIsAPath | src/domain/workflows.ts:280-393 | in every reachable store a log starts at the initial stage, each hop is a transition of the bound spec, replay gives the current stage, completed means terminal, escalations are due and at most one per stage entered, a deadline stands exactly while the live stage has one, and the last gate's fields are filled |
| WorkflowRuns.RouteReplays | src/domain/workflows.ts:374-393 | replaying a route row by row, each leaving the stage reached so far, ends at its last stage |
| WorkflowEffects.CreateExactly | src/domain/workflows.ts:119-139 | a key is taken once; what a new definition is, and that nothing else changes |
| WorkflowEffects.SaveExactly | src/domain/workflows.ts:166-179 | a save is accepted exactly while the last version is a draft, and changes its text alone |
| WorkflowEffects.OpenExactly | src/domain/workflows.ts:186-197 | a revision opens exactly while the last version is no draft |
| WorkflowEffects.OpenEffect | src/domain/workflows.ts:186-197 | and adds the next draft, with the text in force, and changes nothing else |
| WorkflowEffects.ActivateExactly | src/domain/workflows.ts:214-229 | a version can be activated exactly if it is a valid draft, or in force already |
| WorkflowEffects.ActivateEffect | src/domain/workflows.ts:214-229 | the draft comes into force, the version before it is past, no text or number changes; again, nothing changes |
| WorkflowEffects.ArchiveExactly | src/domain/workflows.ts:231-237 | a definition is archived exactly while no record bound to it is live |
| WorkflowEffects.DueExactly | src/domain/workflows.ts:251-254 | a deadline stands exactly for a stage with hours, and lies that many hours ahead to the millisecond |
| WorkflowEffects.StartTwice | src/domain/workflows.ts:261-263 | a record that is governed already is left alone |
| WorkflowEffects.StartExactly | src/domain/workflows.ts:265-278 | any other starts exactly if the definition named has a version in force and the caller may |
| WorkflowEffects.StartBinds | src/domain/workflows.ts:265-293 | and then enters the start of that version, every field given; nothing else changes |
| WorkflowEffects.PerformExactly | src/domain/workflows.ts:343-378 | on a reachable store a transition succeeds exactly on a live record whose bound spec has one of that name leaving its stage, wildcards included, whose permission and gates the request meets |
| WorkflowEffects.PerformEffect | src/domain/workflows.ts:380-393 | and then every field of the record is what it should be: stage, status, merged data, deadline, log; nothing else changes |
| WorkflowEffects.EscalateExactly | src/domain/workflows.ts:484-511 | the job marks exactly the due records of its batch and changes nothing else of them or of others |
| WorkflowEffects.EscalationsCounted | src/domain/workflows.ts:493-516 | it reports as many escalations as there were records due |
| WorkflowEffects.ScansCounted | src/domain/workflows.ts:492-516 | and as many scanned as there were live records past their deadline and not escalated since |
| WorkflowRuns.MeaningIsFrozen | src/domain/workflows.ts:157-294 | over every run text that left draft never changes, an instance's spec is constant for life, logs only grow, completed instances and archived definitions never change, and an archived definition has no live instance |
| WorkflowRuns.RunPreserves | src/domain/workflows.ts:119-513 | the same as a relation between the store before and after any run |
| WorkflowRuns.VersionsRead | src/domain/workflows.ts:186-229 | the version statuses in number order read `draft` or `retired* active draft?` |
| WorkflowRuns.PerformedExactly | src/domain/workflows.ts:343-378 | the same in terms of the engine's own search for the transition |
| WorkflowRuns.LiveInstancesCanMove | src/domain/workflows.ts:347-361 | a live instance always has a transition it can take, and can never fail with a corrupt or invalid definition |
| WorkflowOutcomes.CompletesExactly | src/domain/workflows.ts:343-405 | a record of a reachable store can still be completed, by any run of any operations, if and only if its bound spec leads from its stage to a terminal one; transitions on it alone then suffice |
| WorkflowOutcomes.RunAdvances | src/domain/workflows.ts:119-513 | over every run a record moves only along paths of the spec it was bound to |
| WorkflowOutcomes.TrappedForever | src/domain/workflows.ts:343-405 | a record inside a trap of its spec stays live over every run |
| WorkflowOutcomes.UntrappedCanComplete | src/domain/workflows.ts:343-405 | if its spec holds no trap, every record of every reachable store can be completed |
| WorkflowOutcomes.StarterIsValid | src/domain/workflows.ts:94-107 | the starter spec passes the validator for every catalog of permissions and roles |
| WorkflowOutcomes.FreshWorkflowStarts | src/domain/workflows.ts:119-295 | from an empty store a workflow can be created, activated as it is and started, so the theorems speak of stores with live instances |
| WorkflowRuns.RevisionSeededFromActive | src/domain/workflows.ts:186-197 | though seeded from the latest version of any status, a revision always starts from the active one |
| History.ShapedIsRegular | src/domain/answers.ts:89-182 | the pairwise shape condition on statuses is exactly `past* current? open?` |
| History.OpenIsLast | src/domain/answers.ts:133-153 | the version being worked on is always the last one |
| History.PromotedGood | src/domain/answers.ts:160-173 | putting the open version in force retires every other and keeps numbering and shape |
| Answers.AnswerRecord.UpdateDraft | src/domain/answers.ts:115-129 | question and draft text change together or not at all, with every refusal |
| Answers.AnswerRecord.CreateRevision | src/domain/answers.ts:133-141 | adds the next draft unless one is open |
| Answers.AnswerRecord.SubmitForApproval | src/domain/answers.ts:143-153 | the draft becomes pending; an approved answer keeps showing as approved |
| Answers.AnswerRecord.Approve | src/domain/answers.ts:160-173 | the pending version is approved, the one before it retired, and the identity shows the new text, number and version |
| Answers.AnswerRecord.Retire | src/domain/answers.ts:175-182 | the approved version and the identity are retired together |
| Answers.OneCurrentVersion | src/domain/answers.ts:89-182 | in every reachable store: dense numbers, `retired* approved? (draft or pending)?`, approved status exactly when a version is approved, and then text, number and current version agree with it |
| Answers.SubmittedTextIsImmutable | src/domain/answers.ts:115-173 | from submission on, no run changes the text of a version or removes it |
| Answers.CreateExactly | src/domain/answers.ts:89-105 | what input is accepted, and what a new answer is |
| Answers.UpdateExactly | src/domain/answers.ts:115-129 | an edit is accepted exactly while the last version is a draft; it sets the question and that draft's text, trimmed, and nothing else |
| Answers.ReviseExactly | src/domain/answers.ts:133-141 | a revision is accepted exactly while no version is being worked on; it adds the next draft and changes nothing else |
| Answers.SubmitExactly | src/domain/answers.ts:143-153 | exactly a draft with something written in it is submitted |
| Answers.ApproveExactly | src/domain/answers.ts:160-173 | exactly a pending version is approved; it comes into force and is shown, the one before it is retired |
| Answers.RetireExactly | src/domain/answers.ts:175-182 | retiring takes the version in force, and the answer, out of force and changes nothing else |
| Answers.QuestionChangesExactly | src/domain/answers.ts:115-129 | the question, kept on the identity, changes in exactly one way, an accepted draft edit that gives a different one, and no other identity field changes with it |
| Answers.QuestionStays | src/domain/answers.ts:115-129 | over every run without such an edit the question stays |
| Answers.ApprovedQuestionCanChange | src/domain/answers.ts:115-129 | the question shown with an approved answer can be changed without another approval exactly while a draft is open |
| Knowledge.ArticleRecord.UpdateDraft | src/domain/knowledge.ts:107-125 | the open version's title and body, and the article's own title, change; everything else stays |
| Knowledge.ArticleRecord.SubmitForReview | src/domain/knowledge.ts:127-136 | the draft goes into review; a published article keeps showing as published |
| Knowledge.ArticleRecord.Publish | src/domain/knowledge.ts:140-153 | the reviewed version is published, the one before it superseded, and the article shows it |
| Knowledge.ArticleRecord.CreateRevision | src/domain/knowledge.ts:155-163 | adds the next draft unless one is open |
| Knowledge.ArticleRecord.Archive | src/domain/knowledge.ts:165-169 | marks the article archived |
| Knowledge.OneCurrentVersion | src/domain/knowledge.ts:81-169 | in every reachable store: dense numbers, `superseded* published? (draft or in review)?`, and body, number and current version are those of the published version |
| Knowledge.FreshArticle | src/domain/knowledge.ts:81-98 | a created article satisfies the invariant and its title agrees |
| Knowledge.PublishedTextIsImmutable | src/domain/knowledge.ts:107-163 | from publication on, no run changes the text of a version |
| Knowledge.CreateExactly | src/domain/knowledge.ts:81-98 | what input is accepted, and what a new article is |
| Knowledge.UpdateExactly | src/domain/knowledge.ts:107-125 | an edit is accepted exactly while the last version is a draft or in review; it sets that version's text and the title, and nothing else |
| Knowledge.SubmitExactly | src/domain/knowledge.ts:127-136 | exactly a draft goes into review |
| Knowledge.PublishExactly | src/domain/knowledge.ts:140-153 | exactly a version in review is published; it comes into force and is shown, the one before it is superseded |
| Knowledge.ReviseExactly | src/domain/knowledge.ts:155-163 | a revision is accepted exactly while no version is being worked on; its title is the one given, or the article's |
| Knowledge.ArchiveExactly | src/domain/knowledge.ts:165-169 | archiving sets the status and the mark and nothing else |
| Knowledge.TitleDivergesExactly | src/domain/knowledge.ts:107-153 | the article's title leaves the published version's title in exactly one way, a draft edit with another title, and every publication restores it |
| Knowledge.TitleStaysPublished | src/domain/knowledge.ts:107-163 | over every run without such an edit the article shows the published title |
| Knowledge.ReviewTextChangesExactly | src/domain/knowledge.ts:107-153 | the text of a version under review changes in exactly one way, an accepted edit that gives another text, and the version leaves review exactly by publication |
| Knowledge.UneditedKeepsText | src/domain/knowledge.ts:107-153 | over every run without such an edit a version under review keeps its text, published or not |
| Knowledge.SubmittedIsPublished | src/domain/knowledge.ts:127-153 | without such an edit between submission and publication, whatever else happens, the article publishes as its title and body what was submitted |
| Knowledge.ReviewDoesNotFreeze | src/domain/knowledge.ts:107-153 | create, submit, edit, publish: a run that publishes a body other than the submitted one |
| Knowledge.ArchivedForever | src/domain/knowledge.ts:100-105 | no run changes an archived article |
| Approvals.CreatedInv | src/domain/approvals.ts:68-93 | a created request starts at step 1 with every step pending |
| Approvals.ApprovalRequest.Decide | src/domain/approvals.ts:98-147 | only the current step is decided; the last approval closes the request, any other decision closes it at once |
| Approvals.ApprovalRequest.Cancel | src/domain/approvals.ts:150-158 | a pending request is cancelled by its requester or a manager, its steps untouched |
| Approvals.SequentialApproval | src/domain/approvals.ts:68-158 | in every reachable request steps before the current one are approved and later ones pending, no step is decided out of order, and the request is approved exactly when every step is |
| Approvals.ClosedStaysClosed | src/domain/approvals.ts:98-158 | no run changes a closed request |
| Approvals.DecidedOnce | src/domain/approvals.ts:114-122 | a decided step is never written again |
| Approvals.AtMostOneDecisionAStep | src/domain/approvals.ts:98-132 | the decisions a run gets accepted are the steps it decided, at most n in all |
| Approvals.CreateExactly | src/domain/approvals.ts:68-93 | a request is created for named approvers, one pending step each, in order |
| Approvals.DecideExactly | src/domain/approvals.ts:98-132 | a decision is accepted exactly from the named approver or a holder of the right; the current step takes that decision, its time and its approver, and any decision but an approval before the last step closes the request with it |
| Approvals.CancelExactly | src/domain/approvals.ts:150-156 | a pending request is cancelled exactly by its requester or a manager |
| Approvals.DecisionsAreRecorded | src/domain/approvals.ts:114-122 | over every run the verdicts on record are the accepted decisions, in order |
| Approvals.StatusFollowsDecisions | src/domain/approvals.ts:98-132 | a request is approved exactly if there was one accepted decision for each step and all were approvals, rejected or returned exactly if one was that |
| Attendance.AttendanceDay.DeriveState | src/domain/attendance.ts:53-62 | the loop over the sorted events computes the clock state |
| Attendance.AttendanceDay.ClockIn | src/domain/attendance.ts:79-97 | start, lateness past the grace period and the event are recorded, or it is refused |
| Attendance.AttendanceDay.StartBreak | src/domain/attendance.ts:99-104 | only while working |
| Attendance.AttendanceDay.EndBreak | src/domain/attendance.ts:106-117 | the rounded length of the latest break is added |
| Attendance.AttendanceDay.ClockOut | src/domain/attendance.ts:119-139 | end, worked, early and overtime minutes are recorded, or one of three refusals |
| Attendance.AttendanceAccounting | src/domain/attendance.ts:51-139 | over every run of a day the events follow the clock automaton, the derived state is the automaton's, breaks are the sum of rounded breaks, and worked minutes with k breaks are within (k+1)/2 minutes of the true working time; late status means late minutes, and nobody leaves early and works over |
| Attendance.StateIsAutomatonState | src/domain/attendance.ts:53-62 | scanning for an open break agrees with the parity of the events |
| Attendance.BreakError | src/domain/attendance.ts:106-117 | k rounded breaks are within k/2 minutes of the time really spent, which fits between first and last event |
| Attendance.MinsExactly | src/domain/attendance.ts:51 | a span counts as nothing before it begins, else as the nearest whole minutes, a half counting up |
| Attendance.CheckInExactly | src/domain/attendance.ts:79-97 | a check-in is accepted exactly once; late by the minutes past the expected start if they exceed the grace period |
| Attendance.StartBreakExactly | src/domain/attendance.ts:99-104 | a break starts exactly while the clock runs |
| Attendance.EndBreakExactly | src/domain/attendance.ts:106-117 | a break ends exactly while one is open, and its rounded length joins the break minutes |
| Attendance.CheckOutExactly | src/domain/attendance.ts:119-123 | a check-out is accepted exactly while the clock runs, with the refusal that fits otherwise |
| Attendance.CheckOutEffect | src/domain/attendance.ts:125-138 | leaving before the expected end is early, after it overtime; what was worked is the rounded span less the breaks |
| Personal.RecentItems.TrackRecent | src/domain/personal.ts:85-96 | upsert by key, then delete everything past the 20 newest |
| Personal.RecentItems.ListRecent | src/domain/personal.ts:98-100 | the `take` newest rows, newest first and as many as there are: no row left out is newer than one shown |
| Personal.PruningIsExactLru | src/domain/personal.ts:83-100 | after any views at increasing times the pruned store is exactly the first 20 of the full history's list: pruning each time equals cutting once |
| Personal.FullListIsLru | src/domain/personal.ts:85-92 | that reference list holds exactly the last view of every key, newest first |
| Personal.CutCommutes | src/domain/personal.ts:93-95 | cutting before moving a key to the front, or only after, leaves the same first entries |
| Personal.ItemExactly | src/domain/personal.ts:87-91 | what a view stores, each part in its place and cut at its length |
| Personal.NamelessIsIgnored | src/domain/personal.ts:86 | a view without a type or an id leaves the rows alone |
| Personal.ViewIsTracked | src/domain/personal.ts:85-95 | any other is among the rows afterwards, of which there are at most 20 |
| Calendar.AgreesWithStandard | src/domain/subscriptions.ts:119-125 | months laid end to end agree with ECMA-262 section 21.4.1.3 at every new year, before and after 1970 |
| Calendar.MonthsAgreeWithStandard | src/domain/subscriptions.ts:119-125 | every month of every year starts where the table of ECMA-262 section 21.4.1.4 puts it |
| Subscriptions.NextRenewal | src/domain/subscriptions.ts:119-125 | the next date lies exactly the calendar months of the cycle ahead, on the same day of the month or, if the month is too short, as far into the next |
| Subscriptions.RenewalAdvances | src/domain/subscriptions.ts:119-125 | a renewal advances by exactly the lengths of the calendar months stepped over, starting with the current one: 28 to 31, 89 to 92, or 365 to 366 days |
| Subscriptions.RenewalDayOfMonth | src/domain/subscriptions.ts:119-125 | the day of the month survives exactly when the target month has it, and otherwise runs over into the next |
| Subscriptions.RenewalsIncrease | src/domain/subscriptions.ts:111-125 | repeated renewal strictly increases the date |
| Subscriptions.SubscriptionStore.Update | src/domain/subscriptions.ts:90-108 | a new renewal date clears the ledger, the same date does not |
| Subscriptions.SubscriptionStore.Renew | src/domain/subscriptions.ts:111-117 | the given or the computed date, active again, ledger cleared |
| Subscriptions.SubscriptionStore.GenerateReminders | src/domain/subscriptions.ts:158-188 | every live row's ledger takes in the thresholds reached, and the two counters are exact |
| Subscriptions.LedgerRefines | src/domain/subscriptions.ts:97-188 | every store operation acts on one row's ledger as a ledger step, or not at all |
| Subscriptions.StoreLedgersAreExact | src/domain/subscriptions.ts:90-188 | over every run at non-decreasing times each ledger holds exactly the thresholds reached at the last look at the current date, with at most one round per distinct threshold |
| Subscriptions.UpdateExactly | src/domain/subscriptions.ts:90-108 | an update sets what it is given, and empties the ledger exactly if the renewal date changes |
| Subscriptions.RenewExactly | src/domain/subscriptions.ts:111-117 | a renewal makes the subscription active with an empty ledger, at the date given or one cycle past the present date |
| Subscriptions.RemindExactly | src/domain/subscriptions.ts:164-186 | the job adds to a ledger exactly the thresholds reached, and only for live, active or trial subscriptions not past due |
| Subscriptions.RemindersCounted | src/domain/subscriptions.ts:165-186 | it counts as notified those whose ledger grew, and as scanned those it may remind |
| Reminders.FiresExactly | src/domain/subscriptions.ts:166-181 | a round fires exactly when some threshold lies between the days left now and those at the previous look |
| Reminders.LedgerIsExact | src/domain/subscriptions.ts:166-188 | over every run the ledger is the set of thresholds not below the latest days left, and rounds are at most the distinct thresholds |
| Reminders.RerunIsNoOp | src/domain/subscriptions.ts:173-181 | running again on the same day sends and changes nothing |
| Reminders.DaysLeftExactly | src/domain/subscriptions.ts:168 | days left are counted up: the least number of whole days that reaches the due date |
| Reminders.JobExactly | src/domain/subscriptions.ts:169-181 | after the job a ledger holds what it held and, if it looked, every threshold not below the days left |
| Reminders.DateChangeRearms | src/domain/documents.ts:147-165 | after a renewal the next run fires exactly if some threshold is reached |
| Documents.DocumentStore.Renew | src/domain/documents.ts:147-165 | new date, number, version, status and an empty ledger, with each refusal in order |
| Documents.DocumentStore.RemindOne | src/domain/documents.ts:228-246 | one document's ledger and status after the job, and whether its owner is notified |
| Documents.DocumentStore.GenerateReminders | src/domain/documents.ts:211-250 | the loop treats each document of the batch so, and counts the scanned and the notified |
| Documents.LeadIsRespected | src/domain/documents.ts:185-209 | whatever thresholds are configured, no reminder goes out earlier than the configured lead |
| Documents.LedgerRefines | src/domain/documents.ts:147-246 | every store operation acts on one document's ledger as a ledger step |
| Documents.StoreLedgersAreExact | src/domain/documents.ts:147-246 | over every run each document's ledger is exact |
| Documents.StatusExactly | src/domain/documents.ts:105-111 | expired once the date has passed, expiring while less than 31 days remain, else valid |
| Documents.RenewExactly | src/domain/documents.ts:147-165 | a renewal needs a date; what it sets, and that nothing else changes |
| Documents.RemindExactly | src/domain/documents.ts:221-246 | the job adds exactly the thresholds reached to the ledgers of live documents of its batch whose date has not passed, and marks those expiring within 30 days |
| Documents.RemindersCounted | src/domain/documents.ts:221-249 | notified are the owners of the documents whose ledger grew; scanned, the documents the query may return |
| Importers.PreviewImport | src/domain/importers.ts:83-100 | refuses an unknown import, a missing right, a missing company and an unmapped column, in that order; else flags exactly the rows repeating an existing or earlier key, with four right counts |
| Importers.FlagDuplicates | src/domain/importers.ts:90-94 | the loop that remembers every key seen |
| Importers.CommitImport | src/domain/importers.ts:102-126 | the same refusals; else creates, skips and reports exactly the rows it should |
| Importers.CommitRows | src/domain/importers.ts:108-120 | the loop that remembers only keys it tried to create, for any pattern of failing creates; the report names each row in error, in order, with its issues or what its create threw |
| Importers.BuildIsWellBuilt | src/domain/importers.ts:71-81 | after mapping, a row has data exactly when it has no issue |
| Importers.PreviewPredictsCommit | src/domain/importers.ts:83-120 | for every text, mapping, existing keys and failures: duplicates are the skipped, importable is created plus failed creates, and every row is counted once |
| Importers.SameVerdicts | src/domain/importers.ts:92-115 | both loops judge every row alike although they grow `seen` differently |
| Importers.CreatedKeysAreNew | src/domain/importers.ts:114-118 | no key is created twice or over an existing one |
| Importers.ObjectsAreRows | src/lib/csv.ts:39-49 | the first line names the columns, every later one is a row |
| Importers.ObjectReads | src/lib/csv.ts:42-46 | under each header a row holds the trimmed cell of the last column so headed, empty if the row is short |
| Importers.MappedReads | src/domain/importers.ts:74-76 | a mapped column reads the cell under the header it is mapped to; an unmapped or missing one is empty |
| Importers.IssuesExactly | src/domain/importers.ts:34-53 | a row carries exactly the issues there are: no name, a currency not of three characters, for customers terms that are not a number |
| Importers.DataExactly | src/domain/importers.ts:34-53 | a row without issues carries its own fields, trimmed, each in its place |
| Importers.KeyExactly | src/domain/importers.ts:55 | rows whose codes, or else names, differ only in case have the same key |
| Importers.LowerKeepsApart | src/domain/importers.ts:55 | and rows with the same key differ in nothing else there |
| Importers.BuildExactly | src/domain/importers.ts:71-81 | an import is refused for want of the name column alone; else there is one row for each line |
| Importers.AdmittedExactly | src/domain/importers.ts:83-89 | the two importers there are, with the right, a company and the name column |
| Importers.FailedExactly | src/domain/importers.ts:122 | a batch has failed exactly if there were errors and nothing was created |
| Notifications.NotificationStore.Notify | src/domain/mutation.ts:77-115 | live rows of the group are bumped, other recipients get a row, unkeyed events always insert |
| Notifications.NotificationStore.MarkRead | src/domain/notifications.ts:97-102 | the user's named rows, archived ones included, take the new state |
| Notifications.NotificationStore.ArchiveNotifications | src/domain/notifications.ts:104-106 | the user's named rows are archived |
| Notifications.NotificationStore.MarkAllRead | src/domain/notifications.ts:108-110 | the user's unread rows become read |
| Notifications.NotificationStore.SetPreference | src/domain/notifications.ts:126-133 | one channel of one known category is set for the user, an unknown category is refused |
| Notifications.RecipientsFacts | src/domain/notifications.ts:139-148 | recipients are the named users, each once, without the excluded and the muted |
| Notifications.PreferenceTakes | src/domain/notifications.ts:126-148 | a preference changes who receives for its user, its category and the in-app channel, and nothing else |
| Notifications.NotifyKeepsInv | src/domain/mutation.ts:92-114 | notify keeps at most one live row per user and group |
| Notifications.NotifyReaches | src/domain/mutation.ts:92-114 | after a keyed notify each allowed recipient has exactly one live row for the group, unread, with the new title, body and time |
| Notifications.UnkeyedExactly | src/domain/mutation.ts:114 | an event without a key leaves the old rows in place and adds one row for each recipient, in their order, unread and as the event says |
| Notifications.UnkeyedReachesOnce | src/domain/mutation.ts:114 | so each recipient gets exactly one |
| Notifications.KeyedFreshens | src/domain/mutation.ts:97-108 | a keyed event gives the recipients' live rows of its key the new text, time and unread state, and leaves every other row alone |
| Notifications.KeyedAdds | src/domain/mutation.ts:109-111 | and adds rows as the event says, for recipients without a live one only |
| Notifications.HeadExactly | src/domain/notifications.ts:21-24 | a kind's category is what stands before its first dot, if that is a category, else system |
| Notifications.MarkReadKeepsInvExactly | src/domain/notifications.ts:97-102 | marking read keeps that rule if and only if it revives no archived row beside another of its group |
| Notifications.LiveIdsNeverClash | src/domain/notifications.ts:97-102 | on rows that are not archived it always does |
| Notifications.MarkReadCanDuplicate | src/domain/notifications.ts:97-102 | a store where marking an archived row read leaves two live rows |
| Notifications.MarkReadExactly | src/domain/notifications.ts:97-102 | state and time of the user's named rows change, nothing else |
| Notifications.ArchiveExactly | src/domain/notifications.ts:104-106 | the user's named rows are archived, nothing else changes |
| Notifications.MarkAllReadExactly | src/domain/notifications.ts:108-110 | no row of the user is unread afterwards; only those that were have changed |
| Notifications.OneLiveRowPerGroup | src/domain/mutation.ts:77-115 | over every run without such a revival each user has at most one live row per group |
| Notifications.GroupEntries | src/domain/notifications.ts:65-80 | the grouping loop returns the groups in order of first appearance, each with its first row and that row's link and category, its ids in order, its count and whether one is unread |
| Notifications.GroupsPartition | src/domain/notifications.ts:65-80 | the groups together hold every listed row exactly once |
| Notifications.ListedExactly | src/domain/notifications.ts:55-62 | the rows listed are the user's rows that are not archived, or the unread, newest first |
| Notifications.ListedOnce | src/domain/notifications.ts:55-62 | each of them once |
| Notifications.CategoryFilters | src/domain/notifications.ts:63 | the filter keeps exactly the entries of the category, or all without one |
| Notifications.CategoryKeepsOrder | src/domain/notifications.ts:63 | and their order |
| Notifications.LinkExactly | src/domain/notifications.ts:27-41 | a link leads to the section of the entity, and there to the record, but for attendance corrections |
| Notifications.UnreadCounted | src/domain/notifications.ts:82 | the unread count is the number of unread entries |
| Notifications.ListNotifications | src/domain/notifications.ts:54-84 | groups describe the rows of the category among the newest, and the unread count is over all of them |
| Campaigns.CampaignStore.RecomputeSpend | src/domain/campaigns.ts:194-202 | the figure becomes the sum of the campaign's non-target spend metrics |
| Campaigns.CampaignStore.AddMetric | src/domain/campaigns.ts:208-223 | adds a metric and recomputes for non-target spend only |
| Campaigns.CampaignStore.DeleteMetric | src/domain/campaigns.ts:226-235 | removes a metric of this campaign and recomputes for non-target spend only |
| Campaigns.CampaignStore.BackfillSpend | src/domain/campaigns.ts:246-272 | the loop recomputes or migrates each campaign and both counters are exact |
| Campaigns.SpendStaysDerived | src/domain/campaigns.ts:194-235 | over every run of adds and deletes every campaign's figure is the derived sum |
| Campaigns.SpendWithout | src/domain/campaigns.ts:226-235 | taking a metric out takes its value out of its own campaign's sum and no other |
| Campaigns.AddExactly | src/domain/campaigns.ts:208-223 | a metric is added as given, under a new id; the figure is written for non-target spend only |
| Campaigns.DeleteExactly | src/domain/campaigns.ts:226-229 | a metric is deleted exactly if it is one of the open campaign's |
| Campaigns.DeleteEffect | src/domain/campaigns.ts:230-233 | the other metrics stay, in order; the figure is written for non-target spend only |
| Campaigns.BackfillEstablishes | src/domain/campaigns.ts:246-272 | the backfill makes a figure the derived one if and only if the campaign had spend metrics or a figure that is not negative, and never changes the figure of a campaign without spend metrics |
| Campaigns.NegativeLegacyStays | src/domain/campaigns.ts:257-258 | a negative legacy figure without spend metrics is left, and disagrees with the sum |
| Campaigns.SecondBackfillIsIdle | src/domain/campaigns.ts:246-272 | a second backfill migrates nothing and changes nothing |
| Campaigns.BackfillExactly | src/domain/campaigns.ts:246-268 | the backfill adds, behind the metrics there are, one migrated spend metric with the legacy figure for each campaign it counts as migrated |
| Campaigns.HasSpendExactly | src/domain/campaigns.ts:251 | a campaign counts as having spend exactly if it has a non-target spend metric |

## Left out

- The permission engine and scope filters: parameters here.
- The database: transactions, uniqueness constraints, interleaved requests, and the order of rows with equal sort keys.
- Audit rows, system events, background-job rows, and the notifications and webhooks that other service functions send; the reminder jobs only count theirs.
- Input schemas beyond the trimming and length limits of answer and article texts; descriptive fields such as tags, brand, notes, prices and links.
- Time zones: `nextRenewal` is modelled on UTC fields, and a day of attendance is the set of its own events.
- Attendance corrections, which overwrite fields directly.
- Cancelling and archiving a subscription, updating workflow metadata, marking an article reviewed, answer requests and usage: single field writes.
- Queries for lists and pages, `availableTransitions` and the search for a module's active workflow.
- Ledger posting, receivables, payables, bank and budgets: not part of this model.
- Money.MinorUnits: upper-casing covers ASCII letters only, as does the lower-casing of import keys.
- Csv.ParseCsv: characters are Unicode scalar values, so lone surrogates do not occur; a cell value that is not a string enters as its text.
- AccountingMath.LineAmounts: an inclusive rate of exactly -100% divides by zero; the model returns no amounts instead of a non-finite decimal.
- Workflows.Engine.EscalateOverdue: the 500 rows that the query returns, in no given order, are a set parameter; the same holds for the 2000 rows of Documents.DocumentStore.GenerateReminders.
- Reminders.LedgerIsExact: ledgers are sets, so the order of stored thresholds and repeated entries are not modelled.
- Approvals.ApprovalRequest.Decide: a decision other than approved, rejected or changes, which the source's type rules out, is refused.
- Personal.RecentItems.TrackRecent: one user's rows; those of other users are never touched by the source either.
- Importers.CommitRows: which create calls fail, and what they throw, is a parameter, not the outcome of creating customers or suppliers.
- Importers.CommitImport: the file name and the stored batch row beyond its counts and status.
- Answers.AnswerRecord.UpdateDraft: brand, product, country, category and language, which only the permission scope reads.
- Knowledge.ArticleRecord.UpdateDraft: category, tags, brand, product, country, reviewer and review date, which only the permission scope and list queries read.
- Subscriptions.SubscriptionStore.Update: descriptive fields other than owner and cycle, and the notification of a new owner.
- Documents.DocumentStore.GenerateReminders: sorting the configured thresholds, of which only membership matters.
- Parsing stored JSON into a spec: its text either holds one or is corrupt, and the parser's message is not modelled.
