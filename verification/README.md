# Verified models of bivouac's protocols

bivouac starts coding sessions on cloud instances, brings their commits home and takes the
sessions down again. This project models the parts of it that are hardest to get right, in Dafny,
and proves what each is for. `dafny verify dfyconfig.toml` checks everything.

| part | modules | what is proved |
|---|---|---|
| Replay of a session's commits | Git, Replay, ReplayCoverage, ReplayOnce, MergeCheck, ReplayLimits | a resumed replay skips only what is on the branch; over any runs, conflicts finished by hand, aborts and crashes every commit lands exactly once and in order, or was dropped as empty; everything a run puts on the branch is well signed |
| Retirement of a session | Retirement, RetirementInvariant, World, RetireSession | over any history of calls, crashes, agent commits and re-attaches each removal of a checkout is safe, and the work in it is home unless one of two named harms was done before, which in a benign world never is; unforced, nothing uncommitted is removed with the worktree and nothing is accepted beside it; a receipt means everything is gone and every attachment was closed; a call completes unless a step of that very call failed or met one of the obstacles named |
| Pkl files | PklScan, PklString, PklEdit, PklImageLine, PklLastWrite, SortedKeys, PklRender, PklRenderLoops, PklRead, PklBlocks, PklRoundTrip, PklEditRendered, PklTokens, PklValues, PklRefusals | the scanner's loop is a lexer without look-ahead; the last edit wins exactly when the scan ends at top level; editing commutes with rendering; what is written is what is scanned back, and reading the written values gives them back |
| Managed block of an instructions file | Splice | the user's text is kept character for character; the last write wins, for every file, exactly when the block has no end marker line of its own |
| Shell quoting | ShellQuote | through two shells the arguments arrive unchanged, for all strings |
| Image retention | ImageMarkers, ImageOrder, ImagePrune, ImagePruneRun | a launch takes the newest of exactly the images that are ours; a prune keeps the newest, agrees with a launch, resumes exactly where it stopped, and deletes only what it has just found eligible |
| Herdr tabs | HerdrTabs, HerdrCommands, HerdrAttach, HerdrAttaches | no pane is ever sent a command twice; where nobody closes anything an attach without an error leaves the layout complete and started, exactly unless the default tab it took over spoils it, and there is an error only where a command failed or a tab had no pane |
| Following a detached unit | Journal, Follower | the output is always the journal up to its cursor, and on a finished unit all of it; a running unit is never started over, and a start takes effect twice exactly where the first was lost and its unit had ended |

## How the world is modelled

- Git commits are values that contain their parents, as hashes do, so ancestry is a partial order
  by construction. About picks one thing only is assumed: picking again the commit that git itself
  has just landed at HEAD is empty. Any other pick may land, be dropped or stop.
- Which commits git takes for the same change is a given relation (`Local.alike`).
- A store update is one step, and a process may die between any two steps. External commands fail,
  succeed, or fail having taken effect all the same. What each moment has in store -- what fails,
  what the agent and other clients do if they get their turn, how a close ends, what becomes of each
  pick -- is a function of the moment that the program cannot change (`World.Fortune`,
  `HerdrCommands.Moment`, `Follower.Moment`), so a claim that depends on the world is a claim about
  that function. All that happens to a session is on record as a sequence of events, each with the
  state it happened in (`World.History`).
- The agent moves its branch, and a client that began attaching reports so, at any moment of a call.
  That the user moves the destination branch only between calls is a hypothesis: after `Validate`
  (internal/lifecycle/retirement.go:263) nothing reads HEAD again, so a branch moved later still is
  not noticed, and the removal is then safe for the verified head, not for the moved one.
- The check-and-remove script on the instance is one step.
- A string in the Pkl, splice and quoting models is the file's or argument's bytes, a `char` each.

## What the proofs show about the code

- Two narrow things can leave a commit behind, and nothing else can (`World.StrayedExactly`;
  `World.RemovedWorkIsHome`, for every removal of every history). A check is recorded whose tip the
  branch, rewound between the read and the fetch, no longer held, with a commit nobody accounted for
  (`TipAccountedFor`, exact; `RewoundFetchPasses`, such a check, for which an earlier one must have
  fetched the commit). Or a replay begins from a record that makes it skip a stopped pick whose
  commit never landed (`MovedHeadReadAsResolved`, exact), which such a record does after a run that
  died between its first pick and its first save (`TrackLostExactly`, exact; `DyingAtRiskMisleads`,
  such a run) or after the user moved the branch on (`CommitAfterAbortIsSkipped`). Where the agent
  only adds commits between a read and its fetch, no run dies in that window and the user's moves
  leave no such record, neither happens (`World.BenignKeeps`, `RetireSession.Machine.AnyHistory`).
- A conflict whose record was never written can land twice, in every state with one that can be
  reached (`UnrecordedConflictLandsTwice`); finishing an open pick by hand is safe exactly if the
  journal has recorded it (`SafeIffRecorded`), which is what exactly-once asks.
- A replay base equals the previous verified head except where the check goes on from a record made
  elsewhere (`RecordedBase`, exact), as one does that outlives an acceptance whose range was empty
  (`BaseMayPredateTheVerifiedHead`, three checks). It is always on the history of that head.
- A delete's last acceptance need not be its newest check, because an acceptance is replaced in
  place (`RecordedLast`, exact; `DeleteMayKeepAnOlderCheckLast`). A merge's always is.
- A file whose scan ends inside a bracket, comment or string gets one more image line at the next
  edit, which is not read (`LastWriteWins` and `ReadsBack`, exact); inside a bracket this goes on for
  ever (`UnclosedNeverLands`).
- An instructions file with a line that is the end marker makes the managed file grow at every
  write (`RenderedBlock` and `RepeatedWrites`, exact).
- IDs are an order exactly when no two numbers among them are equal and no other ID stands between
  two numbers that strings order the other way round (`WhenIdsAreOrdered`); "9", "10", "1a" are not
  (`MixedIdsGoRound`). The newest images are the same for every listing exactly when the images are
  ordered (`SameForEveryListing`).
- A default tab taken over is renamed pane and all, but its pane stays listed under its old name. A
  later pane of that name is then taken to be there: the attach reports nothing and the layout is
  incomplete, in exactly that case (`LayOutTabs`, exact; `OddNameSpoils`, such an input).
- A unit that is gone after a reboot in the middle of a run never counts as finished: as long as
  nobody starts it the follower goes on asking until its context ends, it gives up, or a read is
  refused (`Follower.Detached.Follow`).
- A start whose reply was lost is sent again if its unit has ended before the next status: the switch
  then runs twice, and in no other case (`Follower.TwiceExactly`, exact).

## Model

| member | source | states |
|---|---|---|
| Git.ReachTransitive | internal/lifecycle/replayprogress.go:255-261 | ancestry, as `merge-base --is-ancestor` answers it, is transitive |
| Git.AncestorAntisymmetric | internal/lifecycle/replayprogress.go:255-261 | two commits that are ancestors of each other are one commit |
| Replay.Checkout.ResumeAt | internal/lifecycle/replayprogress.go:181-224 | where a run starts, its base and whether to amend, decided as the pure rule of the journal decides it |
| Replay.Checkout.CherryPick | internal/lifecycle/merge.go:300-339 | one pick lands on HEAD, is dropped or stops, and touches nothing else |
| Replay.Checkout.PickFrom | internal/lifecycle/merge.go:300-341 | the loop over the commits left, with a durable save after each, dying at any of them |
| Replay.Checkout.ReplaySignedRange | internal/lifecycle/merge.go:253-341 | one whole run equals the pure account of it, from any journal and for any outcome of every pick; everything it puts on the branch is well signed; the branch is only added to, except that a HEAD finished by hand is replaced by the same change with a good signature, which a run that finishes has always done |
| Replay.AmendSigns | internal/lifecycle/merge.go:356-371 | the amend gives HEAD a good signature and changes neither its change nor what is under it |
| Replay.RunSigns | internal/lifecycle/merge.go:253-341 | whatever becomes of a run: all it adds is well signed; a commit finished by hand, and no other, is replaced, by the same change on the same parents with a good signature, before anything else is done |
| Replay.FinishedLeavesPicking | internal/lifecycle/merge.go:300-341 | a run that finishes leaves no pick open |
| ReplayCoverage.ResumeSkipsOnlyKnown | internal/lifecycle/replayprogress.go:181-224 | everything before the place a run starts at has landed, was dropped as empty, or need not be delivered, and the base is on the branch, unless a moved HEAD is taken for a stopped commit that is not there |
| ReplayCoverage.AdvanceKeeps | internal/lifecycle/merge.go:300-339 | landing or dropping one commit and saving keeps the journal truthful |
| ReplayCoverage.PicksKeep | internal/lifecycle/merge.go:300-341 | from a sound position the picks keep the journal truthful however they end, and finishing accounts for the whole list |
| ReplayCoverage.HandFinishedStart | internal/lifecycle/merge.go:356-371 | amending a commit finished by hand loses nothing and leaves a sound position; the amended commit is the same change on the same parents, well signed |
| ReplayCoverage.RunCovers | internal/lifecycle/merge.go:253-341 | one run from any truthful journal that does not mislead it: the branch only gains commits or has its hand-finished HEAD amended, and finishing means every commit of the range is accounted for |
| ReplayCoverage.RunAdds | internal/lifecycle/merge.go:253-341 | a run undoes nothing that was accounted for; and of what is not in its list it accounts for nothing, where no pick was found empty on a line HEAD has left |
| ReplayOnce.AdvanceOnce | internal/lifecycle/merge.go:300-339 | a pick may die before its save without the branch and the journal disagreeing by more than that commit |
| ReplayOnce.PicksOnce | internal/lifecycle/merge.go:300-341 | the picks of one run keep branch and journal in step and finish with each commit exactly once |
| ReplayOnce.ResumeMatches | internal/lifecycle/replayprogress.go:181-224 | the place a run resumes at is the place the branch has reached |
| ReplayOnce.RunOnce | internal/lifecycle/merge.go:253-341 | one run from any state reached keeps the invariant, whatever its picks do and wherever it dies |
| ReplayOnce.AmendedOnce | internal/lifecycle/merge.go:356-371 | a run that amends a hand-finished commit first neither repeats nor skips it, and the same change, well signed, is on the branch it leaves |
| ReplayOnce.StepsKeep | internal/lifecycle/replayprogress.go:36-58 | the invariant holds after any sequence of runs, `--continue`, `--abort` and crashes |
| ReplayOnce.ExactlyOnceInOrder | internal/lifecycle/merge.go:253-341 | over any such sequence only picks of the list lie on the branch, each at most once and in list order; when a run finishes each landed exactly once or was dropped |
| ReplayLimits.MovedHeadReadAsResolved | internal/lifecycle/replayprogress.go:205-211 | skipping the stopped commit on a moved HEAD is right if and only if that commit is accounted for there |
| ReplayLimits.CommitAfterAbortIsSkipped | internal/lifecycle/replayprogress.go:205-211 | after an abort and a commit of the user's own the stopped commit is skipped though it never landed |
| ReplayCoverage.TrackLostExactly | internal/lifecycle/merge.go:300-339 | for every run from an honest branch: the branch it leaves is taken for resolved, though it is not, if and only if it died before its first save beside the record of a stopped pick whose commit is not on the branch |
| ReplayLimits.DyingAtRiskMisleads | internal/lifecycle/merge.go:300-339 | such a run: dying before the first save beside a foreign stopped record makes that record look resolved |
| ReplayOnce.UnrecordedConflictLandsTwice | internal/lifecycle/merge.go:300-339 | in every state that can be reached, a conflict finished by hand that was never recorded lands a second time where its next pick lands |
| ReplayOnce.SafeIffRecorded | internal/lifecycle/merge.go:300-339 | after any runs, conflicts and crashes, finishing an open pick by hand can repeat nothing, whatever the next run meets, if and only if the journal has recorded that very pick |
| ReplayLimits.ConflictWithoutRecord | internal/lifecycle/merge.go:300-339 | dying between a conflict and its record reaches a state where it has not |
| MergeCheck.TipAccountedFor | internal/lifecycle/retirement_work.go:73-133 | for every passed check: all the fetched branch held is accounted for; the tip it accepts is if -- and where no pick was found empty on a line HEAD has left, only if -- the commits of it that the fetched branch does not hold were accounted for before the check; there are none unless the branch was rewound |
| ReplayLimits.RewoundFetchPasses | internal/lifecycle/rescue.go:22-91 | an earlier check fetched the tip; it is read again, the branch is rewound, the fetch runs: the tip counts as arrived, the check passes on an empty range and accepts a tip that is not accounted for; without the earlier fetch it would be refused |
| MergeCheck.ReportedBase | internal/lifecycle/replayprogress.go:181-224 | the base a finished run reports is the HEAD it found if and only if it did not resume from a record with another one |
| MergeCheck.RecordedBase | internal/lifecycle/retirement_work.go:87-133 | the replay base a check records is the head it found, which is the last acceptance's verified head, if and only if its range was empty or it did not go on from a record made elsewhere |
| ReplayLimits.BaseMayPredateTheVerifiedHead | internal/lifecycle/retirement_work.go:87-133 | three checks: one interrupted, one that accepts an empty range, and one that passes from the first one's record with a base older than the head verified before it |
| Retirement.NewestIsLast | internal/lifecycle/retirement.go:324-332 | for a merge the newest check is always recorded last, although an acceptance may be replaced in place |
| Retirement.RecordedLast | internal/lifecycle/retirement.go:324-332 | exactly when a check ends up last in the list |
| Retirement.DeleteMayKeepAnOlderCheckLast | internal/lifecycle/retirement.go:324-332 | a delete whose tip goes back keeps the other tip's check last |
| Retirement.IncreasingExtends | internal/lifecycle/retirement_work.go:87-133 | accepted source tips strictly increase by ancestry |
| Retirement.LinkedExtends | internal/lifecycle/retirement_work.go:87-133 | each replay base is on the previous verified head's history, and every commit from the first base to the last verified head carries a good signature, interrupted runs included |
| Retirement.ChainExtends | internal/lifecycle/retirement_work.go:87-133 | one more accepted check keeps the whole chain |
| Retirement.DeliveredExtends | internal/lifecycle/retirement_work.go:87-133 | everything up to each accepted tip is accounted for on the head verified with it |
| Retirement.IntendKeeps | internal/lifecycle/retirement.go:374-381 | effects are begun only after an acceptance and, unforced, only in their order |
| Retirement.DoneKeeps | internal/lifecycle/retirement_effects.go:26-54 | marking an effect done undoes none and keeps their order |
| RetirementInvariant.RemovalIsSafe | internal/lifecycle/retirement_effects.go:82-104 | in removing, a tip equal to the last acceptance, a clean tree and the branch still at the verified head make the removal safe: the tip fetched and read after the last attachment closed, well signed from the first base on, and, unless the session has strayed, every commit of a merge accounted for on that branch and every commit of a plain delete already there |
| RetirementInvariant.EvolvesTransitive | internal/lifecycle/retirement.go:120-170 | the permitted ways a record evolves compose over a history |
| RetirementInvariant.DriftKeeps | internal/lifecycle/herdrownership.go:376-382 | the agent's moves, and an attachment reported active without a lock, break nothing that is relied on |
| RetirementInvariant.LocalProgressKeeps | internal/lifecycle/rescue.go:22-91 | fetching and replaying keep the invariant |
| RetirementInvariant.RunAnchored | internal/lifecycle/merge.go:253-341 | the base a run reports is on the branch before and after it, whatever else went wrong |
| RetirementInvariant.ReplayKeeps | internal/lifecycle/retirement_work.go:87-133 | a replay inside a check leaves a truthful journal and accounts for the branch it replays, unless it began from a record that misleads it |
| RetirementInvariant.HonestReplay | internal/lifecycle/merge.go:253-341 | on an honest branch no run is misled, and it stays honest exactly unless the run dies where it loses track of a stopped pick |
| RetirementInvariant.AcceptedChain | internal/lifecycle/retirement.go:178-201 | recording a passed merge check extends the chain and puts it last |
| RetirementInvariant.AcceptKeeps | internal/lifecycle/retirement.go:178-201 | the update that records a passed check keeps the invariant: it strays exactly if the tip has a commit that the fetched branch does not hold and that is not home |
| RetirementInvariant.PauseKeeps | internal/lifecycle/retirement.go:402-423 | pausing keeps the invariant and never leaves removing |
| RetirementInvariant.IntendAttachmentKeeps | internal/lifecycle/retirement.go:374-381 | intending to close an attachment keeps the invariant |
| RetirementInvariant.CompleteAttachmentKeeps | internal/lifecycle/retirement.go:383-393 | an attachment is closed and its effect done in one update |
| RetirementInvariant.FinalCheckKeeps | internal/lifecycle/retirement.go:229-236 | the final check begins only when every attachment's effect is done |
| RetirementInvariant.IntendCleanupKeeps | internal/lifecycle/retirement_effects.go:26-54 | unforced, a cleanup step begins only after all before it are done |
| RetirementInvariant.CleanupDoneKeeps | internal/lifecycle/retirement_effects.go:26-54 | an effect is recorded done only when it is |
| RetirementInvariant.CleanupKeeps | internal/lifecycle/retirement_effects.go:56-80 | repeating a cleanup step after a crash is safe: removing never undoes what was reported done |
| RetirementInvariant.CompletionKeeps | internal/lifecycle/retirement.go:360-372 | a receipt implies checkout, worktree, git remote, branch and journal are all absent |
| RetirementInvariant.AttachKeeps | internal/lifecycle/herdrownership.go:258-269 | attaching to a paused retirement voids the final evidence and keeps the invariant |
| RetirementInvariant.RaiseKeeps | internal/lifecycle/retirement.go:132-148 | force rises only on a delete and before removing |
| RetirementInvariant.NewIntentKeeps | internal/lifecycle/retirement.go:120-130 | an intent that has protected nothing may be replaced |
| World.EffectKeeps | internal/lifecycle/retirement.go:57-286 | whatever the agent, other clients, the user or a fetch, a replay or a removal does keeps the invariant, and the record evolves only as permitted |
| World.EffectPresent | internal/lifecycle/retirement_effects.go:82-104 | only the removal takes the checkout away, and nothing brings it back |
| World.StrayedExactly | internal/lifecycle/retirement_work.go:68-168 | over every history: the session has strayed if and only if a replay began from a record that misleads it or a check was recorded that overlooks a commit |
| World.BenignAccepts | internal/lifecycle/rescue.go:22-91 | where the agent only added commits between the read and the fetch, a recorded check overlooks nothing |
| World.BenignKeeps | internal/lifecycle/retirement_work.go:68-168 | where the world is benign no event does harm and the branch stays honest |
| World.ChronicleExtends | internal/lifecycle/retirement.go:57-286 | one more event keeps what holds of every history: the check on record is one that was made, a checkout that is gone was removed safely, and a benign history has not strayed |
| World.RemovedWorkIsHome | internal/lifecycle/retirement_effects.go:82-104 | for every removal in every history: if no harm was done before it, or the world was benign, every commit of a merge is accounted for on the branch and every commit of a plain delete was there already |
| World.WorktreeSpared | internal/lifecycle/retirement_effects.go:134-170 | over every history: whenever the session's worktree goes, its retirement was forced or nothing in it was uncommitted |
| World.AcceptedPresentable | internal/lifecycle/retirement_work.go:180-192 | over every history: whenever a check is recorded as passed without force, no pick is open and neither the destination nor the session's worktree has anything uncommitted |
| World.DroppedClosed | internal/lifecycle/retirement.go:204-236 | over every history: when a session is dropped for its receipt, the workspace of each of its attachments has been closed, or, in a forced retirement, could no longer be shown to be the session's |
| World.StopsExactly | internal/lifecycle/retirement.go:57-286 | each act stops a run for exactly the obstacle named: a failing step, a commit without a good signature, a tip that did not arrive or does not descend, a commit nothing on the branch is like, a branch that moved, or something uncommitted |
| RetireSession.Machine.constructor | internal/lifecycle/retirement.go:57-118 | a started session satisfies the invariant |
| RetireSession.Machine.Checkpoint | internal/lifecycle/rescue.go:33-35 | what the agent left uncommitted becomes one commit on its tip, which stays on the branch |
| RetireSession.Machine.Rescue | internal/lifecycle/rescue.go:22-91 | the tip is what the branch on the instance was at one moment of this call, the fetched branch what it was at a later one, and both are in the local object store; which attachments had been closed when the tip was read is kept |
| RetireSession.Machine.Fetch | internal/lifecycle/rescue.go:78-89 | the branch as it is now is fetched, and the tip read before has arrived; refused exactly where it has not |
| RetireSession.Machine.Validate | internal/lifecycle/retirement_work.go:42-66 | the destination is the recorded branch, at the head the acceptance was verified on, with a merge's commits since its replay base well signed |
| RetireSession.Machine.ReplayAndVerify | internal/lifecycle/retirement_work.go:87-133 | one whole replay, of which every commit from its base to HEAD has a good signature and the whole range is accounted for; it strays exactly if it began from a record that misleads it |
| RetireSession.Machine.CheckMerge | internal/lifecycle/retirement_work.go:68-134 | a passed merge check is of a tip read and a branch fetched in this call, with nothing open or uncommitted; it is the last acceptance again, which still stands, or one whole replay that starts from it, well signed; when exactly it strays, when exactly its base is the head verified last, and when exactly it has accounted for the tip it accepts |
| RetireSession.Machine.JudgeTip | internal/lifecycle/retirement_work.go:87-133 | the tip just read is the one accepted last, descends from it, or is refused |
| RetireSession.Machine.CheckDelete | internal/lifecycle/retirement_work.go:136-168 | unforced, the tip was read and the branch fetched in this call, and git finds nothing of that branch missing from the user's; none of the tip is missing either exactly if none of the rest of it is |
| RetireSession.Machine.PauseRetirement | internal/lifecycle/retirement.go:402-423 | the one update: paused, or still removing, with a failure on record; or nothing, where the update fails |
| RetireSession.Machine.SettleIntent | internal/lifecycle/retirement.go:120-170 | an intent is made, replaced or raised where that is allowed, and refused exactly where it is immovable |
| RetireSession.Machine.EarlyCheck | internal/lifecycle/retirement.go:178-201 | the first check leads to closing, or straight to removing when every attachment was closed; unforced, it has read the tip in this call |
| RetireSession.Machine.RecordCheck | internal/lifecycle/retirement.go:183-195 | a passed check is recorded with what it read and the signatures it verified, beside all that was on record; a failed one pauses the retirement |
| RetireSession.Machine.CloseOne | internal/lifecycle/retirement.go:204-228 | one attachment is intended, closed and recorded, or the run stops |
| RetireSession.Machine.CloseAttachments | internal/lifecycle/retirement.go:203-236 | the final check is reached only with every attachment's effect done |
| RetireSession.Machine.FinalCheckWork | internal/lifecycle/retirement.go:238-256 | removing is reached only by a check made after the last close, which unforced has read the tip on the instance in this call |
| RetireSession.Machine.RemoveRemoteCheckout | internal/lifecycle/retirement_effects.go:82-104 | the check-and-remove step: without force only at the accepted tip, with a clean tree and the branch validated; where it takes the checkout away the removal is safe |
| RetireSession.Machine.RemoveLocally | internal/lifecycle/retirement_effects.go:134-206 | every other cleanup leaves its object gone or reports a failure; unforced, a dirty worktree is refused and nothing changes |
| RetireSession.Machine.RunEffect | internal/lifecycle/retirement_effects.go:26-54 | one effect: intended, applied, recorded, with a crash possible at each point |
| RetireSession.Machine.RunRetirementEffects | internal/lifecycle/retirement_effects.go:26-54 | the fixed order; onward only with every effect done |
| RetireSession.Machine.Remove | internal/lifecycle/retirement.go:258-284 | the cleanup begins only with the destination validated once more, and ends in a receipt with everything gone, or in a pause |
| RetireSession.Machine.RetireSession | internal/lifecycle/retirement.go:57-286 | from any reachable state: when exactly the options, the session or an immovable intent exclude it; otherwise it completes, or some step of this very call failed or met an obstacle of those named; unforced, a dirty session worktree is left as it is and the call does not complete; the fall-through at the end is never reached |
| RetireSession.Machine.Attach | internal/lifecycle/herdrownership.go:317-374 | attaching changes nothing while a retirement is neither absent nor paused, nor where ownership is unknown; otherwise it adds one attachment, and takes a paused retirement back to checking with what was accepted and closed and nothing else that was begun |
| RetireSession.Machine.MoveBranch | internal/lifecycle/replayprogress.go:205-211 | the user may move the destination branch anywhere between calls, which by itself does no harm |
| RetireSession.Machine.AnyHistory | internal/lifecycle/retirement.go:57-286 | over every history a checkout that is gone was removed in a safe state, with the tip and tree it then had; the work in it was home unless harm was done before, and in a benign history always; when exactly harm has been done; no worktree went unforced with anything uncommitted in it, and no check passed unforced beside it; no session was dropped with an attachment left unclosed; the record evolved only as permitted; a receipt means all is gone and lists well-signed commits |
| PklScan.RunConcat | internal/config/edit.go:150-218 | the lexer reads a text part by part |
| PklScan.StartsAreTheTopLevelLines | internal/config/edit.go:141-149 | the starts are exactly the line starts outside every bracket, comment and string, in order |
| PklScan.CommentOpens | internal/config/edit.go:192-195 | both kinds of comment open as the lexer opens them |
| PklScan.BlockCommentGoesOn | internal/config/edit.go:173-176 | a block comment ends at the first `*/` that does not overlap its opening |
| PklScan.BracketsNest | internal/config/edit.go:210-213 | brackets of all three kinds nest, a closing one without an opening one is nothing, and so is every other character |
| PklScan.LineCommentEnds | internal/config/edit.go:169-172 | a line comment ends with its line, whatever it holds |
| PklScan.StringHolds | internal/config/edit.go:177-189 | what a string holds is no bracket and no comment; a line end ends one that was not closed, and a multi-line string goes on |
| PklScan.EscapeSkips | internal/config/edit.go:183-184 | a backslash with the string's own number of `#` takes the next character with it, a line end included |
| PklScan.EscapeIgnored | internal/config/edit.go:183-184 | a backslash with fewer `#` is text |
| PklScan.CloseString | internal/config/edit.go:185-186 | a one-line string closes at a quote with enough `#` and nowhere else |
| PklScan.CloseMulti | internal/config/edit.go:185-186 | a multi-line string closes at three quotes with enough `#` and nowhere else |
| PklScan.StringOpens | internal/config/edit.go:196-209 | `#` before a quote open a string with that delimiter, of the kind the quotes say |
| PklScan.HashAlone | internal/config/edit.go:196-203 | `#` that no quote follows open nothing |
| PklScan.ReadString | internal/config/edit.go:177-189 | one turn inside a string jumps to where the lexer would be |
| PklScan.ReadCode | internal/config/edit.go:190-214 | one turn outside strings jumps to where the lexer would be |
| PklScan.TopLevelLineStarts | internal/config/edit.go:150-218 | the source's loop, look-ahead and jumps included, returns exactly the top-level line starts |
| PklString.DecodeBody | internal/config/write.go:298-311 | both spellings decode to the string they spell |
| PklString.QuoteRoundTrip | internal/config/write.go:302-311 | `quote(s)` is on one line, between two quotes, and decodes to s |
| PklString.SpelledAlike | internal/config/edit.go:108 | the editor's shorter spelling is the renderer's for strings without line ends, tabs and carriage returns |
| PklString.ReadQuoted | internal/config/edit.go:177-209 | to the scanner a spelled string is nothing at all, whatever it holds |
| PklEdit.LiteralIsTheMatch | internal/config/edit.go:41 | the literal is found exactly where the whole pattern matches the line: head, type, escapes, closing quote and trailing comment |
| PklEdit.FindDecls | internal/config/edit.go:109-114 | the declarations found are those among the top-level lines |
| PklEdit.WithImage | internal/config/edit.go:107-132 | the edit equals its specification: append, replace one literal, or one of the two refusals; by the file's own characters: one line more behind everything, where nothing declares the image; the one matching literal replaced and nothing else, where one line does; refused exactly for two declarations or one that does not match |
| PklEdit.DeclIsTheMatch | internal/config/edit.go:40 | a line declares the image exactly where the pattern matches it |
| PklEdit.DeclsAreTheDeclarations | internal/config/edit.go:109-114 | a line is found if and only if it is at top level and declares the image |
| PklImageLine.ImageLineReturns | internal/config/edit.go:41 | a plain image line leaves the scanner where it found it |
| PklImageLine.LiteralFound | internal/config/edit.go:125-131 | a literal put in place of another is found again in the same place |
| PklImageLine.FreshImageLine | internal/config/edit.go:115-120 | an appended line is a plain declaration |
| PklLastWrite.OneLineReplaced | internal/config/edit.go:125-131 | every other top-level line stays one, unchanged, when the image line is replaced |
| PklLastWrite.Appended | internal/config/edit.go:115-120 | an appended line counts exactly when the scan ends at top level |
| PklLastWrite.LastWriteWins | internal/config/edit.go:107-132 | setting a and then b is setting b, if and only if the file declares its image or its scan ends at top level |
| PklLastWrite.ReadsBack | internal/config/edit.go:107-132 | exactly then the edited file declares the image it was given |
| PklLastWrite.OnlyTheImageChanges | internal/config/edit.go:44-48 | only one literal or one appended line differs: all other top-level lines correspond, word for word, in both directions |
| PklLastWrite.UnclosedNeverLands | internal/config/edit.go:115-120 | in every file that ends inside a bracket, any number of edits append one line each and no image is ever read |
| SortedKeys.SortForgetsOrder | internal/config/write.go:220-232 | the order a map's keys come in does not matter |
| SortedKeys.OneListing | internal/config/write.go:228-232 | a set of keys has one sorted listing |
| SortedKeys.SortKeys | internal/config/write.go:317-324 | the sorted keys, whichever way the map is walked |
| SortedKeys.BelowExactly | internal/config/write.go:232 | byte order: at the first difference a string ends or has the lower character |
| PklRenderLoops.RenderStringListing | internal/config/write.go:187-197 | exactly the listing's lines are written |
| PklRenderLoops.RenderFlakes | internal/config/write.go:204-218 | exactly the flakes' lines are written |
| PklRenderLoops.SettingList | internal/config/write.go:252-268 | a list's elements in either shape, and the error for an element that is no string |
| PklRenderLoops.WritePklValue | internal/config/write.go:272-296 | a settings value as its pieces say, or the error for an unsupported one; what is written reads back as the value (`PklValues.ValueReadsBack`) |
| PklRenderLoops.RenderSettings | internal/config/write.go:223-244 | settings in key order, or the error of the first key in that order that has none |
| PklRenderLoops.RenderField | internal/config/write.go:148-182 | a field's lines, or its type error; what is written reads back as the field (`PklValues.FieldReadsBack`) |
| PklRenderLoops.Render | internal/config/write.go:128-146 | the text is a function of the values alone: unknown names first, then the fields in schema order; what is written reads back as the values (`PklValues.ReadsBackValues`) |
| PklRead.Sanitize | internal/config/read.go:175-208 | the loop equals the recursive account of comments and emptied strings |
| PklRead.CodeKept | internal/config/read.go:202-204 | a character outside comments and strings is kept as it is |
| PklRead.RestDropped | internal/config/read.go:195-196 | a line comment is dropped with all that follows it |
| PklRead.BlockDropped | internal/config/read.go:181-185 | a block comment is dropped up to the first `*/`, one left open by an earlier line too |
| PklRead.BlockStaysOpen | internal/config/read.go:181-185 | a block comment that does not end takes the rest of the line and stays open |
| PklRead.StringEmptied | internal/config/read.go:186-194 | a string comes out empty whatever it holds, escaped quotes included; one that does not end takes the rest of the line |
| PklRead.DeclaredFields | internal/config/read.go:148-167 | the loop equals the line-by-line account of declarations at depth zero |
| PklRead.DeclaresExactly | internal/config/read.go:137-139 | a line of code declares a name exactly where the pattern matches: the name, white space, and `=` or `{` |
| PklRead.DeclaredExactly | internal/config/read.go:148-167 | a field is declared if and only if it is one of the schema's and some line that begins at brace depth zero declares it |
| PklBlocks.RunLine | internal/config/edit.go:150-218 | the scanner leaves a rendered line at the depth its brackets say |
| PklBlocks.SanitizeLine | internal/config/read.go:175-208 | a rendered line comes out with its strings empty and no comment open |
| PklBlocks.CountCurly | internal/config/read.go:161-164 | the reader's brace count of a rendered line is its structural one |
| PklBlocks.SettingReads | internal/config/write.go:240 | square brackets nest for one reader and do not exist for the other, and both come back |
| PklBlocks.FlakeNested | internal/config/write.go:210-216 | a flake's own `packages` never reaches depth zero |
| PklBlocks.FieldIsBlock | internal/config/write.go:148-182 | each rendered field is a block of which only the first line is at top level, for both readers and whatever its strings hold |
| PklRoundTrip.ReadsWhatWasWritten | internal/config/read.go:148-167 | the reader sees the rendered lines and nothing else |
| PklRoundTrip.DeclaresWhatWasRendered | internal/config/write.go:128-146 | the declared fields of a rendered text are exactly the values' keys that have a place in the schema order |
| PklTokens.LexesQuote | internal/config/write.go:302-311 | a spelled string is one token, and that string, whatever follows it |
| PklValues.ValueReadsBack | internal/config/write.go:272-296 | a written settings value is read as the same value: a string, `true` and `false`, a number with its sign, a list by its elements |
| PklValues.FieldReadsBack | internal/config/write.go:148-244 | a written field is read as the same value, flakes member by member and settings key by key |
| PklValues.ReadsBackValues | internal/config/write.go:128-311 | whatever values render, a reader that knows nothing of the renderer gets every one of them back |
| PklRefusals.RendersExactly | internal/config/write.go:128-182 | values render if and only if every field is known and has the type of its place and every setting can be expressed; else the error is the first in the order the source looks |
| PklEditRendered.ScanFindsPlaces | internal/config/edit.go:107-132 | in a rendered text the editor finds exactly the top-level image lines |
| PklEditRendered.EditCommutesWithRender | internal/config/edit.go:107-132 | editing a rendered text is rendering the values with the other image |
| Splice.LineIndex | internal/agentcontext/render.go:134-148 | the first place from an offset on where the marker stands alone on its line, or none |
| Splice.SpliceBlock | internal/agentcontext/render.go:91-121 | the four cases: empty, append, replace, cut short; in terms of the file's own characters what is before the block and after it is the user's, and nothing is added but one line end, where the last line has none, and one blank line |
| Splice.SplicedKeepsText | internal/agentcontext/render.go:84-121 | where no begin marker stands alone the result is the file, at most one line end, a blank line and the block; where one does it starts with all before it and ends with all after the end marker that belongs to it |
| Splice.AloneIsALine | internal/agentcontext/render.go:123-148 | a marker stands alone somewhere if and only if it is one of the lines |
| Splice.OutsideIsReady | internal/agentcontext/render.go:91-121 | before the place a block is written to no marker stands |
| Splice.UserTextKept | internal/agentcontext/render.go:84-90 | after a write the text before and after the block is what it was, but for what the block leaves behind its first end marker |
| Splice.LastWriteWins | internal/agentcontext/render.go:84-121 | for every file, writing one block and then another is writing the other, if and only if the first has no end marker line inside |
| Splice.RepeatedWrites | internal/agentcontext/render.go:87-90 | the length after n writes, which a clean block never changes |
| Splice.RenderBlock | internal/agentcontext/render.go:61-82 | the markers around the facts and every file's content character by character, in order, with a blank line before each and a line end after one that does not end its last line; or the error of an unreadable file |
| Splice.RenderedBlock | internal/agentcontext/render.go:61-82 | a rendered block is clean if and only if no instructions file has the end marker as a line |
| ShellQuote.ReadQuoted | internal/shellcmd/shellcmd.go:18-20 | a quoted string adds exactly itself to the word it stands in |
| ShellQuote.LoginShellWords | internal/shellcmd/shellcmd.go:38-40 | a shell reads `bash`, `-lc` and the inner command, for every inner command |
| ShellQuote.Remote | internal/shellcmd/shellcmd.go:50-57 | the loop builds the login shell around the joined words |
| ShellQuote.ArgumentsArrive | internal/shellcmd/shellcmd.go:42-57 | after whatever words the prefix reads as, the arguments follow unchanged, one word each |
| ShellQuote.RemoteWords | internal/shellcmd/shellcmd.go:42-57 | through both shells: one word to the inner, and from it the prefix's words and the arguments |
| ShellQuote.PrefixWords | internal/shellcmd/shellcmd.go:45-46 | a prefix of plain literals and quoted values reads as those texts |
| ShellQuote.NestingUndone | internal/shellcmd/shellcmd.go:30-33 | any number of login shells around a command peel off to the command |
| ImageMarkers.ParseMarkers | internal/image/markers.go:51-85 | the loop accepts exactly when every marker is there once, with a numeric format and nothing empty |
| ImageMarkers.AtoiExactly | internal/image/markers.go:64-69 | what is read as which number: decimal digits with or without a sign, in the range of a 64-bit integer |
| ImageMarkers.SameSuffixes | internal/image/markers.go:51-85 | the order of tags does not matter |
| ImageMarkers.TagsRoundTrip | internal/image/markers.go:37-108 | the tags of a build parse back to it in any order and among any further valid user tags |
| ImageMarkers.BuildIsEligible | internal/image/resolve.go:144-173 | a finished build is eligible where it was built |
| ImageMarkers.EligibleExactly | internal/image/resolve.go:138-173 | an image is eligible if and only if it is an available snapshot in the region, bears the tag where one is asked for, and has each marker exactly once, for this architecture and region and in the supported format |
| ImageMarkers.OneScope | internal/image/resolve.go:146-173 | for one tag an image is eligible in at most one scope |
| ImageOrder.SortNewest | internal/image/resolve.go:178-185 | the array is sorted in place, stably, to the specified order: the same images, none created before a later one, and among equal times the higher ID first wherever the IDs are ordered |
| ImageOrder.NewestByTime | internal/image/resolve.go:175-185 | whatever the IDs, no image is created before one that comes later |
| ImageOrder.NewestById | internal/image/resolve.go:175-194 | of two images of one moment the one with the higher ID comes first, by number where both are numbers |
| ImageOrder.NewestInOrder | internal/image/resolve.go:175-185 | where IDs are an order, each image is newer than all after it: later, or of the same time with the higher ID |
| ImageOrder.ListingOrderForgotten | internal/image/resolve.go:175-185 | the provider's listing order does not matter, nor which sorting algorithm is used |
| ImageOrder.SameForEveryListing | internal/image/resolve.go:175-194 | the newest image, and the whole order, is the same for every listing of the same images if and only if they are ordered |
| ImageOrder.SortThenFilter | internal/image/resolve.go:71-88 | sorting and filtering commute |
| ImageOrder.WhenIdsAreOrdered | internal/image/resolve.go:187-194 | exactly which sets of IDs the comparator orders |
| ImageOrder.UniformIdsAreOrdered | internal/image/resolve.go:187-194 | canonical numbers are ordered, and so are IDs of which none is a number |
| ImageOrder.OrderedByIds | internal/image/resolve.go:178-185 | ordered IDs order the images that bear them |
| ImageOrder.MixedIdsGoRound | internal/image/resolve.go:187-194 | three IDs for which the newest depends on the listing |
| ImagePrune.PlanPrune | internal/image/retention.go:30-61 | the plan, or one of the three refusals; every deletion is a ready snapshot of ours bearing the scope's tag, and none but a kept base is newer than an image kept among the first `1 + keepPrevious` |
| ImagePrune.NewestTagged | internal/image/resolve.go:71-88 | the launch takes an eligible image that none is newer than, and none exactly where no image is eligible |
| ImagePrune.PlanKeepsTheNewest | internal/image/retention.go:30-61 | the first `1 + keepPrevious` of the eligible images are kept, none of them older than one that is deleted, and no other but the protected one; the oldest is deleted first |
| ImagePrune.PlanPartitions | internal/image/retention.go:21-29 | every eligible image is kept or deleted, none both or twice |
| ImagePrune.LaunchedIsKept | internal/image/retention.go:30-61 | the image a launch would take is kept first and never deleted |
| ImagePrune.ReplanAfterDeletions | internal/image/retention.go:30-61 | with any planned images gone and any listing order, the same images are kept, the rest is planned, and a launch takes the same image |
| ImagePrune.ResumesWhereItStopped | internal/image/retention.go:13-19 | after n deletions a new plan deletes exactly the remaining ones |
| ImagePruneRun.GroupScopes | internal/image/retention.go:68-87 | every scope with eligible images, once each, in order of region and architecture |
| ImagePruneRun.ScopesPartition | internal/image/retention.go:63-87 | within the filters each eligible image belongs to exactly one of the scopes |
| ImagePruneRun.PruneOne | internal/image/retention.go:118-132 | one candidate is looked at again and deleted only if it is still eligible; which of the three failures stopped it otherwise |
| ImagePruneRun.ExecutePrune | internal/image/retention.go:103-135 | deleted and pending are together the plan's list at every stop; the account saw, for each deleted image in order, that it was gone, or a look that found it eligible and its deletion, and nothing else but the step that stopped it |
| ImagePruneRun.PlanAll | cmd/image_prune.go:127-137 | one plan for each scope that has images and no other, in order |
| ImagePruneRun.ExecuteAll | cmd/image_prune.go:166-179 | the same over all plans and their concatenated lists |
| ImagePruneRun.WhatARunDid | internal/image/retention.go:103-135 | whatever stopped it, each deletion directly follows a read that found the image eligible in the scope of the plan listing it, and what counts as deleted is gone |
| ImagePruneRun.JobsAreDeletions | cmd/image_prune.go:166-179 | the images looked at are those of the plans' lists, in their order, each in its own plan's scope |
| ImagePruneRun.RunImagePrune | cmd/image_prune.go:97-180 | the plans cover every scope; when exactly it is refused; without `--yes` or a confirmed prompt nothing happens; otherwise every planned image is accounted for and every deletion guarded |
| HerdrTabs.TabRenamedKeeps | internal/lifecycle/herdrtabs.go:330-336 | taking over the default tab sends nothing twice and moves no pane that was sent something out of a configured tab |
| HerdrTabs.PaneRanKeeps | internal/lifecycle/herdrtabs.go:383-392 | a command is sent only to a pane that was sent none |
| HerdrCommands.CompleteAlike | internal/lifecycle/herdrtabs.go:398-424 | a tab found as before with its panes is complete if and only if it was |
| HerdrCommands.SplitLeavesOthers | internal/lifecycle/herdrtabs.go:372-378 | a split is seen in its own tab only |
| HerdrAttach.OpenTab | internal/lifecycle/herdrtabs.go:321-346 | a listed tab is taken as it is; otherwise one is taken over or created, whose pane was never sent anything; it fails only where its one command fails |
| HerdrAttach.AddPane | internal/lifecycle/herdrtabs.go:370-393 | a pane is opened, named, then sent its command, if it has one; no other pane is sent anything, and nothing outside the tab changes; undisturbed it fails only where a command fails or there is no pane to split |
| HerdrAttaches.FillTab | internal/lifecycle/herdrtabs.go:348-395 | undisturbed and without an error the tab is complete exactly unless it clashes, and every pane that was not listed has been sent its command; nothing happens where all were listed |
| HerdrAttaches.EnsureTab | internal/lifecycle/herdrtabs.go:321-396 | every other tab stays as found even where this one fails; without an error it is complete exactly unless it took the default tab over and clashes with it, and what was opened in it has been sent its command; an error means a failed command or a tab without a pane |
| HerdrAttaches.EnsureTabs | internal/lifecycle/herdrtabs.go:191-230 | a failure stops none of the rest: each tab that did not fail is there, started, and complete exactly unless it took the default tab over and clashes; an error means a failed command or a tab without a pane |
| HerdrAttaches.PristineDefaultTab | internal/lifecycle/herdrtabs.go:279-304 | the tab on offer is the only one, with its only pane, never sent anything; none is offered in a complete workspace |
| HerdrAttaches.LayOutTabs | internal/lifecycle/herdrtabs.go:251-269 | where nobody closes anything during it: without an error the layout is complete if and only if the default tab it was offered does not spoil it, and always on a re-attach, and every pane it opened was sent its command; an error means a failed command or a configured tab without a pane; a complete layout is not touched; the workspace is never left without tabs. It takes a bounded number of commands |
| HerdrAttaches.OddNameSpoils | internal/lifecycle/herdrtabs.go:348-369 | a default tab whose pane already bears the second pane's name spoils the layout |
| HerdrAttaches.AnyAttaches | internal/lifecycle/herdrtabs.go:171-187 | over any attaches, failures, lost replies and closings no pane is sent a command twice |
| HerdrAttaches.AttachTwice | internal/lifecycle/herdrtabs.go:174-178 | after an attach without an error whose default tab does not spoil the layout, one more only lists, where nobody closes anything during both |
| Journal.Drain | internal/reconcile/detached.go:164-174 | the loop writes what is not journalctl's own and keeps the last cursor |
| Journal.TrimsBlanks | internal/reconcile/detached.go:167 | the white space around a cursor goes, and nothing else |
| Journal.DrainShown | internal/reconcile/detached.go:155-176 | one reading writes the visible lines of the entries and moves to the last one's cursor, whatever the entries say |
| Journal.AllVisible | internal/reconcile/detached.go:164-174 | nothing is dropped if and only if no line imitates journalctl's own |
| Follower.Detached.Exec | internal/reconcile/detached.go:200-216 | one attempt: the answer, and what it does to the instance, are determined by what the moment has in store |
| Follower.Detached.Retry | internal/reconcile/detached.go:178-198 | an answer is the instance's own; only lost ones are asked for again, until the context ends or the instance was gone too long |
| Follower.Detached.EnsureStarted | internal/reconcile/detached.go:109-135 | without an error the unit is running, in an invocation that was not over before the call; each start follows directly on a status that said it was not running, so with nobody else starting it a running one is never started over; more than one start takes effect exactly where one was lost and a later status found its unit no longer running; an error means the context ended, too long a silence or a refused start |
| Follower.TwiceExactly | internal/reconcile/detached.go:109-135 | exactly when more than one start of a call takes effect |
| Follower.NeverClobbers | internal/reconcile/detached.go:95-135 | with nobody else starting the unit no start takes effect while it is running |
| Follower.Detached.DrainNext | internal/reconcile/detached.go:152-176 | the output stays the journal up to the cursor |
| Follower.Detached.Follow | internal/reconcile/detached.go:70-93 | whatever the pattern of drops the output is the journal up to some entry, and all of it when the unit is seen finished, which with nobody else starting it is reported as it ended; a unit that is gone never counts as finished; nothing is started; it stops early only where the context ends, the instance is gone too long or a read is refused |
| Follower.Detached.Run | internal/reconcile/detached.go:48-94 | the same over the whole call, of an invocation that was not over when the call began; starts are as for `EnsureStarted` |
| Follower.CaughtUp | internal/reconcile/detached.go:152-176 | resuming by cursor neither loses nor repeats an entry |
| Follower.NothingLost | internal/reconcile/detached.go:164-174 | the output is the journal's own text if and only if no line imitates the cursor lines |

## Left out

- Git objects are never collected, and git's read-only commands always answer; a failing read is a failing step.
- `MergeSession` and `DeleteSession` (internal/lifecycle/merge.go:20, internal/lifecycle/delete.go:24): older paths, no longer called by the commands.
- `cleanReplayedMessage` and trailers (internal/lifecycle/merge.go:376): the text of commit messages.
- Issue receipts and Beads pulls inside a check (internal/lifecycle/retirement_work.go:234), the order of the reported signatures and the text of the last failure.
- Proofs and handles of Herdr attachments (internal/lifecycle/herdrownership.go:493-576): an attachment is closed, fails as unproven, or fails otherwise.
- Sessions without a recorded base: their range is computed from the merge base and adds only another starting point.
- RetireSession.Machine.CheckDelete: its evidence is not claimed to follow on from earlier ones, because a delete's checks need not; the question `git cherry` is asked about the local session branch, and the one about issues, are steps that may fail.
- RetireSession.Machine.RemoveLocally: for the Beads remote "done" is not claimed to mean absent, because its removal is not part of this model.
- RetireSession.Machine.MoveBranch: moves of the destination branch during a call are not modelled; where HEAD is read again the code refuses a moved one, and after the last read it would not notice.
- Liveness of an interrupted replay of late work: `Validate` refuses it by design; its safety is proved.
- Pkl evaluation, Nix rendering, cloud-init and Packer bundles: text for tools that are not modelled. The reader of `PklValues` takes members, literals and listings for what Pkl's grammar says they are, and evaluates nothing.
- File handling of the image editor (internal/config/edit.go:57-102, internal/config/edit.go:220-239): symlinks, permissions and the rename are I/O.
- The text of the session facts: a parameter that ends its last line and has no end marker line.
- ImageOrder.SortNewest: sorts by stable insertion, as the library does for short lists; for longer ones it uses another stable algorithm, to the same result wherever IDs are ordered (`ImageOrder.ListingOrderForgotten`).
- Image resolution by numeric ID, the disk check, and the wording of why images were skipped.
- `paneDir` (internal/lifecycle/herdrtabs.go:158): a pane's directory is the checkout or another one; the JSON of Herdr's replies is always well formed when it arrives.
- Time in the follower: an attempt or a pause is one moment, and giving up may come at any; a writer that fails is not modelled.
- Follower.NeverClobbers: another client that starts the unit between the status and the start is not excluded by the code, so the claim is for times without one.
- Provider clients, transport, known hosts, keys, wizards, prompts and output.
- Small standalone helpers (cost, port choice, user names, version checks).
