# CanyonOS algorithms, modelled and proved in Dafny

CanyonOS deploys Python agents. This project models the self-contained algorithms of its
repository that are easy to get subtly wrong, each beside an independent reference, and
proves that the two agree on every input, every run or every interleaving.
`dafny verify dfyconfig.toml` checks all of it.

| module | models | reference it is proved against |
|---|---|---|
| `FileTree`, `Refresh` | bringing a newer source into a converted project its port has edited, as loops over a tree of files and directories | a three-way merge, one path at a time |
| `Prepare` | staging, swapping by rename and rolling back, with a failure or crash at any step | the tree a run must build; which disk states still hold the old artifact |
| `Pep440`, `VersionGate`, `RequirementGate` | which requirement lines allow only too old or only too new releases | PEP 440, "Version specifiers", quantified over every release |
| `Signature` | whether a method or constructor can be called by the controller | section 6.3.4, "Calls", of the Python Language Reference |
| `PythonSyntax`, `ClassResolution`, `ClassMembers` | which class a name is, and what it and its bases define | a search without a visited set; what a class body binds in its own scope, over the closure under "is a base of" |
| `Mirror` | `canyonos sync`: manifest, delete script, additive copy | a plain mirror of the project |
| `Delivery`, `DeliveryProtocol`, `DeliveryLosses` | sending usage events, alone and with crashes, lost answers and other senders | grouping by 25; conservation of events |
| `PortForward` | the thread that restarts kubectl against `close` | all interleavings of their steps |
| `RemovalPlan`, `SecurityRules` | what a teardown deletes; which inbound rules a group lacks | the machines that use a resource; the traffic a rule lets in |
| `SupportWindow` | the three supported releases | the supported versions of a set |
| `PhaseTracker`, `QuotedLog` | reading the deploy log, and writing a container's log into it | the same log without its quoted container logs |
| `Vectors`, `Portfolio`, `Diversification` | the risk and drawdown arithmetic | variance of the portfolio's returns; all pairs of days |

Paths are sequences of components; `FileTree.SlashPrefixIsAncestor` proves that this is
what the string test with a trailing slash means. A content hash is identified with the
content. Classes follow the source's objects and the trees they change in place; loops are
methods with invariants; every method is tied to a specification function or predicate.

## What the proofs found in the code

- `prepare.py:266-267` and `:270` never act: the conflict scan already excludes a
  port-edited file there, and a directory in the way of a file (`Refresh.Refresh`,
  `Refresh.SecondGuardIsDead`).
- A refresh can be refused needlessly, even when the source did not change, because a port's file
  clashes in kind with an incoming one that the merge drops (`Refresh.NeedlesslyRefusedExactly`).
- The test for "newer only" misses `<0`, and at the limits in use nothing else
  (`VersionGate.AboveIsExactInUse`). On whole lines each test passes over exactly the lines nothing
  meets, those whose `!=X.*` clauses leave no room, and, from the floor, those pinched between
  `<=` and `!=` (`RequirementGate.LineAboveIsExact`, `LineBelowIsExact`).
- `_required_parameters` misreads the defaults exactly when the receiver has one and two or
  more positional parameters follow it (`Signature.AgreementIsExact`). A receiver not called `self`
  or `cls` is taken for a parameter, so the check is wrong about some call of every such method without
  a slash; `Signature.AgreementEverywhere` says for every `def` whether the check is right on all calls.
- "Has no method" can be false: the walk of `_methods` misses a `def` inside `if`, `try` or `with`,
  and classes, imports and `match` names in a class body, and the check does not know
  `self.run = ...`, `__getattribute__` or what `object` has. The walk also lists names stored only in
  inner scopes. `ClassMembers.NoMethodIsWrongExactly` and `ListedIsWrongExactly` say exactly when.
- The delivery module says that events stay in the outbox until the API has stored them
  (`packages/cli/canyonos/usage/delivery.py:8`). The code also drops the oldest of 1000, drops a
  file that could not be read for an operating-system reason, and drops all when reporting is
  turned off; there is no other way (`DeliveryProtocol.EventLeavesExactlyWhen`, `DeliveryLosses`).
- A directory named `.env` takes the copied `.env` inside itself, where no manifest lists it
  (`Mirror.EnvDirectoryIsNotMirrored`); every sync mirrors exactly but for such a `.env`, its own
  or an earlier one (`Mirror.SyncMirrors`).
- The diversification ratio can be below one without a short position, exactly when a ticker
  with some weight has a longer history than the shortest (`Diversification.AtLeastOneExactly`).
- `missing_rules` reports a rule that is allowed through address blocks it does not
  recognise, or by several permissions only together
  (`SecurityRules.NeedlesslyReportedExactly`).

## Model

| member | source | states |
|---|---|---|
| FileTree.SlashPrefixIsAncestor | skills/converting-to-canyonos/prepare.py:218-229 | `path.startswith(other + "/")` on joined paths holds exactly when `other` is a proper ancestor, for any valid components |
| FileTree.PruneStep | skills/converting-to-canyonos/prepare.py:251-259 | removing one path in a deepest-first pass removes it exactly when everything at and beneath it is listed under its kind |
| FileTree.TreeOfIsTree | skills/converting-to-canyonos/prepare.py:261-272 | files of which none lies beneath another, with their parent directories, form a well-formed tree holding just those files |
| Refresh.ChangedInBothIsClash | skills/converting-to-canyonos/prepare.py:203-212 | the two-branch conflict test is true exactly when a three-way merge of the path has no answer |
| Refresh.MergeHonoursBoth | skills/converting-to-canyonos/prepare.py:203-212 | a path has no merge exactly when its recorded, incoming and port contents all differ; otherwise the merge is the one content that keeps each side's change, so equal changes agree, and neither side is preferred |
| Refresh.RefusedExactly | skills/converting-to-canyonos/prepare.py:203-229 | a path is in conflict exactly when its three contents all differ, or its file, changed in the port, lies above or beneath an incoming one; without a conflict both sides' changes are kept at every path |
| Refresh.Conflicts | skills/converting-to-canyonos/prepare.py:203-232 | the conflict list is exactly the paths without a merge plus the port-edited files above or beneath an incoming file |
| Refresh.NoOverlap | skills/converting-to-canyonos/prepare.py:214-229 | without conflicts, no file kept by the deletions lies above or beneath a file the source brings |
| Refresh.DeleteDropped | skills/converting-to-canyonos/prepare.py:243-249 | the unlink loop removes exactly the files the source deleted and the port left alone |
| Refresh.PruningDirectories | skills/converting-to-canyonos/prepare.py:251-259 | of the directories, those that hold a file somewhere beneath survive and no other |
| Refresh.RemoveEmptyDirectories | skills/converting-to-canyonos/prepare.py:251-259 | the deepest-first rmdir loop leaves exactly the tree of the remaining files |
| Refresh.SecondGuardIsDead | skills/converting-to-canyonos/prepare.py:261-267 | past the first `continue`, the second one cannot be taken and the merge takes the incoming file |
| Refresh.InstallInTree | skills/converting-to-canyonos/prepare.py:268-272 | writing a file that fits among the others meets no directory in its place and no file among its parents, and adds just that file |
| Refresh.Tree.Install | skills/converting-to-canyonos/prepare.py:268-272 | clear a directory of that name, make parents, write, path by path; fails exactly when a file is among the parents |
| Refresh.CopyIncoming | skills/converting-to-canyonos/prepare.py:261-272 | the copy loop turns the kept files into the merged files, without error and without clearing a directory |
| Refresh.Refresh | skills/converting-to-canyonos/prepare.py:194-272 | succeeds exactly when no path conflicts, keeping at every path the change of whichever side made one, in exactly the tree of the merged files; otherwise changes nothing and names exactly the paths that need a choice; never an OS error, never `rmtree` |
| Refresh.MergeNestsExactly | skills/converting-to-canyonos/prepare.py:214-229 | where every path merges, the merged files nest exactly when an incoming file related to one the port changed survives |
| Refresh.NeedlesslyRefusedExactly | skills/converting-to-canyonos/prepare.py:214-229 | a refresh is refused although all paths merge into a proper tree exactly when there is a kind clash but none whose two files survive together |
| Refresh.UnchangedSourceIsRefused | skills/converting-to-canyonos/prepare.py:214-229 | such a refusal with an unchanged source: the port replaced a file by a directory |
| Refresh.MergedIsFileSet | skills/converting-to-canyonos/prepare.py:218-229 | well-formed trees in, well-formed tree out |
| Refresh.EditedPathIsKept | skills/converting-to-canyonos/prepare.py:203-212 | a successful refresh leaves every path the port changed as the port has it |
| Refresh.UneditedPortFollowsSource | skills/converting-to-canyonos/prepare.py:243-272 | a port without edits is never refused and becomes the new source |
| Refresh.SameChangeAgrees | skills/converting-to-canyonos/prepare.py:208-212 | a port that already holds the new source is never refused, whatever was recorded, and stays as it is |
| Refresh.RepeatedRefreshIsIdle | skills/converting-to-canyonos/prepare.py:194-272 | refreshing again from the same source never conflicts and changes no file |
| Refresh.EachEventOfRun | skills/converting-to-canyonos/prepare.py:331-343 | in any run an edit puts its files there and leaves the record; a refresh changes nothing when some path needs a choice, else records its source and keeps both sides' changes |
| Refresh.PortEditSurvivesRun | skills/converting-to-canyonos/prepare.py:331-343 | over any run of edits and refreshes, refused or not, a port edit that no source version adopts survives |
| Refresh.RunKeepsFileSets | skills/converting-to-canyonos/prepare.py:331-343 | over any run of well-formed edits and sources the port's tree stays well formed |
| Refresh.NoRefreshAltersEdits | skills/converting-to-canyonos/prepare.py:203-212 | in any run of edits and refreshes, no refresh alters a path the port holds differently from the recorded source |
| Prepare.StepKeepsInv | skills/converting-to-canyonos/prepare.py:326-355 | every action of the transaction, including a write or a deletion that stops half way and a crash, keeps the old artifact, aside if need be, until the complete new one is in place |
| Prepare.AlwaysRecoverable | skills/converting-to-canyonos/prepare.py:326-355 | in every reachable moment the artifact is the old tree or the complete new one, or the old one waits aside; a failed run ends with the old tree and no sibling, a completed one with the prescribed tree |
| Prepare.AnythingCanStop | skills/converting-to-canyonos/prepare.py:326-355 | from every reachable moment a crash can come, and filling the staged tree or clearing the old one can stop at any tree |
| Prepare.Workspace.Run | skills/converting-to-canyonos/prepare.py:275-356 | takes only steps of that transaction; without a failure it succeeds exactly when nothing reserved is in the source, a plain run finds no artifact, a forced one nothing of the wrong kind, and a refresh an artifact that records its source and needs no choice; what it leaves is given path by path, and so is why it refused; a failed run leaves the very same artifact and no sibling |
| Prepare.RunExactly | skills/converting-to-canyonos/prepare.py:287-343 | the same of what a run must build: when it succeeds, the file at each path in each mode, and which of its errors can be the reason |
| Prepare.Workspace.Commit | skills/converting-to-canyonos/prepare.py:344-355 | moving aside, swapping and clearing up end with the staged tree in place, or with the old one when a rename fails |
| Prepare.Workspace.Undo | skills/converting-to-canyonos/prepare.py:347-352 | discards the staged tree and puts back an artifact that was moved aside |
| Prepare.Workspace.Stage | skills/converting-to-canyonos/prepare.py:326-343 | staging yields the prescribed tree or the prescribed refusal and touches only the staged copy |
| Prepare.BuiltIsTree | skills/converting-to-canyonos/prepare.py:326-343 | in every mode the tree put in place is well formed |
| Prepare.StateRoundTrip | skills/converting-to-canyonos/prepare.py:146-191 | the state written is the state the next refresh loads, and writing it changes no other file |
| Prepare.ConfigFileIsRefused | skills/converting-to-canyonos/prepare.py:218-229 | a source file named `config` always conflicts with the port's state file |
| Prepare.SourceLeavesStateFileAlone | skills/converting-to-canyonos/prepare.py:287-294 | after any successful run no source file sits at, above or beneath the state file or in `config/` |
| Prepare.BuiltFilesMeetNoSource | skills/converting-to-canyonos/prepare.py:218-229 | in what a run built, no file the port added lies above or beneath a source file |
| Prepare.RefreshingAgainIsIdle | skills/converting-to-canyonos/prepare.py:331-343 | after any successful run, `--refresh` from the same source succeeds and leaves every file as it is |
| Prepare.ForceKeepsOnlyConfig | skills/converting-to-canyonos/prepare.py:335-343 | `--force` keeps every file under `config/` but the state file, and takes everything else from the source |
| Pep440.Trichotomy | packages/core/canyonos_core/stub_generator.py:609-629 | zero-padded comparison of releases is a total order with `==` as its equality |
| Pep440.PrefixIsInterval | packages/core/canyonos_core/stub_generator.py:612-616 | matching `==X.*` is lying from X up to, not including, X with its last component raised by one |
| Pep440.Between | packages/core/canyonos_core/stub_generator.py:652-660 | strictly between any two releases lies another |
| VersionGate.CompatibleMeans | packages/core/canyonos_core/stub_generator.py:626-628 | `~=a.b` is met exactly from a.b on within the major a |
| VersionGate.BelowIsSound | packages/core/canyonos_core/stub_generator.py:609-629 | no release at or above the floor satisfies a flagged clause |
| VersionGate.BelowIsComplete | packages/core/canyonos_core/stub_generator.py:609-629 | every clause not flagged is satisfied by a release at or above the floor, given explicitly |
| VersionGate.BelowIsExact | packages/core/canyonos_core/stub_generator.py:609-629 | `_below_supported_version` is true exactly when no release at or above the floor satisfies the clause |
| VersionGate.AboveIsSound | packages/core/canyonos_core/stub_generator.py:652-660 | a flagged or excepted clause is satisfied only at or above the limit |
| VersionGate.AboveIsComplete | packages/core/canyonos_core/stub_generator.py:652-660 | every other clause is satisfied by a release below the limit, given explicitly |
| VersionGate.AboveIsExact | packages/core/canyonos_core/stub_generator.py:652-660 | `_above_tested_version`, or one of the two exceptions, holds exactly when no release below the limit satisfies the clause |
| VersionGate.BelowZeroIsMissed | packages/core/canyonos_core/stub_generator.py:652-660 | `<0` excludes everything below any limit and is never flagged |
| VersionGate.OnlyBelowZeroIsUnflagged | packages/core/canyonos_core/stub_generator.py:652-660 | for a limit above 1 it is the only clause so missed: no excluded series reaches the limit |
| VersionGate.AboveIsExactInUse | packages/core/canyonos_core/stub_generator.py:652-660 | for the limits in use the test, or `<0`, holds exactly when no release below the limit satisfies the clause |
| VersionGate.LimitIsNextMajor | packages/core/canyonos_core/stub_generator.py:665-667 | the releases below the limit are exactly those whose first number is at most the tested major |
| VersionGate.LimitsInUse | packages/core/canyonos_core/stub_generator.py:663-667 | the limits lie just beyond the majors 1, 6 and 8 of grpcio, protobuf and redis |
| VersionGate.FlaggedExactlyBeyond | packages/core/canyonos_core/stub_generator.py:652-660 | a clause is flagged exactly when some release meets it, and only releases beyond the tested major do |
| VersionGate.LowerIgnoresCase | packages/core/canyonos_core/stub_generator.py:674 | two names are the same to the check exactly when they differ at most in the case of letters |
| VersionGate.TooOldRequirements | packages/core/canyonos_core/stub_generator.py:632-649 | reports, in order, each line that names a base package, in any case, and has a clause no release from its floor on meets, skipping what does not parse |
| VersionGate.TooNewRequirements | packages/core/canyonos_core/stub_generator.py:663-679 | reports, in order, each line that names a tested package, in any case, and has a clause only releases beyond its tested major meet, with the next major |
| VersionGate.NewReportsAre | packages/core/canyonos_core/stub_generator.py:663-679 | the reports are exactly the flagged lines, each with its package's limit |
| VersionGate.OldReportsAre | packages/core/canyonos_core/stub_generator.py:632-649 | the reports are exactly the flagged lines, each with its package's floor |
| VersionGate.NewReportsMean | packages/core/canyonos_core/stub_generator.py:663-679 | the reports in terms of releases: lines that ask for a tested package beyond its major |
| VersionGate.OldReportsMean | packages/core/canyonos_core/stub_generator.py:632-649 | the reports in terms of releases: lines that ask for a base package below its floor |
| VersionGate.TooOldIsUnsatisfiable | packages/core/canyonos_core/stub_generator.py:632-649 | a line reported as too old is allowed by no release CanyonOS supports, whatever its other clauses |
| VersionGate.KeptCaps | packages/core/canyonos_core/stub_generator.py:682-693 | a cap stays exactly when no line for that package, in any case, has a clause that only releases beyond its tested major meet |
| RequirementGate.ClimbIs | packages/core/canyonos_core/stub_generator.py:663-679 | the climb over `!=X.*` clauses ends at the first release no series around which is excluded, and passes only excluded ones |
| RequirementGate.MeetableExactly | packages/core/canyonos_core/stub_generator.py:663-679 | whether any release meets a line can be told from its clauses: at a fixed release, or where the climb from the highest lower bound ends |
| RequirementGate.LineAboveIsExact | packages/core/canyonos_core/stub_generator.py:663-679 | any line allows no release below the limit exactly when it is flagged as too new, or cannot be met at all, or the climb from its highest lower bound reaches the limit |
| RequirementGate.LineBelowIsExact | packages/core/canyonos_core/stub_generator.py:632-649 | any line allows no release from the floor on exactly when it is flagged as too old, or cannot be met at all, or, where the climb from the floor ends, a clause ends too or `<=` and `!=` pinch it |
| RequirementGate.AllowedBelow | packages/core/canyonos_core/stub_generator.py:663-679 | an unflagged line that can be met and does not climb to the limit is met below it, by a release found between its bounds and beside what it excludes |
| RequirementGate.AllowedFrom | packages/core/canyonos_core/stub_generator.py:632-649 | the same from a floor in no excluded series, for a line that is not pinched there |
| RequirementGate.TooOldExactly | packages/core/canyonos_core/stub_generator.py:632-649 | no supported release meets a requirement exactly when it is reported as too old or passed over in one of those ways |
| RequirementGate.CapDroppedExactlyWhenUnsatisfiable | packages/core/canyonos_core/stub_generator.py:682-693 | keeping a package's cap would leave one of its lines unsatisfiable exactly when the cap is dropped or a line was passed over in one of those ways |
| RequirementGate.CapDroppedIsSound | packages/core/canyonos_core/stub_generator.py:682-693 | on any lines, a dropped cap would have left one unsatisfiable |
| RequirementGate.ContradictionIsMissed | packages/core/canyonos_core/stub_generator.py:674-676 | `>=2,<1` is met by nothing and flagged by neither clause, at any limit above 2 |
| RequirementGate.ExcludedSeriesIsMissed | packages/core/canyonos_core/stub_generator.py:674-676 | `>=1,!=1.*` is met by 2 and by nothing below it, and not flagged at the limit 2 |
| RequirementGate.PinchIsMissed | packages/core/canyonos_core/stub_generator.py:644-647 | `<=F,!=F` is met, but by nothing from the floor F on, and not flagged |
| Signature.Report.CheckMethod | packages/core/canyonos_core/validate.py:320-402 | adds nothing for a method exactly when it is no coroutine and can be called with the declared names under Python's rules; nothing for a name bound otherwise or missing from an incomplete class, else that it is missing |
| Signature.Report.CheckSignature | packages/core/canyonos_core/validate.py:349-402 | adds nothing exactly when the call binds and diverts nothing; otherwise the findings name, kind by kind, exactly the parameters and sent names at fault |
| Signature.Report.CheckConstructor | packages/core/canyonos_core/validate.py:301-317 | adds a finding exactly when the class cannot be constructed without arguments |
| Signature.RequiredAre | packages/core/canyonos_core/validate.py:93-106 | where the defaults are read right, the required parameters are the slots after the receiver that have no default |
| Signature.KeywordsTogether | packages/core/canyonos_core/validate.py:349-402 | Python's keyword-by-keyword binding, in closed form: when it raises, which slots it fills, what `**kwargs` gets |
| Signature.BindsMeans | packages/core/canyonos_core/validate.py:349-402 | a call by keyword binds exactly when every name reaches a parameter (or `**kwargs`) and every slot without a default is sent and reachable |
| Signature.FindingsNameTheirCauses | packages/core/canyonos_core/validate.py:80-106 | each finding lists exactly the parameters before the slash that are sent or required, the sent names that reach nothing, and the reachable parameters without a value |
| Signature.CheckAgreesWithPython | packages/core/canyonos_core/validate.py:349-402 | no signature finding, exactly when calling the bound method with the declared names as keywords binds and diverts none into `**kwargs`, for every call but one that sends the receiver to a method with `**kwargs` and no slash |
| Signature.ConstructorAgreesWithPython | packages/core/canyonos_core/validate.py:301-317 | no constructor finding, exactly when the class can be constructed without arguments |
| Signature.MisreadRequired | packages/core/canyonos_core/validate.py:93-106 | with a default on the receiver and two or more parameters after it, all but the last of them are taken to be required although none is |
| Signature.LeastCallBinds | packages/core/canyonos_core/validate.py:349-402 | such a method can be called with just its keyword-only parameters without default |
| Signature.AgreementIsExact | packages/core/canyonos_core/validate.py:349-402 | on a `self` or `cls` method the check agrees with Python on every call exactly when the receiver has no default or at most one parameter follows it |
| Signature.ConstructorAgreementIsExact | packages/core/canyonos_core/validate.py:301-317 | the constructor check is right exactly then, or when a keyword-only parameter is required anyway |
| Signature.AgreementEverywhere | packages/core/canyonos_core/validate.py:70-106 | over every `def`, whatever its receiver is called or whether it has one, the check agrees with Python on all calls by distinct names exactly under a condition on the parameter list alone |
| Signature.ConstructorAgreementEverywhere | packages/core/canyonos_core/validate.py:93-106 | the same of the constructor check |
| PythonSyntax.ScopeSplits | packages/core/canyonos_core/validate.py:148-161 | what a block binds in its scope, and what a walk for stored names meets in it, split by where each occurrence stands |
| PythonSyntax.WalksFind | packages/core/canyonos_core/validate.py:148-161 | the recursions bind and store exactly the names that some node met by `ast.walk` binds or stores |
| PythonSyntax.StatementsDeclare | packages/core/canyonos_core/validate.py:234-240 | the `global` names and the attributes put on the object are those of the block's statements, at any depth of compound statements |
| PythonSyntax.PutOnIsAssigned | packages/core/canyonos_core/validate.py:320-333 | a method puts an attribute on the object only where a node within it assigns one, and always so unless an inner function reuses the receiver's name |
| PythonSyntax.MissedExactly | packages/core/canyonos_core/validate.py:234-240 | a name not listed is bound by the class body exactly when the body binds it where the walk does not look: a `def` in a compound statement, a class, an import, a `match` name, or an assignment in a `def` line |
| PythonSyntax.PhantomExactly | packages/core/canyonos_core/validate.py:234-240 | a listed name is not bound by the body exactly when all the walk meets of it is an inner scope, a bare annotation, a `global` name, or the name of the `except` clause around it |
| ClassResolution.ResolveClass | packages/core/canyonos_core/validate.py:181-225 | ends on every project, cyclic or not; the last binding statement decides and is followed through aliases and imports |
| ClassResolution.ChaseIsFound | packages/core/canyonos_core/validate.py:188-190 | a search that ends without a visited set gets the same answer with one, never cut short |
| ClassResolution.EndlessChaseIsUnreadable | packages/core/canyonos_core/validate.py:188-190 | a search that would never end is answered "unreadable" |
| ClassResolution.ResolutionIsExact | packages/core/canyonos_core/validate.py:181-225 | the answer is that of following bindings without memory, and "unreadable" when that never ends |
| ClassResolution.LastBindingDecides | packages/core/canyonos_core/validate.py:192-225 | the last statement that gives the name a meaning decides: a class statement is that class, an alias is what its value is, an import what the first alias that brings it is in the other file; a star or any other binding is unreadable; a name none binds is absent |
| ClassMembers.CollectMethods | packages/core/canyonos_core/validate.py:228-262 | ends on every inheritance graph; own definitions win over inherited, earlier bases over later ones |
| ClassMembers.CompleteCoversChain | packages/core/canyonos_core/validate.py:241-262 | a complete answer lists all the walk sees in every class up any chain of bases, all readable and none seen to have `__getattr__` |
| ClassMembers.ReportedComesFromClosure | packages/core/canyonos_core/validate.py:228-262 | every listed name is one the walk sees in some class of the base closure, complete or not |
| ClassMembers.CompleteIsExact | packages/core/canyonos_core/validate.py:228-262 | a complete answer lists exactly the names the walk sees somewhere in the base closure |
| ClassMembers.CompleteExactly | packages/core/canyonos_core/validate.py:241-262 | the answer is complete exactly when, up every chain of bases, all bases can be read, no body lists `__getattr__`, and no class comes twice |
| ClassMembers.NearestDefinitionWins | packages/core/canyonos_core/validate.py:233-261 | a name is what the last statement of the body says that lists it, its `def` or bound otherwise; one the body does not list is there exactly when some base has it, and is what it is in the first that does |
| ClassMembers.NoMethodIsWrongExactly | packages/core/canyonos_core/validate.py:320-333 | "has no method" is false of what the controller's `getattr` finds exactly when a class of the closure binds the name where the walk does not look, a method assigns it on the object, `object` has it, or a hook answers: `__getattribute__`, or a `__getattr__` the walk does not see |
| ClassMembers.ListedIsWrongExactly | packages/core/canyonos_core/validate.py:320-333 | a listed name is not found exactly when in every class of the closure all occurrences of it belong elsewhere, and no assignment, `object` or hook has it |
| ClassMembers.PlainClassesAreRight | packages/core/canyonos_core/validate.py:320-333 | where no class of the closure has such a place for the name and nothing else has it, it is listed exactly when it is found |
| ClassMembers.WrongReportsExist | packages/core/canyonos_core/validate.py:234-240 | `run` defined under `if`, imported in the class body, assigned as `self.run` in `__init__`, or answered by `__getattribute__` is reported absent, and so is `__str__` |
| ClassMembers.PhantomExists | packages/core/canyonos_core/validate.py:234-240 | the variable of a comprehension is listed, and is not found |
| ClassMembers.CompleteMeansAcyclic | packages/core/canyonos_core/validate.py:242-262 | a complete answer means no class occurs twice on a chain of bases |
| Mirror.CollectEntries | packages/cli/canyonos/sync.py:80-95 | the manifest lists every path of the project with its kind, and the separate `.env` |
| Mirror.StaleEntries | packages/cli/canyonos/sync.py:196-200 | exactly the previous entries that are gone or changed kind, each once, deepest first |
| Mirror.DeletedSoFar | packages/cli/canyonos/sync.py:33-74 | after any number of entries the script has removed exactly the listed paths with nothing unlisted beneath |
| Mirror.ScriptPrunes | packages/cli/canyonos/sync.py:33-74 | the whole script succeeds and removes exactly those paths |
| Mirror.ScriptFailsExactly | packages/cli/canyonos/sync.py:33-74 | the script fails exactly when an entry that is no directory lies beneath a file |
| Mirror.StaleDirectoriesGoWhole | packages/cli/canyonos/sync.py:196-200 | every managed path beneath a stale directory is stale itself and deeper, so handled earlier |
| Mirror.StaleDirectoryRemoved | packages/cli/canyonos/sync.py:24-26 | a stale directory is removed exactly when the workspace holds nothing unmanaged beneath it |
| Mirror.OnlyManagedPathsGo | packages/cli/canyonos/sync.py:33-74 | nothing outside the previous manifest is deleted, and nothing the project still has as what it was |
| Mirror.NothingKnownNothingGoes | packages/cli/canyonos/sync.py:154-200 | without a manifest for this container nothing is deleted |
| Mirror.FitsUnlessBlocked | packages/cli/canyonos/sync.py:311-345 | as long as no `.env` was swallowed, the copy after the clean-up meets a file/directory clash exactly on something unmanaged at or beneath a project path's place |
| Mirror.CopiesUnlessBlocked | packages/cli/canyonos/sync.py:311-345 | then the copy succeeds and puts the `.env` in its place exactly when nothing unmanaged is in the way |
| Mirror.MirroredElsewhere | packages/cli/canyonos/sync.py:311-356 | after any successful sync every path but the two of a swallowed `.env` is as a plain mirror has it |
| Mirror.SyncMirrors | packages/cli/canyonos/sync.py:311-356 | the workspace is exactly the project's files and the container's own exactly when the `.env` is not swallowed by a directory and none swallowed earlier is left; the new manifest describes it |
| Mirror.UntroubledKept | packages/cli/canyonos/sync.py:311-356 | a sync that swallows nothing leaves no stray `.env` and nothing to except from the manifest |
| Mirror.PartialDeletionIsSound | packages/cli/canyonos/sync.py:33-74 | stopping the script after any number of entries leaves a tree the old manifest still describes, with the container's own files untouched |
| Mirror.RunKeepsSound | packages/cli/canyonos/sync.py:154-200 | over any run of edits, syncs, failed syncs and container writes the manifest accounts for every file not the container's own |
| Mirror.EachEvent | packages/cli/canyonos/sync.py:154-200 | what each event of a run does: a sync cleans and copies, a script that dies leaves part of the deletions under the old manifest, the container's writes stay |
| Mirror.EverySyncMirrors | packages/cli/canyonos/sync.py:311-356 | in every run, swallowed syncs included, each successful sync mirrors exactly unless it swallows the `.env` or one swallowed before is in the way; all other paths are right even then |
| Mirror.MirrorsUntilSwallowed | packages/cli/canyonos/sync.py:311-356 | until a first `.env` is swallowed, each successful sync mirrors exactly unless the root or the cleaned workspace has a `.env` directory where a `.env` file is to go |
| Mirror.EnvDirectoryIsNotMirrored | packages/cli/canyonos/sync.py:332-345 | with a `.env` directory in the root, the separate `.env` does not arrive at its place, but inside that directory |
| Mirror.Container.DeleteStale | packages/cli/canyonos/sync.py:33-74 | the script's loop in place: all entries, or a prefix of them when it dies |
| Mirror.Container.RunSync | packages/cli/canyonos/sync.py:311-356 | success saves the manifest under this container and leaves the mirror exactly unless a `.env` directory is in the way; a manifest of another container deletes nothing; any failure keeps the old manifest, and a script that died keeps it meaningful |
| Delivery.Outbox.NextBatch | packages/cli/canyonos/usage/delivery.py:140-150 | the oldest valid events, at most 25; malformed files before them are discarded and no event is |
| Delivery.Outbox.Turn | packages/cli/canyonos/usage/delivery.py:200-207 | one round sends the first 25 events and removes exactly those, only when the API stored them |
| Delivery.Outbox.Deliver | packages/cli/canyonos/usage/delivery.py:200-207 | ends when no event is added; the acknowledged requests joined with what still waits are all the events there were, in order; requests hold 25 events, the last one at least one; all acknowledged ones were answered 200, and it stops at the first other answer, with reporting off, or with nothing left |
| DeliveryProtocol.StepKeepsInv | packages/cli/canyonos/usage/delivery.py:200-222 | the lock, the requests, the files and the conservation of events survive every step, crash and lost answer |
| DeliveryProtocol.LeavesExactlyWhenTaken | packages/cli/canyonos/usage/outbox.py:90-93 | a waiting event leaves exactly when it is among the oldest of a full outbox, purged, unreadable when read, or deleted after an answer |
| DeliveryProtocol.LeavingIsAccountedFor | packages/cli/canyonos/usage/outbox.py:90-93 | an event that leaves is stored, or its loss is recorded with the cause |
| DeliveryProtocol.ReachableKeepsInv | packages/cli/canyonos/usage/delivery.py:200-222 | the invariant holds in every reachable state |
| DeliveryProtocol.OneSender | packages/cli/canyonos/usage/delivery.py:210-222 | at most one sender is active, so at most one request awaits its answer |
| DeliveryProtocol.EventLeavesExactlyWhen | packages/cli/canyonos/usage/delivery.py:200-222 | in every reachable state those are exactly the ways out, and what is deleted after an answer was stored |
| DeliveryProtocol.DroppedExactly | packages/cli/canyonos/usage/delivery.py:140-147 | in every reachable state an event comes to be recorded as dropped exactly when a step other than a deletion after an answer takes it, and under the cause that step has |
| DeliveryLosses.TurningOffLoses | packages/cli/canyonos/usage/settings.py:139-142 | a run in which an event that was never stored is purged |
| DeliveryLosses.UnreadableFileLoses | packages/cli/canyonos/usage/delivery.py:140-147 | a run in which a valid event that was never stored is deleted because its file could not be read |
| DeliveryLosses.FullOutboxLosesOldest | packages/cli/canyonos/usage/outbox.py:90-93 | a run of 1001 events in which the oldest is lost unstored |
| DeliveryProtocol.AtLeastOnce | packages/cli/canyonos/usage/delivery.py:210-215 | an event recorded and never dropped for such a cause is waiting or stored |
| DeliveryProtocol.DeduplicatedOnce | packages/cli-usage-api/src/usage.repository.ts:37-58 | keeping the first of each `event_id` keeps every event and no id twice |
| DeliveryProtocol.DeduplicationGrows | packages/cli-usage-api/src/usage.repository.ts:37-58 | what a reader has kept stays in its place when more is stored |
| DeliveryProtocol.ReadersSeeEachEventOnce | packages/cli-usage-api/src/usage.repository.ts:37-58 | in every reachable state, the stored batches without repeated ids hold exactly the stored events, each once |
| DeliveryProtocol.RequestsFit | packages/cli/canyonos/usage/delivery.py:140-150 | no request, sent or stored, is empty while awaited or longer than 25 |
| DeliveryProtocol.UndisturbedRound | packages/cli/canyonos/usage/delivery.py:200-207 | from every reachable state a sender that nothing disturbs stores the oldest events, up to 25, in one request in order, and deletes exactly their files |
| DeliveryProtocol.NothingIsPassedOver | packages/cli/canyonos/usage/delivery.py:140-150 | whatever the others do meanwhile, a request of fewer than 25 events holds every event that waited when its sender began to read and still waits |
| DeliveryProtocol.UnansweredRound | packages/cli/canyonos/usage/delivery.py:200-207 | a round without an answer leaves all files waiting, whether its batch was stored or not, and the lock free |
| DeliveryProtocol.LostAnswersRepeat | packages/cli/canyonos/usage/delivery.py:200-207 | when answers are lost, the same batch can be stored three times with its files still waiting: once by each round, and late |
| DeliveryProtocol.CrashFreesLock | packages/cli/canyonos/usage/delivery.py:210-222 | wherever a sender is it can crash; the lock is free then, nothing waiting is lost, another can start, and a request under way can still arrive |
| DeliveryProtocol.NothingIsSentWhileOff | packages/cli/canyonos/usage/delivery.py:202 | with reporting off and no batch in hand, no sender reads a batch or makes a request until it is turned on, in any run |
| DeliveryProtocol.NoPurgeUnlessTurnedOff | packages/cli/canyonos/usage/settings.py:139-142 | in any run, nothing is dropped for reporting being off before it was turned off |
| DeliveryProtocol.OffAndOnAgain | packages/cli/canyonos/usage/settings.py:139-142 | from every reachable state with the lock free, reporting can be turned off, purged and on again, and then an event recorded is stored, alone |
| DeliveryProtocol.RecordingMakesRoom | packages/cli/canyonos/usage/outbox.py:90-93 | a recorded event waits, and pushes out the oldest files just as far as 1000 are left |
| PortForward.StepKeepsInv | packages/cli/canyonos/kubernetes_target.py:1043-1091 | every action of either thread, and kubectl dying, keeps live processes listed and the closed flag respected |
| PortForward.EveryLiveProcessIsListed | packages/cli/canyonos/kubernetes_target.py:1037-1041 | whenever the lock is free, every live kubectl of the forward is in `_started` |
| PortForward.NothingStartsOnceClosedIsSet | packages/cli/canyonos/kubernetes_target.py:1045-1048 | once the flag is set no step starts a process |
| PortForward.ClosedForGood | packages/cli/canyonos/kubernetes_target.py:1082-1091 | in every continuation after `close` gave the lock back, every live process is signalled and none is ever started again |
| PortForward.StartsOpen | packages/cli/canyonos/kubernetes_target.py:1035-1041 | a forward starts open with its first process listed, and any live process may die at any time |
| PortForward.OnlyTheDeadAreReplaced | packages/cli/canyonos/kubernetes_target.py:1071-1075 | in every reachable state a kubectl is started only when the one before it has died, and the thread sets out to start one exactly then, unless the forward is closed |
| PortForward.DeadIsReplaced | packages/cli/canyonos/kubernetes_target.py:1043-1075 | while nobody closes the forward, a kubectl that dies can be replaced by a live, listed one, and then the lock is free |
| PortForward.FailedStartIsRetried | packages/cli/canyonos/kubernetes_target.py:1061-1075 | when kubectl cannot be started, or prints anything else first, it is ended, and from there a start can follow again |
| PortForward.CloseCanRun | packages/cli/canyonos/kubernetes_target.py:1082-1091 | with the lock free a `close` can run to its end, with every listed process signalled and then waited for |
| PortForward.RestarterCanEnd | packages/cli/canyonos/kubernetes_target.py:1071-1075 | once closed and with the lock free, the thread that restarts can end, and starts nothing on the way |
| RemovalPlan.UsersOf | packages/cli/canyonos/aws_provision.py:540-551 | splits a group's users into its agents and exactly the machines that hold it, which exist exactly when the group must stay |
| RemovalPlan.AddAgents | packages/cli/canyonos/aws_provision.py:554-558 | adds the agents' ids, each once |
| RemovalPlan.PlanGroups | packages/cli/canyonos/aws_provision.py:535-558 | every tagged group is removed, in the order listed, or kept with the list of exactly the machines that hold it, at least one; exactly the agents of removed groups are ended |
| RemovalPlan.PlanKeys | packages/cli/canyonos/aws_provision.py:571-583 | every tagged key pair is removed, in the order listed, or kept with the list of exactly the machines that use it and are not ended |
| RemovalPlan.Make | packages/cli/canyonos/aws_provision.py:527-591 | every live machine using a removed group or key is ended by the plan; agent ids are distinct and exactly the agents of freed groups and the machines deployed from the given ones |
| SecurityRules.CoversIsSound | packages/cli/canyonos/aws_provision.py:318-339 | a permission said to cover a rule lets in all the traffic the rule does |
| SecurityRules.CoversIsExact | packages/cli/canyonos/aws_provision.py:318-339 | a permission lets all of a rule's traffic in exactly when it is said to cover it, or does so overlooked: through address blocks that hold every machine of the group, or the caller without naming it |
| SecurityRules.MissingIsExact | packages/cli/canyonos/aws_provision.py:342-348 | a wanted rule is missing exactly when every permission that alone lets all its traffic in does so overlooked |
| SecurityRules.AddingMissingIsEnough | packages/cli/canyonos/aws_provision.py:289-348 | adding the missing rules leaves nothing missing, and the group then lets in exactly what it did before and what is wanted: its machines on all ports, the caller on 22 and 8080 to 8082 |
| SecurityRules.AsPermissionIsExact | packages/cli/canyonos/aws_provision.py:289-315 | as a permission a rule lets in exactly its own traffic |
| SecurityRules.OpenToAllIsOverlooked | packages/cli/canyonos/aws_provision.py:330-335 | with everything open to everyone, the rule for the group's machines is still reported |
| SecurityRules.BlockIsOverlooked | packages/cli/canyonos/aws_provision.py:336-339 | with the block of 256 addresses around the caller's open, the rule for the caller is still reported |
| SecurityRules.SharedCoverIsMissed | packages/cli/canyonos/aws_provision.py:318-339 | two permissions that allow a rule only together leave it reported |
| SecurityRules.LetInPortByPort | packages/cli/canyonos/aws_provision.py:318-339 | several permissions let all of a rule's traffic in exactly when on each of its ports, and for each address it is for, some one of them serves it |
| SecurityRules.NeedlesslyReportedExactly | packages/cli/canyonos/aws_provision.py:342-348 | a rule is reported although its traffic is let in exactly when the permissions serve it so and none alone, unless overlooked |
| SupportWindow.WindowIs | scripts/supported-versions.ts:26-37 | the window is strictly descending, at most three, one series, headed by the maximum, and exactly the versions of that series with fewer than three newer |
| SupportWindow.WindowByNumbers | scripts/supported-versions.ts:26-37 | a version is in the window exactly when it is listed, no listed one has a higher MAJOR.MINOR, and at most two of its series have a higher patch |
| SupportWindow.NewerIsReleaseOrder | scripts/supported-versions.ts:18-24 | the comparison is the order of releases: the first number that differs decides |
| SupportWindow.WindowOfSet | scripts/supported-versions.ts:32 | order and repetition of the releases do not matter |
| SupportWindow.WindowIsHomomorphic | scripts/supported-versions.ts:26-37 | replacing some of the releases by their window changes nothing |
| SupportWindow.AddingInAnyOrder | scripts/supported-versions.ts:39-41 | folding `addRelease` gives the window of all releases |
| SupportWindow.FoldOrderDoesNotMatter | scripts/supported-versions.ts:39-41 | two orders of the same releases end at the same window |
| PhaseTracker.LineDecides | packages/cli/canyonos/deploy.py:197-265 | what one line may decide: nothing if it is a sentinel or quoted; no quote if it is not; the spinner is what was shown last; an error line touches only the details; a step stays open until its own line or the whole build closes it |
| PhaseTracker.SpinnerCounts | packages/cli/canyonos/deploy.py:244-256 | over any log the agents shown are the different replicas reported ready outside quoted logs, of the total last waited for |
| PhaseTracker.QuotesNeverMatter | packages/cli/canyonos/deploy.py:197-265 | states that differ only in quoted fields show the same for any further log |
| PhaseTracker.BlockIsSilent | packages/cli/canyonos/deploy.py:200-215 | a quoted container log shows nothing and leaves everything but the quoted fields |
| PhaseTracker.QuotedLogsDoNotInterfere | packages/cli/canyonos/deploy.py:197-265 | inserting one anywhere outside another leaves every other line's output and all other state as they were |
| QuotedLog.MessageOfLogLine | packages/cli/canyonos/deploy.py:140-151 | every one-line message is read back from its `LEVEL:logger:message` line |
| QuotedLog.ReadBack | packages/cli/canyonos/deploy.py:746-750 | a log of one-line texts, read line by line, gives those texts |
| QuotedLog.FirstLineSplitsOff | packages/cli/canyonos/deploy.py:746-750 | whichever line end closes it, the first line is split off without it |
| QuotedLog.OnlyLogLinesHaveMessages | packages/cli/canyonos/deploy.py:139-151 | nothing is read from a line that does not start with an upper-case level, a logger name and two colons |
| QuotedLog.DumpKeepsOutput | packages/core/canyonos_core/controller/utils/container_log.py:35-45 | every line the container printed can be read back from its dump |
| QuotedLog.DumpIsBlock | packages/core/canyonos_core/controller/utils/container_log.py:35-45 | whatever a container printed, its dumped log has a begin sentinel, no sentinel among the quoted lines, and an end sentinel |
| QuotedLog.DumpDoesNotInterfere | packages/core/canyonos_core/controller/utils/container_log.py:19-45 | written and read back, the dump of any container output leaves every other line's output and all other state as they were |
| PhaseTracker.BlockReportsItsReason | packages/cli/canyonos/deploy.py:275-289 | a block adds one agent error: its first ERROR line, else its last exception line, else nothing |
| Vectors.DotIsBounded | examples/portfolio/agents/risk_agent.py:94-105 | Cauchy-Schwarz: a covariance is at most the product of the deviations |
| Vectors.CombineIsBounded | examples/portfolio/agents/risk_agent.py:40-45 | a non-negative combination deviates at most by the weighted sum of the deviations |
| Portfolio.WeightsSumToOne | examples/portfolio/agents/risk_agent.py:69-77 | weights sum to one, and are non-negative when the holdings are |
| Portfolio.WeightsAreShares | examples/portfolio/agents/risk_agent.py:69-77 | each weight is the holding's share of the total; without a positive total all are 1/n |
| Portfolio.EvenIsLeastConcentrated | examples/portfolio/agents/risk_agent.py:50 | the concentration index is at least 1/n, with equality for even weights only |
| Portfolio.ConcentrationAtMostOne | examples/portfolio/agents/risk_agent.py:50 | for non-negative weights it is at most one |
| Portfolio.DeviationsOfPortfolio | examples/portfolio/agents/risk_agent.py:92-105 | the deviations of the weighted returns are the weighted deviations |
| Portfolio.CovarianceOfSums | examples/portfolio/agents/risk_agent.py:92-102 | the covariance is the average product less the product of the averages |
| Portfolio.AddRowOfForm | examples/portfolio/agents/risk_agent.py:96-105 | one outer turn adds the weighted covariance of a ticker with the whole portfolio |
| Portfolio.DailyVariance | examples/portfolio/agents/risk_agent.py:94-105 | the double loop computes the variance of the portfolio's daily returns, so it is never negative |
| Portfolio.PortfolioVolatility | examples/portfolio/agents/risk_agent.py:79-108 | over the shortest history's window, the annualised deviation of the portfolio's own returns, and the clamp never binds; under two days the weighted average |
| Portfolio.AlignedIsLatest | examples/portfolio/agents/risk_agent.py:91 | only the latest returns count: earlier ones change nothing |
| Diversification.DiversificationIsAtLeastOne | examples/portfolio/agents/risk_agent.py:43-48 | with non-negative weights and volatilities over one window, the ratio is at least one |
| Diversification.EqualWindowsAreEnough | examples/portfolio/agents/risk_agent.py:43-48 | the code's ratio is at least one whenever every ticker with some weight has just the common window |
| Diversification.LongerWindowFallsShort | examples/portfolio/agents/risk_agent.py:43-48 | if one has a longer history, there are returns, all above -1, for which the ratio is below one |
| Diversification.LeastIsShortest | examples/portfolio/agents/risk_agent.py:84 | the least length is the common window the code takes |
| Diversification.AtLeastOneExactly | examples/portfolio/agents/risk_agent.py:43-48 | for histories of given lengths with returns above -1 the ratio is always at least one exactly when every ticker with some weight has the shortest length |
| Portfolio.MaxDrawdown | examples/portfolio/agents/metrics_agent.py:68-76 | the one pass finds the minimum over all earlier and later days of later/earlier - 1, which lies above -1 and at most 0 |

## Left out

- Docker, kubectl, AWS, SSH, HTTP and processes appear only as their effect on state: success, failure, a lost answer, a process dying.
- Symbolic links, permissions, encodings, hash collisions, the ignore filter of `_copy_source`, the symlink checks of the delete script, and `_ensure_gitignore`.
- Prepare.Workspace.Run: the undoing steps do not fail, and nothing fails after the swap, where the code promises no recovery; a crash may come anywhere. The checks on the two roots' own paths are not modelled.
- Prepare.StateRoundTrip: the state file is a value with the recorded source in it; JSON text, its version field and malformed path entries other than an empty one are one case, an invalid state.
- Mirror.Container.RunSync: what a copy that breaks off leaves is an arbitrary tree and the mirror claim does not extend to it, nor to a manifest that could not be saved after a copy; the copy itself is one assignment.
- Mirror.StaleEntries: entries of equal depth may come in any order; the source keeps the manifest's. Malformed manifests and the fingerprints of `canyonos deploy` are left out.
- Pep440: epochs, pre-, post- and development releases and local versions, for which `.release` or a prefix match loses information. `===` compares components, not text.
- VersionGate.AboveIsExact: asks for a limit other than 0; every limit in the source is a major version plus one.
- Signature.CheckAgreesWithPython: asks for an undecorated method whose receiver is called `self` or `cls` and for distinct declared names, as the keys of a dictionary are; Signature.AgreementEverywhere shows what it asks of defaults and of the receiver to be needed. The text of findings, and `_check_adapter`, `_check_flat_collisions` and `_check_package_reexport`.
- PythonSyntax: statements and expressions are represented by the names and scopes in them. Binding is on some path: whether an `if` is taken or a method is called, what `del` unbinds, and the mangling of private names are not modelled. Parameters other than named ones do not shadow a receiver.
- ClassMembers.NoMethodIsWrongExactly: what stays dynamic is not modelled: decorators, metaclasses, attributes set from outside the class (`Agent.run = f` in a module), `setattr` and `__dict__`, a receiver under another name, and further names that single Python releases give every object. A name whose value is `None`, such as a missing `__doc__`, counts as found, although the controller treats it as missing.
- ClassResolution.ResolveClass: an import is represented by the file it reads, if there is one; redefining a name after an alias of it was taken is not modelled.
- ClassMembers.CompleteIsExact: speaks of the set of names; which definition wins under diamond inheritance follows the code's depth-first order, not Python's method resolution order.
- Delivery.Outbox.Deliver: no event is added meanwhile and every file can be read; DeliveryProtocol lifts both. Event validity is abstract, and file ages and temporary files are left out.
- DeliveryProtocol: files of the outbox are not edited by hand between reading and deleting; event ids are never reused; liveness (that a sender eventually runs) is not claimed.
- PortForward: waiting for a process to end is a step without a timeout; what kubectl prints is a success or a failure line.
- RemovalPlan.Make: the AWS answers are one snapshot, tags are two fields of a machine, and `provenance` and the removal itself are left out.
- SecurityRules.CoversIsExact: IPv6 and prefix lists are left out, and so are security groups of other accounts; the addresses a group's machines may have are a parameter.
- SupportWindow.WindowIs: final releases without leading zeros; release candidates, which the release test lets through and the comparison turns into NaN, and numbers beyond a float's exact range are not modelled. `renderSupportedVersions` is left out.
- PhaseTracker.LineDecides: regular expressions and substring tests other than the sentinels' are fields of a line, so which text matches is not modelled; `explain_failure` is left out.
- QuotedLog.DumpIsBlock: the logging module's default format, and white space is blank, tab and line breaks; other threads' log lines between the lines of a dump are not modelled.
- Portfolio.PortfolioVolatility: reals are exact, rounding and floating point are not modelled, and the square root is a parameter with `math.sqrt`'s defining property.
- Command-line parsing, terminal output, menus, the web and SDK files, the reconciler, the schema and the Global Controller.
